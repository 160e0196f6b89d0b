/** Failure-carrying results, the faults the simulator raises, and the
    sequence scans that the routing code is built from. */
module Common {

  datatype Option<+T> = None | Some(value: T)

  datatype Result<+R> = Success(value: R) | Failure(error: Fault)

  datatype Outcome = Pass | Fail(error: Fault)

  /** One constructor per exception the core throws. `MissingEntry` stands for
      a lookup in a Java map that returns null and is then dereferenced;
      `IndexOutOfRange` for `ArrayToken.getElement` past the end. */
  datatype Fault =
    | InvalidId                // an id equal to -1
    | IdCollision              // an id already used by the other partition
    | DuplicateId              // an id already registered in its own partition
    | StormyUnset              // the stormy parameter of an intersection has no value
    | EntryNotSet              // blockage update for an id the blockage map lacks
    | UnknownIntersection      // occupancy update for an id no partition has
    | RoutingMismatch          // roadMap[0] differs from the routing node
    | NeighborsNotSet          // the routing node has no neighbour list
    | NoSuchNeighbor           // roadMap[1] is not a neighbour of the routing node
    | MissingEntry
    | IndexOutOfRange
    | TwoCars                  // a second car reaches an occupied intersection
    | NegativeDelay            // a backoff or start delay below zero
    | NoConnectedIntersection  // a source configured without connected intersections
    | NoRouteToFirstHop        // no connected intersection equals roadMap[0]
    | NoRoom                   // a send refused where nothing catches the refusal

  /** The index of the first occurrence of `x` in `s`, or -1. */
  function IndexOf(s: seq<int>, x: int): (i: int)
    ensures -1 <= i < |s|
    ensures i == -1 <==> x !in s
    ensures 0 <= i ==> s[i] == x && x !in s[..i]
  {
    if s == [] then -1
    else if s[0] == x then 0
    else
      var j := IndexOf(s[1..], x);
      assert s[1..][..if j < 0 then 0 else j] == s[1..1 + if j < 0 then 0 else j];
      if j == -1 then -1 else j + 1
  }

  /** The first occurrence is determined by its two defining properties. */
  lemma IndexOfUnique(s: seq<int>, x: int, i: nat)
    requires i < |s| && s[i] == x && x !in s[..i]
    ensures IndexOf(s, x) == i
  {
  }

  /** The number of occurrences of `x` in `s`. */
  function Count(s: seq<int>, x: int): (n: nat)
    ensures n <= |s|
    ensures n == 0 <==> x !in s
  {
    if s == [] then 0
    else
      var last := if s[|s| - 1] == x then 1 else 0;
      assert s == s[..|s| - 1] + [s[|s| - 1]];
      Count(s[..|s| - 1], x) + last
  }

  /** The index of the last occurrence of `x` in `s`, or -1. */
  function LastIndexOf(s: seq<int>, x: int): (i: int)
    ensures -1 <= i < |s|
    ensures i == -1 <==> x !in s
    ensures 0 <= i ==> s[i] == x && x !in s[i + 1..]
  {
    if s == [] then -1
    else if s[|s| - 1] == x then |s| - 1
    else
      var j := LastIndexOf(s[..|s| - 1], x);
      assert s == s[..|s| - 1] + [s[|s| - 1]];
      assert 0 <= j ==> s[j + 1..] == s[..|s| - 1][j + 1..] + [s[|s| - 1]];
      j
  }

  /** `s` without its first `k` elements; empty once `k` reaches the length,
      as `ArrayToken.subarray` answers for a start index past the end. */
  function DropFront(s: seq<int>, k: nat): (r: seq<int>)
    ensures |r| == if k <= |s| then |s| - k else 0
    ensures forall i :: 0 <= i < |r| ==> r[i] == s[k + i]
  {
    if k <= |s| then s[k..] else []
  }

  /** The first index at which `stop` holds, or |s| if it holds nowhere. */
  function FirstWhere(s: seq<int>, stop: int -> bool): (j: nat)
    ensures j <= |s|
    ensures forall k :: 0 <= k < j ==> !stop(s[k])
    ensures j < |s| ==> stop(s[j])
  {
    if s == [] then 0
    else if stop(s[0]) then 0
    else
      var j := FirstWhere(s[1..], stop);
      assert forall k :: 1 <= k < j + 1 ==> s[k] == s[1..][k - 1];
      j + 1
  }

  /** The first index is determined by its two defining properties. */
  lemma FirstWhereUnique(s: seq<int>, stop: int -> bool, j: nat)
    requires j <= |s|
    requires forall k :: 0 <= k < j ==> !stop(s[k])
    requires j < |s| ==> stop(s[j])
    ensures FirstWhere(s, stop) == j
  {
  }

  /** Dropping two more elements after 2n of them is dropping 2(n + 1). */
  lemma DropFrontTwice(s: seq<int>, k: nat)
    ensures DropFront(DropFront(s, k), 2) == DropFront(s, k + 2)
  {
  }

  /** Extending a prefix by one element extends the scans by that element. */
  lemma ScansOfPrefix(s: seq<int>, i: nat, x: int)
    requires i < |s|
    ensures Count(s[..i + 1], x) == Count(s[..i], x) + (if s[i] == x then 1 else 0)
    ensures LastIndexOf(s[..i + 1], x) == if s[i] == x then i else LastIndexOf(s[..i], x)
  {
    assert s[..i + 1][..i] == s[..i];
  }
}
