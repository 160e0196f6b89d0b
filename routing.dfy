/** The director's decisions as functions of its tables: hop-by-hop routing,
    the availability query, and the two reroute policies (the kernel
    director's shortest-path fallback and the local neighbour-of-neighbour
    fallback with its U-turn shortcut). The class in module Director runs
    the same decisions as loops and is proved equal to these functions. */
module Routing {
  import opened Common
  import opened Cars

  /** The director's shared tables, keyed by node id. `endpoints` is the one
      list that holds both source and destination ids. */
  datatype Tables = Tables(
    inTransit: map<int, bool>,
    stormy: map<int, bool>,
    neighbors: map<int, seq<int>>,
    endpoints: seq<int>)

  /** The shortest-path search the kernel director calls: it receives the
      neighbour map, the source/destination ids, the start and goal ids, the
      blockage map and the occupancy map, and answers a path or nothing. Its
      code is not part of this model. */
  type PathFinder = (map<int, seq<int>>, seq<int>, int, int, map<int, bool>, map<int, bool>) -> Option<seq<int>>

  // ---------------------------------------------------------------- routing

  /** A car can be routed at `id`: its road map starts at `id` and names a
      next hop that is one of `id`'s neighbours. */
  predicate Routable(neighbors: map<int, seq<int>>, roadMap: seq<int>, id: int)
  {
    |roadMap| >= 2 && roadMap[0] == id && id in neighbors && roadMap[1] in neighbors[id]
  }

  /** One routing step at node `id`: check the head, find the direction of
      the next hop, drop the head and stamp `id` as the prior node. */
  function RoutingOf(neighbors: map<int, seq<int>>, car: Car, id: int): (r: Result<Routed>)
    ensures r.Success? <==> Routable(neighbors, car.roadMap, id)
    ensures r.Success? ==>
      var out := r.value;
      && 0 <= out.route < |neighbors[id]|
      && neighbors[id][out.route] == car.roadMap[1]
      && car.roadMap[1] !in neighbors[id][..out.route]
      && [id] + out.car.roadMap == car.roadMap
      && out.car.roadMap[0] == neighbors[id][out.route]
      && out.car.prior == id
      && SameTrip(out.car, car)
      && out.delay == UnitDelay
    ensures r.Failure? ==>
      r.error == (if car.roadMap == [] then IndexOutOfRange
                  else if car.roadMap[0] != id then RoutingMismatch
                  else if |car.roadMap| == 1 then IndexOutOfRange
                  else if id !in neighbors then NeighborsNotSet
                  else NoSuchNeighbor)
  {
    var roadMap := car.roadMap;
    if |roadMap| == 0 then Failure(IndexOutOfRange)
    else if roadMap[0] != id then Failure(RoutingMismatch)
    else if |roadMap| == 1 then Failure(IndexOutOfRange)
    else if id !in neighbors then Failure(NeighborsNotSet)
    else
      var route := IndexOf(neighbors[id], roadMap[1]);
      if route == -1 then Failure(NoSuchNeighbor)
      else Success(Routed(car.(roadMap := roadMap[1..], prior := id), UnitDelay, route))
  }

  /** The worked example of routing: at a node whose neighbours are
      [5, 7, 3], a car heading [node, 7, 9] leaves by direction 1 with road
      map [7, 9]. */
  lemma RoutingExample(node: int, car: Car)
    requires car.roadMap == [node, 7, 9]
    ensures var r := RoutingOf(map[node := [5, 7, 3]], car, node);
      r.Success? && r.value.route == 1 && r.value.car.roadMap == [7, 9]
  {
    assert [5, 7, 3][1] == 7 && 7 !in [5, 7, 3][..1];
  }

  /** Every hop of the road map is a neighbour of the hop before it. */
  predicate Connected(neighbors: map<int, seq<int>>, roadMap: seq<int>)
  {
    forall i :: 0 <= i < |roadMap| - 1 ==> roadMap[i] in neighbors && roadMap[i + 1] in neighbors[roadMap[i]]
  }

  /** Where a car ends up after being routed at each hop of its road map in
      turn, and the directions it left by. */
  datatype Journey = Journey(car: Car, routes: seq<int>)

  /** Route a car at its current hop, then at the next, until only its
      destination is left. */
  function Drive(neighbors: map<int, seq<int>>, car: Car): Result<Journey>
    decreases |car.roadMap|
  {
    if |car.roadMap| <= 1 then Success(Journey(car, []))
    else match RoutingOf(neighbors, car, car.roadMap[0])
      case Failure(f) => Failure(f)
      case Success(out) =>
        match Drive(neighbors, out.car)
        case Failure(f) => Failure(f)
        case Success(j) => Success(Journey(j.car, [out.route] + j.routes))
  }

  /** Hop-by-hop routing carries a car to its destination exactly when its
      road map follows the network. The car then holds only the destination,
      was last routed by the hop before it, keeps its trip data, and left
      every hop by the direction of the following one. */
  lemma {:induction false} DriveReachesDestination(neighbors: map<int, seq<int>>, car: Car)
    requires car.roadMap != []
    ensures Drive(neighbors, car).Success? <==> Connected(neighbors, car.roadMap)
    ensures Drive(neighbors, car).Success? ==>
      var roadMap := car.roadMap;
      var j := Drive(neighbors, car).value;
      && j.car.roadMap == [roadMap[|roadMap| - 1]]
      && SameTrip(j.car, car)
      && (|roadMap| >= 2 ==> j.car.prior == roadMap[|roadMap| - 2])
      && |j.routes| == |roadMap| - 1
      && forall i :: 0 <= i < |j.routes| ==>
           0 <= j.routes[i] < |neighbors[roadMap[i]]| && neighbors[roadMap[i]][j.routes[i]] == roadMap[i + 1]
    decreases |car.roadMap|
  {
    var roadMap := car.roadMap;
    if |roadMap| >= 2 {
      ConnectedStep(neighbors, roadMap);
      var first := RoutingOf(neighbors, car, roadMap[0]);
      if first.Success? {
        var out := first.value;
        DriveReachesDestination(neighbors, out.car);
        if Drive(neighbors, out.car).Success? {
          var rest := Drive(neighbors, out.car).value;
          var j := Drive(neighbors, car).value;
          assert j.routes == [out.route] + rest.routes;
          forall i | 1 <= i < |j.routes|
            ensures 0 <= j.routes[i] < |neighbors[roadMap[i]]| && neighbors[roadMap[i]][j.routes[i]] == roadMap[i + 1]
          {
            assert j.routes[i] == rest.routes[i - 1];
            assert out.car.roadMap[i - 1] == roadMap[i] && out.car.roadMap[i] == roadMap[i + 1];
          }
        }
      }
    }
  }

  /** A road map of two hops or more follows the network exactly when its
      first hop leads to its second and the rest follows the network. */
  lemma ConnectedStep(neighbors: map<int, seq<int>>, roadMap: seq<int>)
    requires |roadMap| >= 2
    ensures Connected(neighbors, roadMap) <==>
      roadMap[0] in neighbors && roadMap[1] in neighbors[roadMap[0]] && Connected(neighbors, roadMap[1..])
  {
    if roadMap[0] in neighbors && roadMap[1] in neighbors[roadMap[0]] && Connected(neighbors, roadMap[1..]) {
      forall i | 1 <= i < |roadMap| - 1
        ensures roadMap[i] in neighbors && roadMap[i + 1] in neighbors[roadMap[i]]
      {
        assert roadMap[1..][i - 1] == roadMap[i];
      }
    }
    if Connected(neighbors, roadMap) {
      forall i | 0 <= i < |roadMap[1..]| - 1
        ensures roadMap[1..][i] in neighbors && roadMap[1..][i + 1] in neighbors[roadMap[1..][i]]
      {
        assert roadMap[1..][i] == roadMap[i + 1];
      }
    }
  }

  // ----------------------------------------------------------- availability

  /** Whether an intersection counts as unavailable: occupied or stormy. The
      occupancy entry is read first and the blockage entry only when the
      intersection is free; a missing entry is a null dereference. */
  function StatusOf(t: Tables, id: int): (r: Result<bool>)
    ensures r.Success? <==> id in t.inTransit && (t.inTransit[id] || id in t.stormy)
    ensures r.Success? ==> (r.value <==> t.inTransit[id] || t.stormy[id])
    ensures r.Failure? ==> r.error == MissingEntry
  {
    if id !in t.inTransit then Failure(MissingEntry)
    else if t.inTransit[id] then Success(true)
    else if id !in t.stormy then Failure(MissingEntry)
    else Success(t.stormy[id])
  }

  // ------------------------------------------------------ reroute screening

  /** The five conditions a neighbour must meet before a reroute tries it:
      a real id, not a source or destination, not the node that refused the
      car, free and not stormy. */
  predicate Eligible(t: Tables, current: int, n: int)
  {
    && n != Unset
    && n !in t.endpoints
    && n != current
    && n in t.inTransit && !t.inTransit[n]
    && n in t.stormy && !t.stormy[n]
  }

  datatype Screening = Rejected | Admitted | Broken(fault: Fault)

  /** The five conditions evaluated left to right as the source does; the
      occupancy and blockage lookups fail on a missing entry. */
  function Screen(t: Tables, current: int, n: int): (s: Screening)
    ensures s == Admitted <==> Eligible(t, current, n)
    ensures s.Broken? ==> s.fault == MissingEntry
    ensures s.Broken? <==>
      n != Unset && n !in t.endpoints && n != current
      && (n !in t.inTransit || (!t.inTransit[n] && n !in t.stormy))
  {
    if n == Unset || n in t.endpoints || n == current then Rejected
    else if n !in t.inTransit then Broken(MissingEntry)
    else if t.inTransit[n] then Rejected
    else if n !in t.stormy then Broken(MissingEntry)
    else if t.stormy[n] then Rejected
    else Admitted
  }

  /** What the reroute scan does with one neighbour: pass over it, take it
      because it is the destination, take it with a new road map, or stop on
      a failed lookup. */
  datatype Verdict = Skip | ToDestination | Via(roadMap: seq<int>) | Abort(fault: Fault)

  // ------------------------------------------------ kernel: shortest path

  /** The kernel director's verdict on neighbour `n`: the destination is
      taken at once; an admitted neighbour is taken when the path search from
      it to the destination answers a path, which becomes the road map. */
  function ShortestPathVerdict(t: Tables, finder: PathFinder, current: int, dest: int, n: int): Verdict
  {
    if n == dest then ToDestination
    else match Screen(t, current, n)
      case Rejected => Skip
      case Broken(f) => Abort(f)
      case Admitted =>
        match finder(t.neighbors, t.endpoints, n, dest, t.stormy, t.inTransit)
        case None => Skip
        case Some(path) => Via(path)
  }

  /** Where the kernel reroute's scan stops: at the first neighbour it does
      not pass over. */
  function ShortestPathHalts(t: Tables, finder: PathFinder, current: int, dest: int): int -> bool
  {
    n => !ShortestPathVerdict(t, finder, current, dest, n).Skip?
  }

  /** The kernel director's reroute of a car whose forward was refused. The
      car sits at its prior node and `roadMap[0]` is the node that refused
      it. */
  function ShortestPathRerouteOf(t: Tables, finder: PathFinder, car: Car): (r: Result<Rerouted>)
    ensures |car.roadMap| == 1 ==> r == Success(Rerouted(car.roadMap, Stay, UnitDelay))
    ensures r.Success? ==> r.value.delay == UnitDelay
  {
    var roadMap := car.roadMap;
    if |roadMap| == 1 then Success(Rerouted(roadMap, Stay, UnitDelay))
    else if |roadMap| == 0 then Failure(IndexOutOfRange)
    else if car.prior !in t.neighbors then Failure(MissingEntry)
    else
      var candidates := t.neighbors[car.prior];
      var dest := roadMap[|roadMap| - 1];
      var j := FirstWhere(candidates, ShortestPathHalts(t, finder, roadMap[0], dest));
      if j == |candidates| then Success(Rerouted(roadMap, Stay, UnitDelay))
      else
        var v := ShortestPathVerdict(t, finder, roadMap[0], dest, candidates[j]);
        if v.ToDestination? then Success(Rerouted([dest], j, UnitDelay))
        else if v.Via? then Success(Rerouted(v.roadMap, j, UnitDelay))
        else Failure(v.fault)
  }

  /** Every direction the kernel reroute picks is explained: all earlier
      neighbours were passed over, and the chosen one is either the
      destination (the road map shrinks to it) or an eligible neighbour from
      which the path search found the new road map. */
  lemma ShortestPathChoice(t: Tables, finder: PathFinder, car: Car)
    requires |car.roadMap| >= 2
    requires var r := ShortestPathRerouteOf(t, finder, car); r.Success? && r.value.route != Stay
    ensures var r := ShortestPathRerouteOf(t, finder, car).value;
      var roadMap := car.roadMap;
      var dest := roadMap[|roadMap| - 1];
      && car.prior in t.neighbors
      && var candidates := t.neighbors[car.prior];
      && 0 <= r.route < |candidates|
      && (forall k :: 0 <= k < r.route ==> ShortestPathVerdict(t, finder, roadMap[0], dest, candidates[k]).Skip?)
      && dest !in candidates[..r.route]
      && ((candidates[r.route] == dest && r.roadMap == [dest])
          || (candidates[r.route] != dest
              && Eligible(t, roadMap[0], candidates[r.route])
              && finder(t.neighbors, t.endpoints, candidates[r.route], dest, t.stormy, t.inTransit) == Some(r.roadMap)))
  {
    var roadMap := car.roadMap;
    var dest := roadMap[|roadMap| - 1];
    var candidates := t.neighbors[car.prior];
    var j := FirstWhere(candidates, ShortestPathHalts(t, finder, roadMap[0], dest));
    forall k | 0 <= k < j
      ensures candidates[..j][k] != dest
    {
      assert !ShortestPathVerdict(t, finder, roadMap[0], dest, candidates[k]).ToDestination?;
    }
  }

  /** The greedy shortcut: when the destination is a neighbour of the prior
      node and every neighbour listed before it is passed over, the kernel
      reroute takes the destination's direction and shrinks the road map to
      the destination alone. */
  lemma ShortestPathShortcut(t: Tables, finder: PathFinder, car: Car)
    requires |car.roadMap| >= 2 && car.prior in t.neighbors
    requires var dest := car.roadMap[|car.roadMap| - 1];
      var candidates := t.neighbors[car.prior];
      dest in candidates
      && forall k :: 0 <= k < IndexOf(candidates, dest) ==>
           ShortestPathVerdict(t, finder, car.roadMap[0], dest, candidates[k]).Skip?
    ensures var dest := car.roadMap[|car.roadMap| - 1];
      ShortestPathRerouteOf(t, finder, car)
        == Success(Rerouted([dest], IndexOf(t.neighbors[car.prior], dest), UnitDelay))
  {
    var roadMap := car.roadMap;
    var dest := roadMap[|roadMap| - 1];
    var candidates := t.neighbors[car.prior];
    FirstWhereUnique(candidates, ShortestPathHalts(t, finder, roadMap[0], dest), IndexOf(candidates, dest));
  }

  /** When the kernel reroute picks nothing the road map is kept, and no
      neighbour of the prior node was the destination or an eligible
      neighbour with a path. */
  lemma ShortestPathNoChoice(t: Tables, finder: PathFinder, car: Car)
    requires |car.roadMap| >= 2
    requires var r := ShortestPathRerouteOf(t, finder, car); r.Success? && r.value.route == Stay
    ensures var r := ShortestPathRerouteOf(t, finder, car).value;
      var roadMap := car.roadMap;
      var dest := roadMap[|roadMap| - 1];
      && r.roadMap == roadMap
      && car.prior in t.neighbors
      && var candidates := t.neighbors[car.prior];
      && dest !in candidates
      && forall k :: 0 <= k < |candidates| ==>
           !(Eligible(t, roadMap[0], candidates[k])
             && finder(t.neighbors, t.endpoints, candidates[k], dest, t.stormy, t.inTransit).Some?)
  {
    var roadMap := car.roadMap;
    var dest := roadMap[|roadMap| - 1];
    var candidates := t.neighbors[car.prior];
    forall k | 0 <= k < |candidates|
      ensures candidates[k] != dest
    {
      assert !ShortestPathVerdict(t, finder, roadMap[0], dest, candidates[k]).ToDestination?;
    }
  }

  /** The kernel director never fills its blockage map. With that map empty
      every eligible-looking neighbour stops the scan on a failed blockage
      lookup, so the path search is never reached: the reroute fails, stays,
      or takes the destination. */
  lemma ShortestPathNeverSearchesWithoutBlockage(t: Tables, finder: PathFinder, car: Car)
    requires t.stormy == map[]
    ensures var r := ShortestPathRerouteOf(t, finder, car);
      r.Failure? || r.value.route == Stay || r.value.roadMap == [car.roadMap[|car.roadMap| - 1]]
  {
    var roadMap := car.roadMap;
    if |roadMap| >= 2 && car.prior in t.neighbors {
      var dest := roadMap[|roadMap| - 1];
      var candidates := t.neighbors[car.prior];
      var j := FirstWhere(candidates, ShortestPathHalts(t, finder, roadMap[0], dest));
      if j < |candidates| {
        assert Screen(t, roadMap[0], candidates[j]) != Admitted;
      }
    }
  }

  // ------------------------------------------- Sofia: local neighbour fallback

  /** The local reroute's verdict on neighbour `n` of the prior node: the
      destination is taken at once; an admitted neighbour is taken when its
      own neighbour list contains the car's next hop, and then replaces the
      refusing node at the head of the road map. */
  function LocalVerdict(t: Tables, current: int, next: int, tail: seq<int>, dest: int, n: int): (v: Verdict)
    ensures v.Skip? <==>
      n != dest && (Screen(t, current, n) == Rejected
                    || (Eligible(t, current, n) && n in t.neighbors && next !in t.neighbors[n]))
    ensures v.Via? <==> n != dest && Eligible(t, current, n) && n in t.neighbors && next in t.neighbors[n]
    ensures v.Via? ==> v.roadMap == [n] + tail
  {
    if n == dest then ToDestination
    else match Screen(t, current, n)
      case Rejected => Skip
      case Broken(f) => Abort(f)
      case Admitted =>
        if n !in t.neighbors then Abort(MissingEntry)
        else if next in t.neighbors[n] then Via([n] + tail)
        else Skip
  }

  /** Where the local reroute's scan stops: at the first neighbour it does
      not pass over. */
  function LocalHalts(t: Tables, current: int, next: int, tail: seq<int>, dest: int): int -> bool
  {
    n => !LocalVerdict(t, current, next, tail, dest, n).Skip?
  }

  /** The local reroute of a car whose forward was refused: scan the prior
      node's neighbours for the destination or for a free neighbour that also
      reaches the next hop; failing that, when the next hop is the prior node
      itself (a U-turn), head straight for the hop after it. The U-turn scan
      has no break and drops two road-map entries on every match. */
  function LocalRerouteOf(t: Tables, car: Car): (r: Result<Rerouted>)
    ensures |car.roadMap| == 1 ==> r == Success(Rerouted(car.roadMap, Stay, UnitDelay))
    ensures r.Success? ==> r.value.delay == UnitDelay
  {
    var roadMap := car.roadMap;
    if |roadMap| == 1 then Success(Rerouted(roadMap, Stay, UnitDelay))
    else if |roadMap| == 0 then Failure(IndexOutOfRange)
    else if car.prior !in t.neighbors then Failure(MissingEntry)
    else
      var candidates := t.neighbors[car.prior];
      var dest := roadMap[|roadMap| - 1];
      var j := FirstWhere(candidates, LocalHalts(t, roadMap[0], roadMap[1], roadMap[1..], dest));
      if j < |candidates| then
        var v := LocalVerdict(t, roadMap[0], roadMap[1], roadMap[1..], dest, candidates[j]);
        if v.ToDestination? then Success(Rerouted([dest], j, UnitDelay))
        else if v.Via? then Success(Rerouted(v.roadMap, j, UnitDelay))
        else Failure(v.fault)
      else if car.prior != roadMap[1] then Success(Rerouted(roadMap, Stay, UnitDelay))
      else if |roadMap| == 2 then Failure(IndexOutOfRange)
      else
        var target := roadMap[2];
        Success(Rerouted(DropFront(roadMap, 2 * Count(candidates, target)),
                         LastIndexOf(candidates, target), UnitDelay))
  }

  /** The local reroute's scan passes over the first `k` neighbours of the
      prior node. */
  predicate PassedOver(t: Tables, car: Car, k: nat)
    requires |car.roadMap| >= 2 && car.prior in t.neighbors
  {
    var roadMap := car.roadMap;
    var candidates := t.neighbors[car.prior];
    forall i :: 0 <= i < k && i < |candidates| ==>
      LocalVerdict(t, roadMap[0], roadMap[1], roadMap[1..], roadMap[|roadMap| - 1], candidates[i]).Skip?
  }

  /** No neighbour of the prior node qualifies: the scan passes over all of
      them. */
  predicate NoneQualifies(t: Tables, car: Car)
    requires |car.roadMap| >= 2 && car.prior in t.neighbors
  {
    PassedOver(t, car, |t.neighbors[car.prior]|)
  }

  /** When no neighbour qualifies, none is the destination and none is a
      usable neighbour that reaches the next hop. */
  lemma NoneQualifiesMeans(t: Tables, car: Car)
    requires |car.roadMap| >= 2 && car.prior in t.neighbors
    requires NoneQualifies(t, car)
    ensures var roadMap := car.roadMap;
      var candidates := t.neighbors[car.prior];
      && roadMap[|roadMap| - 1] !in candidates
      && forall k :: 0 <= k < |candidates| ==>
           !(Eligible(t, roadMap[0], candidates[k])
             && candidates[k] in t.neighbors && roadMap[1] in t.neighbors[candidates[k]])
  {
    var roadMap := car.roadMap;
    var candidates := t.neighbors[car.prior];
    forall k | 0 <= k < |candidates|
      ensures candidates[k] != roadMap[|roadMap| - 1]
    {
      assert LocalVerdict(t, roadMap[0], roadMap[1], roadMap[1..], roadMap[|roadMap| - 1], candidates[k]).Skip?;
    }
  }

  /** Every result of the local reroute, explained: the destination taken
      when every neighbour listed before it is passed over; the first
      neighbour not passed over, when it is free, unblocked, not an endpoint,
      not the refusing node and reaches the next hop, which replaces the
      head; and, only when no neighbour qualifies, the U-turn, which takes
      the last neighbour equal to the hop after next, or staying with the
      road map unchanged. */
  lemma LocalRerouteChoice(t: Tables, car: Car)
    requires |car.roadMap| >= 2
    requires LocalRerouteOf(t, car).Success?
    ensures car.prior in t.neighbors
    ensures var r := LocalRerouteOf(t, car).value;
      var roadMap := car.roadMap;
      var dest := roadMap[|roadMap| - 1];
      var candidates := t.neighbors[car.prior];
      || (// the destination itself
          && 0 <= r.route < |candidates| && PassedOver(t, car, r.route)
          && candidates[r.route] == dest
          && r.roadMap == [dest])
      || (// the first neighbour that also reaches the next hop
          && 0 <= r.route < |candidates| && PassedOver(t, car, r.route)
          && candidates[r.route] != dest
          && Eligible(t, roadMap[0], candidates[r.route])
          && candidates[r.route] in t.neighbors
          && roadMap[1] in t.neighbors[candidates[r.route]]
          && r.roadMap == [candidates[r.route]] + roadMap[1..])
      || (// the U-turn, when no neighbour qualified
          && NoneQualifies(t, car)
          && car.prior == roadMap[1] && |roadMap| >= 3
          && 0 <= r.route < |candidates| && candidates[r.route] == roadMap[2]
          && roadMap[2] !in candidates[r.route + 1..]
          && r.roadMap == DropFront(roadMap, 2 * Count(candidates, roadMap[2])))
      || (// nothing chosen, when no neighbour qualified
          && NoneQualifies(t, car)
          && r.route == Stay && r.roadMap == roadMap)
  {
    var roadMap := car.roadMap;
    var dest := roadMap[|roadMap| - 1];
    var candidates := t.neighbors[car.prior];
    var halts := LocalHalts(t, roadMap[0], roadMap[1], roadMap[1..], dest);
    var j := FirstWhere(candidates, halts);
    assert PassedOver(t, car, j) by {
      forall k | 0 <= k < j
        ensures LocalVerdict(t, roadMap[0], roadMap[1], roadMap[1..], dest, candidates[k]).Skip?
      {
        assert !halts(candidates[k]);
      }
    }
  }

  /** The converse of the first two cases: when the scan passes over the
      neighbours before position `k`, the neighbour at `k` is chosen if it
      is the destination, or if it is usable and reaches the next hop. */
  lemma LocalRerouteFirstQualified(t: Tables, car: Car, k: nat)
    requires |car.roadMap| >= 2 && car.prior in t.neighbors
    requires k < |t.neighbors[car.prior]| && PassedOver(t, car, k)
    ensures var roadMap := car.roadMap;
      var dest := roadMap[|roadMap| - 1];
      var n := t.neighbors[car.prior][k];
      && (n == dest ==> LocalRerouteOf(t, car) == Success(Rerouted([dest], k, UnitDelay)))
      && (n != dest && Eligible(t, roadMap[0], n) && n in t.neighbors && roadMap[1] in t.neighbors[n] ==>
            LocalRerouteOf(t, car) == Success(Rerouted([n] + roadMap[1..], k, UnitDelay)))
  {
    var roadMap := car.roadMap;
    var dest := roadMap[|roadMap| - 1];
    var candidates := t.neighbors[car.prior];
    var halts := LocalHalts(t, roadMap[0], roadMap[1], roadMap[1..], dest);
    if halts(candidates[k]) {
      forall i | 0 <= i < k
        ensures !halts(candidates[i])
      {
      }
      FirstWhereUnique(candidates, halts, k);
    }
  }

  /** The converse of the last two cases: when no neighbour qualifies, the
      car makes the U-turn if its next hop is the prior node and the hop
      after next is a neighbour, and otherwise stays. */
  lemma LocalRerouteFallback(t: Tables, car: Car)
    requires |car.roadMap| >= 2 && car.prior in t.neighbors
    requires NoneQualifies(t, car)
    ensures var roadMap := car.roadMap;
      var candidates := t.neighbors[car.prior];
      && (car.prior != roadMap[1] ==> LocalRerouteOf(t, car) == Success(Rerouted(roadMap, Stay, UnitDelay)))
      && (car.prior == roadMap[1] && |roadMap| == 2 ==> LocalRerouteOf(t, car) == Failure(IndexOutOfRange))
      && (car.prior == roadMap[1] && |roadMap| >= 3 ==>
            LocalRerouteOf(t, car)
              == Success(Rerouted(DropFront(roadMap, 2 * Count(candidates, roadMap[2])),
                                  LastIndexOf(candidates, roadMap[2]), UnitDelay)))
  {
    var roadMap := car.roadMap;
    var dest := roadMap[|roadMap| - 1];
    var candidates := t.neighbors[car.prior];
    var halts := LocalHalts(t, roadMap[0], roadMap[1], roadMap[1..], dest);
    forall k | 0 <= k < |candidates|
      ensures !halts(candidates[k])
    {
    }
    assert FirstWhere(candidates, halts) == |candidates|;
  }

  /** After the local reroute replaces the head with a neighbour (the one
      branch that keeps the road map's length), that neighbour can route the
      car on: the rerouted car is routable there and leaves towards the
      original next hop. */
  lemma LocalRerouteThenRouting(t: Tables, car: Car)
    requires var r := LocalRerouteOf(t, car);
      r.Success? && r.value.route != Stay && |r.value.roadMap| == |car.roadMap|
    ensures var r := LocalRerouteOf(t, car).value;
      var n := r.roadMap[0];
      var next := RoutingOf(t.neighbors, car.(roadMap := r.roadMap), n);
      && r.roadMap == [n] + car.roadMap[1..]
      && next.Success?
      && next.value.car.roadMap == car.roadMap[1..]
      && t.neighbors[n][next.value.route] == car.roadMap[1]
  {
    LocalRerouteChoice(t, car);
  }

  /** The direction and the road map a local reroute returns agree: the
      chosen neighbour is the new head of the road map, as long as the hop
      after next occurs at most once among the prior node's neighbours. */
  lemma LocalRerouteConsistent(t: Tables, car: Car)
    requires var r := LocalRerouteOf(t, car);
      r.Success? && r.value.route != Stay
    requires |car.roadMap| >= 3 && car.prior in t.neighbors ==>
      Count(t.neighbors[car.prior], car.roadMap[2]) <= 1
    ensures var r := LocalRerouteOf(t, car).value;
      r.roadMap != [] && t.neighbors[car.prior][r.route] == r.roadMap[0]
  {
    LocalRerouteChoice(t, car);
  }

  /** The U-turn scan does not stop at its first match: with the hop after
      next listed twice, it takes the later direction and drops four entries,
      here the whole road map including the destination. */
  lemma UTurnWithRepeatedNeighbour(car: Car)
    requires car.roadMap == [2, 1, 4, 5] && car.prior == 1
    ensures var t := Tables(map[4 := true], map[], map[1 := [4, 4]], []);
      LocalRerouteOf(t, car) == Success(Rerouted([], 1, UnitDelay))
  {
    var t := Tables(map[4 := true], map[], map[1 := [4, 4]], []);
    var j := FirstWhere([4, 4], LocalHalts(t, 2, 1, [1, 4, 5], 5));
    assert Count([4, 4], 4) == 2;
  }

  /** The direction and the road map a kernel reroute returns agree when the
      path search answers paths that start at the node searched from. */
  lemma ShortestPathConsistent(t: Tables, finder: PathFinder, car: Car)
    requires forall nbrs, ends, from, to, stormy, busy, p ::
      finder(nbrs, ends, from, to, stormy, busy) == Some(p) ==> p != [] && p[0] == from
    requires var r := ShortestPathRerouteOf(t, finder, car);
      r.Success? && r.value.route != Stay
    ensures var r := ShortestPathRerouteOf(t, finder, car).value;
      r.roadMap != [] && t.neighbors[car.prior][r.route] == r.roadMap[0]
  {
    ShortestPathChoice(t, finder, car);
  }
}
