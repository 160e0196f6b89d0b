/** The car director: the registry of sources, destinations and
    intersections that every actor reports to, the availability query, hop by
    hop routing, and the reroute of a car whose forward was refused. The two
    directors of the system share everything except registration of an
    intersection's blockage flag and the reroute policy; `variant` tells them
    apart. */
module Director {
  import opened Common
  import opened Cars
  import opened Routing

  /** The kernel director, with the shortest-path reroute and no blockage
      bookkeeping, and the director of the local model, with the
      neighbour-of-neighbour reroute. */
  datatype Variant = Kernel | Sofia

  /** A car's display colour: red, green, blue and opacity. */
  datatype Color = Color(red: real, green: real, blue: real, alpha: real)

  /** No id occurs twice. */
  predicate NoDuplicates(s: seq<int>)
  {
    forall i, j :: 0 <= i < j < |s| ==> s[i] != s[j]
  }

  class CarDirector {
    const variant: Variant
    /** Occupancy of every registered intersection. */
    var inTransit: map<int, bool>
    /** Blockage of every registered intersection (the kernel never fills it). */
    var stormy: map<int, bool>
    /** Outgoing neighbour list of every registered intersection; the index
        in the list is the direction a car leaves by. */
    var neighbors: map<int, seq<int>>
    /** Source and destination ids, in registration order. */
    var endpoints: seq<int>
    /** Colours handed out so far, per car id. */
    var carsColor: map<int, Color>

    /** The registry invariant kept by every registration: one id per
        intersection in the occupancy and neighbour tables, no id -1, no
        endpoint twice; the local director also keeps a blockage entry per
        intersection and keeps endpoint ids apart from intersection ids. */
    ghost predicate Valid()
      reads this
    {
      && inTransit.Keys == neighbors.Keys
      && Unset !in inTransit
      && Unset !in endpoints
      && NoDuplicates(endpoints)
      && (variant == Kernel ==> stormy == map[])
      && (variant == Sofia ==>
            && stormy.Keys == inTransit.Keys
            && forall e :: e in endpoints ==> e !in inTransit)
    }

    /** The tables the routing functions read. */
    function View(): Tables
      reads this
    {
      Tables(inTransit, stormy, neighbors, endpoints)
    }

    constructor(variant: Variant)
      ensures this.variant == variant
      ensures inTransit == map[] && stormy == map[] && neighbors == map[]
      ensures endpoints == [] && carsColor == map[]
      ensures Valid()
    {
      this.variant := variant;
      inTransit := map[];
      stormy := map[];
      neighbors := map[];
      endpoints := [];
      carsColor := map[];
    }

    /** Start of a run: every table is emptied. */
    method Initialize()
      modifies this
      ensures inTransit == map[] && stormy == map[] && neighbors == map[]
      ensures endpoints == [] && carsColor == map[]
      ensures Valid()
    {
      inTransit := map[];
      stormy := map[];
      neighbors := map[];
      endpoints := [];
      carsColor := map[];
    }

    /** The colour of car `id`: the one stored for it, or else a new opaque
        colour from the three random components, which is stored. */
    method HandleCarColor(id: int, red: real, green: real, blue: real) returns (c: Color)
      modifies this
      ensures id in old(carsColor) ==> c == old(carsColor)[id]
      ensures id !in old(carsColor) ==> c == Color(red, green, blue, 1.0)
      ensures carsColor == old(carsColor)[id := c]
      ensures inTransit == old(inTransit) && stormy == old(stormy)
      ensures neighbors == old(neighbors) && endpoints == old(endpoints)
    {
      if id in carsColor {
        c := carsColor[id];
      } else {
        c := Color(red, green, blue, 1.0);
        carsColor := carsColor[id := c];
      }
    }

    /** Register a source. Its id must be valid and not an intersection id
        already in the blockage table; registering it twice is harmless. */
    method HandleInitializedCarInput(id: int) returns (o: Outcome)
      requires Valid()
      modifies this
      ensures o == if id == Unset then Fail(InvalidId)
                   else if id in old(stormy) then Fail(IdCollision)
                   else Pass
      ensures endpoints == if o.Pass? && id !in old(endpoints) then old(endpoints) + [id]
                           else old(endpoints)
      ensures inTransit == old(inTransit) && stormy == old(stormy)
      ensures neighbors == old(neighbors) && carsColor == old(carsColor)
      ensures Valid()
    {
      if id == Unset {
        return Fail(InvalidId);
      }
      if id in stormy {
        return Fail(IdCollision);
      }
      if id !in endpoints {
        endpoints := endpoints + [id];
      }
      return Pass;
    }

    /** Register a destination. Its id must be valid, not yet an endpoint
        and not an intersection id already in the blockage table. */
    method HandleInitializedDestination(id: int) returns (o: Outcome)
      requires Valid()
      modifies this
      ensures o == if id == Unset then Fail(InvalidId)
                   else if id in old(endpoints) then Fail(DuplicateId)
                   else if id in old(stormy) then Fail(IdCollision)
                   else Pass
      ensures endpoints == if o.Pass? then old(endpoints) + [id] else old(endpoints)
      ensures inTransit == old(inTransit) && stormy == old(stormy)
      ensures neighbors == old(neighbors) && carsColor == old(carsColor)
      ensures Valid()
    {
      if id == Unset {
        return Fail(InvalidId);
      }
      if id in endpoints {
        return Fail(DuplicateId);
      }
      if id in stormy {
        return Fail(IdCollision);
      }
      endpoints := endpoints + [id];
      return Pass;
    }

    /** Register an intersection with its neighbour list and its blockage
        parameter: it starts free. The local director also records the
        blockage flag, which must be set; the kernel director does not, so it
        can neither see a repeated intersection id nor refuse a later source
        or destination with an intersection's id. */
    method HandleInitializedIntersection(id: int, nbrs: seq<int>, blocked: Option<bool>) returns (o: Outcome)
      requires Valid()
      modifies this
      ensures o == if id == Unset then Fail(InvalidId)
                   else if id in old(stormy) then Fail(DuplicateId)
                   else if id in old(endpoints) then Fail(IdCollision)
                   else if variant == Sofia && blocked.None? then Fail(StormyUnset)
                   else Pass
      ensures o.Pass? ==> inTransit == old(inTransit)[id := false]
      ensures o.Pass? ==> neighbors == old(neighbors)[id := nbrs]
      ensures o.Pass? ==> stormy == if variant == Sofia then old(stormy)[id := blocked.value] else old(stormy)
      ensures o.Fail? ==> inTransit == old(inTransit) && neighbors == old(neighbors) && stormy == old(stormy)
      ensures endpoints == old(endpoints) && carsColor == old(carsColor)
      ensures Valid()
    {
      if id == Unset {
        return Fail(InvalidId);
      }
      if id in stormy {
        return Fail(DuplicateId);
      }
      if id in endpoints {
        return Fail(IdCollision);
      }
      if variant == Sofia {
        if blocked.None? {
          return Fail(StormyUnset);
        }
        stormy := stormy[id := blocked.value];
      }
      inTransit := inTransit[id := false];
      neighbors := neighbors[id := nbrs];
      return Pass;
    }

    /** An intersection's blockage parameter changed to `value`. Once the
        blockage table has entries the id must be among them; while it is
        empty (always, for the kernel director) nothing happens. */
    method HandleIntersectionAttributeChanged(id: int, value: bool) returns (o: Outcome)
      requires Valid()
      modifies this
      ensures o == if stormy != map[] && id !in stormy then Fail(EntryNotSet) else Pass
      ensures stormy == if old(stormy) != map[] && id in old(stormy) then old(stormy)[id := value]
                        else old(stormy)
      ensures inTransit == old(inTransit) && neighbors == old(neighbors)
      ensures endpoints == old(endpoints) && carsColor == old(carsColor)
      ensures Valid()
    {
      if |stormy| != 0 {
        if id in stormy {
          stormy := stormy[id := value];
        } else {
          return Fail(EntryNotSet);
        }
      }
      return Pass;
    }

    /** Record whether intersection `id` holds a car. An id that is neither
        an intersection nor an endpoint is an error; an endpoint id is
        ignored. */
    method SetInTransitStatusOfIntersection(id: int, status: bool) returns (o: Outcome)
      requires Valid()
      modifies this
      ensures o == if id !in old(inTransit) && id !in old(endpoints) then Fail(UnknownIntersection) else Pass
      ensures inTransit == if id in old(inTransit) then old(inTransit)[id := status] else old(inTransit)
      ensures stormy == old(stormy) && neighbors == old(neighbors)
      ensures endpoints == old(endpoints) && carsColor == old(carsColor)
      ensures Valid()
    {
      if id in inTransit {
        inTransit := inTransit[id := status];
      } else if id !in endpoints {
        return Fail(UnknownIntersection);
      }
      return Pass;
    }

    /** The extra wait an intersection adds when a refused car stays: a
        positive constant, so holding a car never fails for lack of a
        delay. */
    function HandleRejectionWithDelay(): (d: real)
      ensures d > 0.0
    {
      UnitDelay
    }

    /** Whether intersection `id` is occupied or stormy. */
    method ReturnIntersectionStatus(id: int) returns (r: Result<bool>)
      ensures r == StatusOf(View(), id)
    {
      if id !in inTransit {
        return Failure(MissingEntry);
      }
      if inTransit[id] {
        return Success(true);
      }
      if id !in stormy {
        return Failure(MissingEntry);
      }
      return Success(stormy[id]);
    }

    /** Route a car that has entered intersection `id`: find the direction
        of its next hop and copy its road map without the head. */
    method Routing(car: Car, id: int) returns (r: Result<Routed>)
      ensures r == RoutingOf(neighbors, car, id)
    {
      var roadMap := car.roadMap;
      if |roadMap| == 0 {
        return Failure(IndexOutOfRange);
      }
      if roadMap[0] != id {
        return Failure(RoutingMismatch);
      }
      if |roadMap| == 1 {
        return Failure(IndexOutOfRange);
      }
      var next := roadMap[1];
      if id !in neighbors {
        return Failure(NeighborsNotSet);
      }
      var directions := neighbors[id];
      var route := 0;
      while route < |directions| && directions[route] != next
        invariant 0 <= route <= |directions|
        invariant next !in directions[..route]
      {
        assert directions[..route + 1] == directions[..route] + [directions[route]];
        route := route + 1;
      }
      if route == |directions| {
        assert directions[..route] == directions;
        return Failure(NoSuchNeighbor);
      }
      IndexOfUnique(directions, next, route);
      var rest: seq<int> := [];
      var i := 1;
      while i < |roadMap|
        invariant 1 <= i <= |roadMap|
        invariant rest == roadMap[1..i]
      {
        rest := rest + [roadMap[i]];
        i := i + 1;
      }
      assert rest == roadMap[1..];
      return Success(Routed(car.(roadMap := rest, prior := id), UnitDelay, route));
    }

    /** Reroute a refused car by this director's policy. */
    method RerouteUnacceptedCar(car: Car, finder: PathFinder) returns (r: Result<Rerouted>)
      ensures variant == Kernel ==> r == ShortestPathRerouteOf(View(), finder, car)
      ensures variant == Sofia ==> r == LocalRerouteOf(View(), car)
    {
      if variant == Kernel {
        r := RerouteByShortestPath(car, finder);
      } else {
        r := RerouteLocally(car);
      }
    }

    /** The kernel director's judgement of neighbour `n`, with the lookups
        the source performs. */
    method JudgeByShortestPath(finder: PathFinder, current: int, dest: int, n: int) returns (v: Verdict)
      ensures v == ShortestPathVerdict(View(), finder, current, dest, n)
    {
      if n == dest {
        return ToDestination;
      }
      if n == Unset || n in endpoints || n == current {
        return Skip;
      }
      if n !in inTransit {
        return Abort(MissingEntry);
      }
      if inTransit[n] {
        return Skip;
      }
      if n !in stormy {
        return Abort(MissingEntry);
      }
      if stormy[n] {
        return Skip;
      }
      var path := finder(neighbors, endpoints, n, dest, stormy, inTransit);
      if path.None? {
        return Skip;
      }
      return Via(path.value);
    }

    /** The kernel director's reroute: scan the prior node's neighbours for
        the destination or for an eligible neighbour from which the path
        search finds a way to the destination. */
    method RerouteByShortestPath(car: Car, finder: PathFinder) returns (r: Result<Rerouted>)
      ensures r == ShortestPathRerouteOf(View(), finder, car)
    {
      var roadMap := car.roadMap;
      if |roadMap| == 1 {
        return Success(Rerouted(roadMap, Stay, UnitDelay));
      }
      if |roadMap| == 0 {
        return Failure(IndexOutOfRange);
      }
      if car.prior !in neighbors {
        return Failure(MissingEntry);
      }
      var candidates := neighbors[car.prior];
      var current := roadMap[0];
      var dest := roadMap[|roadMap| - 1];
      ghost var halts := ShortestPathHalts(View(), finder, current, dest);
      var i := 0;
      var v := Skip;
      while i < |candidates|
        invariant 0 <= i <= |candidates|
        invariant forall k :: 0 <= k < i ==> !halts(candidates[k])
        invariant v.Skip?
      {
        v := JudgeByShortestPath(finder, current, dest, candidates[i]);
        if !v.Skip? {
          break;
        }
        i := i + 1;
      }
      FirstWhereUnique(candidates, halts, i);
      match v
      case Skip =>
        return Success(Rerouted(roadMap, Stay, UnitDelay));
      case ToDestination =>
        assert roadMap[|roadMap| - 1..] == [dest];
        return Success(Rerouted(roadMap[|roadMap| - 1..], i, UnitDelay));
      case Via(path) =>
        return Success(Rerouted(path, i, UnitDelay));
      case Abort(f) =>
        return Failure(f);
    }

    /** The local director's judgement of neighbour `n`: the inner scan of
        the neighbour's own neighbours looks for the car's next hop. */
    method JudgeLocally(current: int, next: int, tail: seq<int>, dest: int, n: int) returns (v: Verdict)
      ensures v == LocalVerdict(View(), current, next, tail, dest, n)
    {
      if n == dest {
        return ToDestination;
      }
      if n == Unset || n in endpoints || n == current {
        return Skip;
      }
      if n !in inTransit {
        return Abort(MissingEntry);
      }
      if inTransit[n] {
        return Skip;
      }
      if n !in stormy {
        return Abort(MissingEntry);
      }
      if stormy[n] {
        return Skip;
      }
      if n !in neighbors {
        return Abort(MissingEntry);
      }
      var onward := neighbors[n];
      var j := 0;
      while j < |onward| && onward[j] != next
        invariant 0 <= j <= |onward|
        invariant next !in onward[..j]
      {
        assert onward[..j + 1] == onward[..j] + [onward[j]];
        j := j + 1;
      }
      if j == |onward| {
        assert onward[..j] == onward;
        return Skip;
      }
      return Via([n] + tail);
    }

    /** The U-turn scan over the prior node's neighbours: every neighbour
        equal to the hop after next moves the direction to it and drops two
        more entries from the road map. */
    method UTurn(candidates: seq<int>, roadMap: seq<int>) returns (remaining: seq<int>, route: int)
      requires |roadMap| >= 3
      ensures route == LastIndexOf(candidates, roadMap[2])
      ensures remaining == DropFront(roadMap, 2 * Count(candidates, roadMap[2]))
    {
      var target := roadMap[2];
      route := Stay;
      remaining := roadMap;
      var k := 0;
      while k < |candidates|
        invariant 0 <= k <= |candidates|
        invariant route == LastIndexOf(candidates[..k], target)
        invariant remaining == DropFront(roadMap, 2 * Count(candidates[..k], target))
      {
        ScansOfPrefix(candidates, k, target);
        if candidates[k] == target {
          route := k;
          DropFrontTwice(roadMap, 2 * Count(candidates[..k], target));
          remaining := DropFront(remaining, 2);
        }
        k := k + 1;
      }
      assert candidates[..k] == candidates;
    }

    /** The local director's reroute: scan the prior node's neighbours for
        the destination or for an eligible neighbour whose own neighbours
        include the car's next hop; failing that, take the U-turn when the
        next hop is the prior node itself. */
    method RerouteLocally(car: Car) returns (r: Result<Rerouted>)
      ensures r == LocalRerouteOf(View(), car)
    {
      var roadMap := car.roadMap;
      if |roadMap| == 1 {
        return Success(Rerouted(roadMap, Stay, UnitDelay));
      }
      if |roadMap| == 0 {
        return Failure(IndexOutOfRange);
      }
      if car.prior !in neighbors {
        return Failure(MissingEntry);
      }
      var candidates := neighbors[car.prior];
      var current := roadMap[0];
      var next := roadMap[1];
      var dest := roadMap[|roadMap| - 1];
      ghost var halts := LocalHalts(View(), current, next, roadMap[1..], dest);
      var i := 0;
      var v := Skip;
      while i < |candidates|
        invariant 0 <= i <= |candidates|
        invariant forall k :: 0 <= k < i ==> !halts(candidates[k])
        invariant v.Skip?
      {
        v := JudgeLocally(current, next, roadMap[1..], dest, candidates[i]);
        if !v.Skip? {
          break;
        }
        i := i + 1;
      }
      FirstWhereUnique(candidates, halts, i);
      match v
      case ToDestination =>
        assert roadMap[|roadMap| - 1..] == [dest];
        return Success(Rerouted(roadMap[|roadMap| - 1..], i, UnitDelay));
      case Via(m) =>
        assert roadMap[0 := candidates[i]] == m;
        return Success(Rerouted(roadMap[0 := candidates[i]], i, UnitDelay));
      case Abort(f) =>
        return Failure(f);
      case Skip =>
        if car.prior != next {
          return Success(Rerouted(roadMap, Stay, UnitDelay));
        }
        if |roadMap| < 3 {
          return Failure(IndexOutOfRange);
        }
        var remaining, route := UTurn(candidates, roadMap);
        return Success(Rerouted(remaining, route, UnitDelay));
    }
  }
}
