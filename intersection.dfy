/** An intersection: a capacity-one node that admits a car, holds it for
    the dwell the director's routing asks for, then forwards it by the
    direction routing chose. A refused forward is handed to the director's
    reroute, which either keeps the car waiting or gives it a new direction
    and road map. The intersection works with the local director. */
module IntersectionNode {
  import opened Common
  import opened Cars
  import opened Routing
  import opened Director

  /** A car offered on an output port. */
  datatype Emission = Emission(port: Port, car: Car)

  class Intersection {
    const director: CarDirector
    const intersectionId: int
    /** The neighbour list parameter handed to the director. */
    const neighbors: seq<int>
    /** The blockage parameter, which may be unset. */
    var stormy: Option<bool>
    /** The blockage value last taken from the parameter. */
    var isStormy: Option<bool>
    /** The car being held, if any. */
    var held: Option<Car>
    /** When the held car is due to leave. */
    var transitExpires: real
    /** The direction the held car leaves by. */
    var outRoute: int
    /** The delay accumulated by the held car here. */
    var delayOfCar: real
    /** The number of cars admitted since initialisation. */
    var counter: int
    /** The one-shot admission latch of `Reject`. */
    var called: bool

    /** The intersection is registered with the local director, which
        records it as occupied exactly when a car is held here and knows the
        same blockage value and neighbour list; a held car was routed here. */
    ghost predicate Valid()
      reads this, director
    {
      && director.variant == Sofia
      && director.Valid()
      && intersectionId in director.inTransit
      && (director.inTransit[intersectionId] <==> held.Some?)
      && isStormy.Some?
      && director.stormy[intersectionId] == isStormy.value
      && director.neighbors[intersectionId] == neighbors
      && (held.Some? ==> held.value.prior == intersectionId)
    }

    constructor(director: CarDirector, intersectionId: int, neighbors: seq<int>, stormy: Option<bool>)
      requires director.variant == Sofia
      ensures this.director == director && this.intersectionId == intersectionId
      ensures this.neighbors == neighbors && this.stormy == stormy
      ensures isStormy == None && held == None && outRoute == Unset
      ensures counter == 0 && delayOfCar == 0.0 && !called
    {
      this.director := director;
      this.intersectionId := intersectionId;
      this.neighbors := neighbors;
      this.stormy := stormy;
      isStormy := None;
      held := None;
      transitExpires := 0.0;
      outRoute := Unset;
      delayOfCar := 0.0;
      counter := 0;
      called := false;
    }

    /** Whether a car offered now is refused: always while a car is held or
        the intersection is stormy; otherwise the first query since the last
        departure accepts and closes the latch, and later queries refuse. */
    method Reject() returns (r: bool)
      requires Valid()
      modifies this
      ensures r == (old(held).Some? || old(isStormy).value || old(called))
      ensures called == (old(called) || !r)
      ensures held == old(held) && isStormy == old(isStormy) && stormy == old(stormy)
      ensures transitExpires == old(transitExpires) && outRoute == old(outRoute)
      ensures delayOfCar == old(delayOfCar) && counter == old(counter)
      ensures Valid()
    {
      var unavailable := held.Some? || isStormy.value;
      if unavailable {
        return true;
      }
      if !called {
        called := true;
        return held.Some? || isStormy.value;
      }
      return true;
    }

    /** The blockage parameter was set to `value`. A set value is taken over
        and reported to the director; an unset one is only stored. */
    method StormyChanged(value: Option<bool>) returns (o: Outcome)
      requires director.Valid()
      modifies this, director
      ensures stormy == value
      ensures value.None? ==> o == Pass && isStormy == old(isStormy) && director.stormy == old(director.stormy)
      ensures value.Some? ==>
        && isStormy == value
        && o == (if old(director.stormy) != map[] && intersectionId !in old(director.stormy)
                 then Fail(EntryNotSet) else Pass)
        && director.stormy == (if old(director.stormy) != map[] && intersectionId in old(director.stormy)
                               then old(director.stormy)[intersectionId := value.value]
                               else old(director.stormy))
      ensures director.inTransit == old(director.inTransit) && director.neighbors == old(director.neighbors)
      ensures director.endpoints == old(director.endpoints) && director.carsColor == old(director.carsColor)
      ensures held == old(held) && transitExpires == old(transitExpires) && outRoute == old(outRoute)
      ensures delayOfCar == old(delayOfCar) && counter == old(counter) && called == old(called)
      ensures old(Valid()) ==> o == Pass && Valid()
    {
      stormy := value;
      o := Pass;
      if value.Some? {
        isStormy := value;
        o := director.HandleIntersectionAttributeChanged(intersectionId, value.value);
      }
    }

    /** Start of a run: nothing held, no direction, the blockage value taken
        from the parameter, registration with the director, and the latch,
        counter and delay reset once registration succeeds. */
    method Initialize() returns (o: Outcome)
      requires director.Valid() && director.variant == Sofia
      modifies this, director
      ensures o == if intersectionId == Unset then Fail(InvalidId)
                   else if intersectionId in old(director.stormy) then Fail(DuplicateId)
                   else if intersectionId in old(director.endpoints) then Fail(IdCollision)
                   else if stormy.None? then Fail(StormyUnset)
                   else Pass
      ensures held == None && outRoute == Unset && isStormy == stormy && stormy == old(stormy)
      ensures transitExpires == old(transitExpires)
      ensures o.Pass? ==> !called && counter == 0 && delayOfCar == 0.0
      ensures o.Fail? ==> called == old(called) && counter == old(counter) && delayOfCar == old(delayOfCar)
      ensures o.Pass? ==>
        && director.inTransit == old(director.inTransit)[intersectionId := false]
        && director.stormy == old(director.stormy)[intersectionId := stormy.value]
        && director.neighbors == old(director.neighbors)[intersectionId := neighbors]
      ensures o.Fail? ==>
        && director.inTransit == old(director.inTransit) && director.stormy == old(director.stormy)
        && director.neighbors == old(director.neighbors)
      ensures director.endpoints == old(director.endpoints) && director.carsColor == old(director.carsColor)
      ensures o.Pass? ==> Valid()
    {
      held := None;
      outRoute := Unset;
      isStormy := stormy;
      o := director.HandleInitializedIntersection(intersectionId, neighbors, stormy);
      if o.Fail? {
        return;
      }
      called := false;
      counter := 0;
      delayOfCar := 0.0;
    }

    /** One firing at time `now`. When the held car is due it is offered on
        the port of its direction; `accepted` is the receiver's answer. A
        refused car is rerouted or kept waiting and nothing is read from the
        inputs; otherwise the car leaves and then each car in `arrivals`, in
        channel order, is admitted and routed, which fails for a second car.
        `wake` is the time this intersection asks to fire again. */
    method Fire(now: real, accepted: bool, arrivals: seq<Car>) returns (o: Outcome, offered: Option<Emission>, wake: Option<real>)
      requires Valid()
      modifies this, director
      ensures offered == if now == old(transitExpires) && old(held).Some?
                         then Some(Emission(PortOf(old(outRoute)), old(held).value)) else None
      ensures isStormy == old(isStormy) && stormy == old(stormy)
      ensures director.stormy == old(director.stormy) && director.neighbors == old(director.neighbors)
      ensures director.endpoints == old(director.endpoints) && director.carsColor == old(director.carsColor)
      // refused: stay with the rejection delay, or take the rerouted direction
      ensures offered.Some? && !accepted ==>
        var car := old(held).value;
        var rerouted := LocalRerouteOf(old(director.View()), car);
        && director.inTransit == old(director.inTransit)
        && counter == old(counter) && called == old(called)
        && (rerouted.Failure? ==>
              && o == Fail(rerouted.error) && wake == None
              && held == old(held) && transitExpires == old(transitExpires)
              && delayOfCar == old(delayOfCar) && outRoute == old(outRoute))
        && (rerouted.Success? && rerouted.value.route == Stay ==>
              && o == Pass
              && held == old(held) && outRoute == old(outRoute)
              && transitExpires == old(transitExpires) + director.HandleRejectionWithDelay()
              && delayOfCar == old(delayOfCar) + director.HandleRejectionWithDelay()
              && wake == Some(transitExpires))
        && (rerouted.Success? && rerouted.value.route != Stay ==>
              && o == Pass
              && held == Some(car.(roadMap := rerouted.value.roadMap))
              && outRoute == rerouted.value.route
              && transitExpires == old(transitExpires) + rerouted.value.delay
              && delayOfCar == old(delayOfCar) + rerouted.value.delay
              && wake == Some(transitExpires))
      // the car left (or nothing was due): then the inputs are read
      ensures !(offered.Some? && !accepted) ==>
        var left := offered.Some?;
        var heldThen := if left then None else old(held);
        var calledThen := if left then false else old(called);
        var inTransitThen := if left then old(director.inTransit)[intersectionId := false]
                             else old(director.inTransit);
        && (arrivals == [] ==>
              && o == Pass && wake == None
              && held == heldThen && called == calledThen
              && director.inTransit == inTransitThen
              && counter == old(counter) && transitExpires == old(transitExpires)
              && outRoute == old(outRoute) && delayOfCar == old(delayOfCar))
        && (arrivals != [] && heldThen.Some? ==>
              && o == Fail(TwoCars) && wake == None
              && held == old(held) && called == old(called)
              && director.inTransit == old(director.inTransit)
              && counter == old(counter) && transitExpires == old(transitExpires)
              && outRoute == old(outRoute) && delayOfCar == old(delayOfCar))
        && (arrivals != [] && heldThen.None? ==>
              var routed := RoutingOf(old(director.neighbors), arrivals[0], intersectionId);
              && counter == old(counter) + 1
              && called == calledThen
              && director.inTransit == old(director.inTransit)[intersectionId := true]
              && (routed.Failure? ==>
                    && o == Fail(routed.error) && wake == None
                    && held == None && transitExpires == old(transitExpires)
                    && outRoute == old(outRoute) && delayOfCar == 0.0)
              && (routed.Success? ==>
                    && o == (if |arrivals| == 1 then Pass else Fail(TwoCars))
                    && held == Some(routed.value.car)
                    && transitExpires == now + routed.value.delay
                    && outRoute == routed.value.route
                    && delayOfCar == routed.value.delay
                    && wake == Some(transitExpires)))
      ensures o.Pass? ==> Valid()
    {
      o := Pass;
      offered := None;
      wake := None;
      if now == transitExpires && held.Some? {
        offered := Some(Emission(PortOf(outRoute), held.value));
        if !accepted {
          o, wake := Refused();
          return;
        }
        Leave();
      }
      label Released:
      var i := 0;
      while i < |arrivals|
        invariant 0 <= i <= |arrivals| && i <= 1
        invariant o == Pass && Valid()
        invariant isStormy == old(isStormy) && stormy == old(stormy)
        invariant director.stormy == old(director.stormy) && director.neighbors == old(director.neighbors)
        invariant director.endpoints == old(director.endpoints) && director.carsColor == old(director.carsColor)
        invariant called == old@Released(called)
        invariant i == 0 ==>
          && held == old@Released(held) && wake == None
          && director.inTransit == old@Released(director.inTransit)
          && counter == old(counter) && transitExpires == old(transitExpires)
          && outRoute == old(outRoute) && delayOfCar == old(delayOfCar)
        invariant i == 1 ==>
          var routed := RoutingOf(old(director.neighbors), arrivals[0], intersectionId);
          && old@Released(held).None?
          && counter == old(counter) + 1
          && director.inTransit == old(director.inTransit)[intersectionId := true]
          && routed.Success?
          && held == Some(routed.value.car)
          && transitExpires == now + routed.value.delay
          && outRoute == routed.value.route
          && delayOfCar == routed.value.delay
          && wake == Some(transitExpires)
      {
        if held.Some? {
          o := Fail(TwoCars);
          return;
        }
        o, wake := Admit(now, arrivals[i]);
        if o.Fail? {
          return;
        }
        i := i + 1;
      }
    }

    /** The held car's forward was refused: ask the director for a reroute;
        with no new direction the car waits the rejection delay, otherwise
        it takes the new road map and direction after the reroute delay. */
    method Refused() returns (o: Outcome, wake: Option<real>)
      requires Valid() && held.Some?
      modifies this
      ensures var car := old(held).value;
        var rerouted := LocalRerouteOf(director.View(), car);
        && counter == old(counter) && called == old(called)
        && isStormy == old(isStormy) && stormy == old(stormy)
        && (rerouted.Failure? ==>
              && o == Fail(rerouted.error) && wake == None
              && held == old(held) && transitExpires == old(transitExpires)
              && delayOfCar == old(delayOfCar) && outRoute == old(outRoute))
        && (rerouted.Success? && rerouted.value.route == Stay ==>
              && o == Pass
              && held == old(held) && outRoute == old(outRoute)
              && transitExpires == old(transitExpires) + director.HandleRejectionWithDelay()
              && delayOfCar == old(delayOfCar) + director.HandleRejectionWithDelay()
              && wake == Some(transitExpires))
        && (rerouted.Success? && rerouted.value.route != Stay ==>
              && o == Pass
              && held == Some(car.(roadMap := rerouted.value.roadMap))
              && outRoute == rerouted.value.route
              && transitExpires == old(transitExpires) + rerouted.value.delay
              && delayOfCar == old(delayOfCar) + rerouted.value.delay
              && wake == Some(transitExpires))
      ensures o.Pass? ==> Valid()
    {
      var car := held.value;
      var rerouted := director.RerouteLocally(car);
      if rerouted.Failure? {
        return Fail(rerouted.error), None;
      }
      if rerouted.value.route == Stay {
        var extra := director.HandleRejectionWithDelay();
        delayOfCar := delayOfCar + extra;
        transitExpires := transitExpires + extra;
      } else {
        held := Some(car.(roadMap := rerouted.value.roadMap));
        transitExpires := transitExpires + rerouted.value.delay;
        delayOfCar := delayOfCar + rerouted.value.delay;
        outRoute := rerouted.value.route;
      }
      return Pass, Some(transitExpires);
    }

    /** The held car was accepted downstream: the intersection is free and
        its latch open again. */
    method Leave()
      requires Valid() && held.Some?
      modifies this, director
      ensures held == None && !called
      ensures director.inTransit == old(director.inTransit)[intersectionId := false]
      ensures director.stormy == old(director.stormy) && director.neighbors == old(director.neighbors)
      ensures director.endpoints == old(director.endpoints) && director.carsColor == old(director.carsColor)
      ensures isStormy == old(isStormy) && stormy == old(stormy) && transitExpires == old(transitExpires)
      ensures outRoute == old(outRoute) && delayOfCar == old(delayOfCar) && counter == old(counter)
      ensures Valid()
    {
      held := None;
      called := false;
      // cannot fail: the intersection is registered
      var _ := director.SetInTransitStatusOfIntersection(intersectionId, false);
    }

    /** Admit `car` into the free intersection: count it, mark the
        intersection occupied, route the car and hold it until the routing
        delay has passed. */
    method Admit(now: real, car: Car) returns (o: Outcome, wake: Option<real>)
      requires Valid() && held.None?
      modifies this, director
      ensures var routed := RoutingOf(old(director.neighbors), car, intersectionId);
        && counter == old(counter) + 1
        && director.inTransit == old(director.inTransit)[intersectionId := true]
        && (routed.Failure? ==>
              && o == Fail(routed.error) && wake == None
              && held == None && transitExpires == old(transitExpires)
              && outRoute == old(outRoute) && delayOfCar == 0.0)
        && (routed.Success? ==>
              && o == Pass
              && held == Some(routed.value.car)
              && transitExpires == now + routed.value.delay
              && outRoute == routed.value.route
              && delayOfCar == routed.value.delay
              && wake == Some(transitExpires))
      ensures director.stormy == old(director.stormy) && director.neighbors == old(director.neighbors)
      ensures director.endpoints == old(director.endpoints) && director.carsColor == old(director.carsColor)
      ensures isStormy == old(isStormy) && stormy == old(stormy) && called == old(called)
      ensures o.Pass? ==> Valid()
    {
      counter := counter + 1;
      delayOfCar := 0.0;
      // cannot fail: the intersection is registered
      var _ := director.SetInTransitStatusOfIntersection(intersectionId, true);
      var routed := director.Routing(car, intersectionId);
      if routed.Failure? {
        return Fail(routed.error), None;
      }
      transitExpires := now + routed.value.delay;
      outRoute := routed.value.route;
      delayOfCar := delayOfCar + routed.value.delay;
      held := Some(routed.value.car);
      wake := Some(transitExpires);
      o := Pass;
    }
  }
}
