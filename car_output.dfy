/** A car destination: a single slot that holds an arriving car for a fixed
    dwell and then releases it on its output. Like an intersection it admits
    at most one car per departure through a one-shot latch. */
module SinkNode {
  import opened Common
  import opened Cars
  import opened Director

  class CarOutput {
    const director: CarDirector
    /** The destination's id, registered with the director. */
    const carInputId: int
    /** The dwell of a car in the slot. */
    const delay: real
    var held: Option<Car>
    var transitExpires: real
    var called: bool

    constructor(director: CarDirector, carInputId: int, delay: real)
      ensures this.director == director && this.carInputId == carInputId && this.delay == delay
      ensures held == None && !called
    {
      this.director := director;
      this.carInputId := carInputId;
      this.delay := delay;
      held := None;
      transitExpires := 0.0;
      called := false;
    }

    /** Whether a car offered now is refused: always while the slot is
        taken; otherwise the first query since the last release accepts and
        closes the latch, and later queries refuse. */
    method Reject() returns (r: bool)
      modifies this
      ensures r == (old(held).Some? || old(called))
      ensures called == (old(called) || !r)
      ensures held == old(held) && transitExpires == old(transitExpires)
    {
      if held.Some? {
        return true;
      }
      if !called {
        called := true;
        return held.Some?;
      }
      return true;
    }

    /** Start of a run: register as a destination, then empty the slot and
        open the latch. */
    method Initialize() returns (o: Outcome)
      requires director.Valid()
      modifies this, director
      ensures o == if carInputId == Unset then Fail(InvalidId)
                   else if carInputId in old(director.endpoints) then Fail(DuplicateId)
                   else if carInputId in old(director.stormy) then Fail(IdCollision)
                   else Pass
      ensures director.endpoints == if o.Pass? then old(director.endpoints) + [carInputId]
                                    else old(director.endpoints)
      ensures director.inTransit == old(director.inTransit) && director.stormy == old(director.stormy)
      ensures director.neighbors == old(director.neighbors) && director.carsColor == old(director.carsColor)
      ensures o.Pass? ==> held == None && !called
      ensures o.Fail? ==> held == old(held) && called == old(called)
      ensures transitExpires == old(transitExpires)
    {
      o := director.HandleInitializedDestination(carInputId);
      if o.Fail? {
        return;
      }
      held := None;
      called := false;
    }

    /** One firing at time `now`. A car whose dwell is over is sent on the
        output (`accepted` is the receiver's answer; nothing handles a
        refusal) and the inputs are not read. Otherwise each car in
        `arrivals`, in channel order, takes the slot, the last one winning,
        and the slot is due `delay` after now. */
    method Fire(now: real, accepted: bool, arrivals: seq<Car>) returns (o: Outcome, offered: Option<Car>, wake: Option<real>)
      modifies this
      ensures var due := now == old(transitExpires) && old(held).Some?;
        && offered == (if due then old(held) else None)
        && (due && accepted ==>
              o == Pass && held == None && !called && wake == None
              && transitExpires == old(transitExpires))
        && (due && !accepted ==>
              o == Fail(NoRoom) && held == old(held) && called == old(called) && wake == None
              && transitExpires == old(transitExpires))
        && (!due ==> o == Pass && called == old(called))
        && (!due && arrivals == [] ==>
              held == old(held) && transitExpires == old(transitExpires) && wake == None)
        && (!due && arrivals != [] ==>
              && held == Some(arrivals[|arrivals| - 1])
              && transitExpires == now + delay
              && wake == Some(transitExpires))
    {
      o := Pass;
      offered := None;
      wake := None;
      if now == transitExpires && held.Some? {
        offered := held;
        if !accepted {
          return Fail(NoRoom), offered, None;
        }
        held := None;
        called := false;
        return;
      }
      var i := 0;
      while i < |arrivals|
        invariant 0 <= i <= |arrivals|
        invariant called == old(called)
        invariant i == 0 ==> held == old(held) && transitExpires == old(transitExpires) && wake == None
        invariant i > 0 ==> held == Some(arrivals[i - 1]) && transitExpires == now + delay
        invariant i > 0 ==> wake == Some(transitExpires)
      {
        held := Some(arrivals[i]);
        transitExpires := now + delay;
        wake := Some(transitExpires);
        i := i + 1;
      }
    }
  }
}
