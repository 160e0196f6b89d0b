/** A car source: a first-in first-out queue of cars that entered the
    network here, of which only the head is ever in flight. The head leaves,
    after the start delay, by the output channel of the first connected
    intersection that equals its first hop; a refused head waits the
    rejection delay and tries again. The three copies of the source in the
    system behave alike; only one registers with the director. */
module SourceNode {
  import opened Common
  import opened Cars
  import opened Director

  /** The source's queue, whether its head is in flight, and when the head
      is due. */
  datatype Source = Source(cars: seq<Car>, inFlight: bool, expires: real)

  /** A car offered on an output channel. */
  datatype Emission = Emission(channel: nat, car: Car)

  /** What one firing did: its outcome, the source afterwards, the car it
      offered and the time it asked to fire again. */
  datatype Firing = Firing(outcome: Outcome, after: Source, offered: Option<Emission>, wake: Option<real>)

  /** A head is in flight exactly when the queue holds cars. */
  predicate QueueInvariant(s: Source)
  {
    s.inFlight <==> s.cars != []
  }

  /** The output channel towards a car's first hop: the index of the first
      connected intersection equal to it. An empty road map is an index
      error, but only once the scan reaches its first comparison. */
  function DirectionOf(intersections: seq<int>, roadMap: seq<int>): (r: Result<nat>)
    ensures r.Success? <==> roadMap != [] && roadMap[0] in intersections
    ensures r.Success? ==>
      && r.value < |intersections|
      && intersections[r.value] == roadMap[0]
      && roadMap[0] !in intersections[..r.value]
    ensures r.Failure? ==>
      r.error == if intersections != [] && roadMap == [] then IndexOutOfRange else NoRouteToFirstHop
  {
    if intersections == [] then Failure(NoRouteToFirstHop)
    else if roadMap == [] then Failure(IndexOutOfRange)
    else if roadMap[0] in intersections then Success(IndexOf(intersections, roadMap[0]) as nat)
    else Failure(NoRouteToFirstHop)
  }

  /** A car as it enters the queue: stamped with the source's id as prior
      node and with `now` as both arrival and departure time. */
  function Entered(car: Car, carInputId: int, now: real): Car
  {
    car.(prior := carInputId, arrival := now, departure := now)
  }

  /** The due head is stamped with its departure time and offered by the
      direction of its first hop. Accepted, it leaves the queue and the next
      head, if any, goes in flight after the start delay; refused, it stays
      and waits the rejection delay. */
  function DispatchOf(s: Source, intersections: seq<int>, start: real, delay: real, now: real, accepted: bool): Firing
    requires s.cars != []
  {
    var head := s.cars[0].(departure := now - start);
    var stamped := s.(cars := s.cars[0 := head]);
    match DirectionOf(intersections, head.roadMap)
    case Failure(f) => Firing(Fail(f), stamped, None, None)
    case Success(channel) =>
      var offer := Some(Emission(channel, head));
      if accepted then
        var rest := s.cars[1..];
        if rest == [] then Firing(Pass, Source(rest, false, s.expires), offer, None)
        else if start < 0.0 then Firing(Fail(NegativeDelay), Source(rest, true, s.expires), offer, None)
        else Firing(Pass, Source(rest, true, s.expires + start), offer, Some(s.expires + start))
      else if delay < 0.0 then Firing(Fail(NegativeDelay), stamped, offer, None)
      else Firing(Pass, stamped.(expires := s.expires + delay), offer, Some(s.expires + delay))
  }

  /** An arriving car joins the back of the queue; if nothing was in flight
      it goes in flight after the start delay. */
  function EnqueueOf(f: Firing, carInputId: int, start: real, now: real, car: Car): Firing
  {
    var s := f.after.(cars := f.after.cars + [Entered(car, carInputId, now)]);
    if s.inFlight then f.(after := s)
    else if start < 0.0 then Firing(Fail(NegativeDelay), s, f.offered, f.wake)
    else Firing(Pass, s.(inFlight := true, expires := now + start), f.offered, Some(now + start))
  }

  /** One firing of the source at time `now`: the due head is dispatched,
      then the car arriving on the input, if any, is queued. */
  function FireOf(s: Source, carInputId: int, intersections: seq<int>, start: real, delay: real,
                  now: real, accepted: bool, arrival: Option<Car>): Firing
    requires QueueInvariant(s)
  {
    var first := if now == s.expires && s.inFlight
                 then DispatchOf(s, intersections, start, delay, now, accepted)
                 else Firing(Pass, s, None, None);
    if first.outcome.Fail? || arrival.None? then first
    else EnqueueOf(first, carInputId, start, now, arrival.value)
  }

  /** A firing that succeeds keeps the queue invariant, and a requested
      wake-up is the expiry of the head then in flight. */
  lemma FireKeepsQueueInvariant(s: Source, carInputId: int, intersections: seq<int>, start: real, delay: real,
                                now: real, accepted: bool, arrival: Option<Car>)
    requires QueueInvariant(s)
    ensures var f := FireOf(s, carInputId, intersections, start, delay, now, accepted, arrival);
      f.outcome.Pass? ==> QueueInvariant(f.after)
    ensures var f := FireOf(s, carInputId, intersections, start, delay, now, accepted, arrival);
      f.wake.Some? ==> f.after.inFlight && f.wake.value == f.after.expires
  {
  }

  /** Only the head is ever offered, stamped with departure time
      now - start, by the channel of the first connected intersection equal
      to its first hop, and only when it is due. */
  lemma FireOffersHead(s: Source, carInputId: int, intersections: seq<int>, start: real, delay: real,
                       now: real, accepted: bool, arrival: Option<Car>)
    requires QueueInvariant(s)
    ensures var f := FireOf(s, carInputId, intersections, start, delay, now, accepted, arrival);
      f.offered.Some? ==>
        && now == s.expires && s.cars != []
        && f.offered.value.car == s.cars[0].(departure := now - start)
        && f.offered.value.channel < |intersections|
        && intersections[f.offered.value.channel] == s.cars[0].roadMap[0]
        && s.cars[0].roadMap[0] !in intersections[..f.offered.value.channel]
  {
  }

  /** When the source fires again. A head that is not due keeps its
      expiry. A due head whose direction cannot be found fails the firing.
      A refused head waits `delay` more, and a negative `delay` is an
      error. After an accepted head the next queued car goes in flight
      `start` after the old expiry, and a negative `start` is an error. A
      car arriving at a source with nothing in flight goes in flight
      `start` after now, with the same error. */
  lemma FireTiming(s: Source, carInputId: int, intersections: seq<int>, start: real, delay: real,
                   now: real, accepted: bool, arrival: Option<Car>)
    requires QueueInvariant(s)
    ensures var f := FireOf(s, carInputId, intersections, start, delay, now, accepted, arrival);
      !(now == s.expires) && s.inFlight ==>
        f.outcome == Pass && f.after.inFlight && f.after.expires == s.expires && f.wake == None
    ensures var f := FireOf(s, carInputId, intersections, start, delay, now, accepted, arrival);
      now == s.expires && s.inFlight && DirectionOf(intersections, s.cars[0].roadMap).Failure? ==>
        && f.outcome == Fail(DirectionOf(intersections, s.cars[0].roadMap).error)
        && f.offered == None && f.after.expires == s.expires && f.wake == None
    ensures var f := FireOf(s, carInputId, intersections, start, delay, now, accepted, arrival);
      now == s.expires && s.inFlight && DirectionOf(intersections, s.cars[0].roadMap).Success? && !accepted ==>
        && (delay < 0.0 ==> f.outcome == Fail(NegativeDelay) && f.after.expires == s.expires && f.wake == None)
        && (delay >= 0.0 ==>
              && f.outcome == Pass && f.after.inFlight
              && f.after.expires == s.expires + delay && f.wake == Some(s.expires + delay))
    ensures var f := FireOf(s, carInputId, intersections, start, delay, now, accepted, arrival);
      now == s.expires && s.inFlight && DirectionOf(intersections, s.cars[0].roadMap).Success? && accepted
      && |s.cars| >= 2 ==>
        && (start < 0.0 ==>
              f.outcome == Fail(NegativeDelay) && f.after.inFlight && f.after.cars == s.cars[1..] && f.wake == None)
        && (start >= 0.0 ==>
              && f.outcome == Pass && f.after.inFlight
              && f.after.expires == s.expires + start && f.wake == Some(s.expires + start))
    ensures var f := FireOf(s, carInputId, intersections, start, delay, now, accepted, arrival);
      var idle := !s.inFlight
        || (now == s.expires && DirectionOf(intersections, s.cars[0].roadMap).Success? && accepted && |s.cars| == 1);
      idle && arrival.Some? ==>
        && (start < 0.0 ==> f.outcome == Fail(NegativeDelay) && !f.after.inFlight)
        && (start >= 0.0 ==>
              && f.outcome == Pass && f.after.inFlight
              && f.after.expires == now + start && f.wake == Some(now + start))
    ensures var f := FireOf(s, carInputId, intersections, start, delay, now, accepted, arrival);
      !s.inFlight && arrival.None? ==> f == Firing(Pass, s, None, None)
  {
  }

  /** First in, first out: a successful firing removes exactly the head
      when it was accepted, keeps every other car in order, and puts an
      arriving car at the back. */
  lemma FireIsFifo(s: Source, carInputId: int, intersections: seq<int>, start: real, delay: real,
                   now: real, accepted: bool, arrival: Option<Car>)
    requires QueueInvariant(s)
    ensures var f := FireOf(s, carInputId, intersections, start, delay, now, accepted, arrival);
      var sent := f.offered.Some? && accepted;
      var kept := if sent then s.cars[1..]
                  else if f.offered.Some? then s.cars[0 := f.offered.value.car]
                  else s.cars;
      f.outcome.Pass? ==>
        f.after.cars == kept + (if arrival.Some? then [Entered(arrival.value, carInputId, now)] else [])
  {
  }

  /** One scheduled firing of a source: its time, the receiver's answer to
      an offered head and the car on the input, if any. */
  datatype Event = Event(now: real, accepted: bool, arrival: Option<Car>)

  /** A run of firings: the source afterwards, the cars that left, and
      whether every firing succeeded (the run stops at the first failure). */
  datatype Run = Run(final: Source, sent: seq<Car>, ok: bool)

  /** The ids of a sequence of cars, in order. */
  function CarIds(cars: seq<Car>): seq<int>
  {
    if cars == [] then [] else [cars[0].carId] + CarIds(cars[1..])
  }

  /** The ids of the cars arriving during a sequence of firings. */
  function ArrivalIds(events: seq<Event>): seq<int>
  {
    if events == [] then []
    else (if events[0].arrival.Some? then [events[0].arrival.value.carId] else []) + ArrivalIds(events[1..])
  }

  lemma {:induction false} CarIdsAppend(a: seq<Car>, b: seq<Car>)
    ensures CarIds(a + b) == CarIds(a) + CarIds(b)
    decreases |a|
  {
    if a != [] {
      assert (a + b)[0] == a[0];
      assert (a + b)[1..] == a[1..] + b;
      CarIdsAppend(a[1..], b);
    } else {
      assert a + b == b;
    }
  }

  /** The source's firings, one after another, from state `s`. */
  function RunOf(s: Source, carInputId: int, intersections: seq<int>, start: real, delay: real,
                 events: seq<Event>): Run
    requires QueueInvariant(s)
    decreases |events|
  {
    if events == [] then Run(s, [], true)
    else
      var e := events[0];
      var f := FireOf(s, carInputId, intersections, start, delay, e.now, e.accepted, e.arrival);
      var sent := SentBy(f, e);
      if f.outcome.Fail? then Run(f.after, sent, false)
      else
        FireKeepsQueueInvariant(s, carInputId, intersections, start, delay, e.now, e.accepted, e.arrival);
        var rest := RunOf(f.after, carInputId, intersections, start, delay, events[1..]);
        Run(rest.final, sent + rest.sent, rest.ok)
  }

  /** The cars that left in one successful firing, followed by those
      queued afterwards, are the cars queued before followed by the
      arrival. */
  lemma FireKeepsOrder(s: Source, carInputId: int, intersections: seq<int>, start: real, delay: real, e: Event)
    requires QueueInvariant(s)
    ensures var f := FireOf(s, carInputId, intersections, start, delay, e.now, e.accepted, e.arrival);
      f.outcome.Pass? ==>
        CarIds(SentBy(f, e)) + CarIds(f.after.cars) == CarIds(s.cars) + ArrivalIds([e])
  {
    var f := FireOf(s, carInputId, intersections, start, delay, e.now, e.accepted, e.arrival);
    if f.outcome.Pass? {
      FireIsFifo(s, carInputId, intersections, start, delay, e.now, e.accepted, e.arrival);
      FireOffersHead(s, carInputId, intersections, start, delay, e.now, e.accepted, e.arrival);
      var sent := SentBy(f, e);
      var kept := if sent != [] then s.cars[1..]
                  else if f.offered.Some? then s.cars[0 := f.offered.value.car]
                  else s.cars;
      var entered := if e.arrival.Some? then [Entered(e.arrival.value, carInputId, e.now)] else [];
      assert f.after.cars == kept + entered;
      CarIdsAppend(kept, entered);
      assert CarIds(entered) == ArrivalIds([e]);
      assert CarIds(sent) + CarIds(kept) == CarIds(s.cars) by {
        if sent == [] && f.offered.Some? {
          assert kept[1..] == s.cars[1..];
        }
      }
    }
  }

  /** The cars that left in one firing, if it succeeded. */
  function SentBy(f: Firing, e: Event): seq<Car>
  {
    if f.offered.Some? && e.accepted then [f.offered.value.car] else []
  }

  /** A run that starts with a successful firing is that firing followed by
      the run of the remaining events. */
  lemma RunOfFirst(s: Source, carInputId: int, intersections: seq<int>, start: real, delay: real,
                   events: seq<Event>)
    requires QueueInvariant(s) && events != []
    requires FireOf(s, carInputId, intersections, start, delay, events[0].now, events[0].accepted, events[0].arrival).outcome.Pass?
    ensures var e := events[0];
      var f := FireOf(s, carInputId, intersections, start, delay, e.now, e.accepted, e.arrival);
      && QueueInvariant(f.after)
      && var rest := RunOf(f.after, carInputId, intersections, start, delay, events[1..]);
      RunOf(s, carInputId, intersections, start, delay, events) == Run(rest.final, SentBy(f, e) + rest.sent, rest.ok)
  {
    var e := events[0];
    FireKeepsQueueInvariant(s, carInputId, intersections, start, delay, e.now, e.accepted, e.arrival);
  }

  /** Over any run that succeeds, no car is lost, duplicated or overtaken:
      the cars that left, followed by those still queued, are the cars
      queued at the start followed by the arrivals, in order. */
  lemma {:induction false} RunIsFifo(s: Source, carInputId: int, intersections: seq<int>, start: real, delay: real,
                                     events: seq<Event>)
    requires QueueInvariant(s)
    ensures var r := RunOf(s, carInputId, intersections, start, delay, events);
      r.ok ==> CarIds(r.sent) + CarIds(r.final.cars) == CarIds(s.cars) + ArrivalIds(events)
    decreases |events|
  {
    if events != [] {
      var e := events[0];
      var f := FireOf(s, carInputId, intersections, start, delay, e.now, e.accepted, e.arrival);
      if f.outcome.Pass? {
        RunOfFirst(s, carInputId, intersections, start, delay, events);
        FireKeepsOrder(s, carInputId, intersections, start, delay, e);
        var sent := SentBy(f, e);
        var rest := RunOf(f.after, carInputId, intersections, start, delay, events[1..]);
        RunIsFifo(f.after, carInputId, intersections, start, delay, events[1..]);
        CarIdsAppend(sent, rest.sent);
        assert ArrivalIds(events) == ArrivalIds([e]) + ArrivalIds(events[1..]);
        if rest.ok {
          IdsCompose(CarIds(sent), CarIds(f.after.cars), CarIds(rest.sent), CarIds(rest.final.cars),
                     CarIds(s.cars), ArrivalIds([e]), ArrivalIds(events[1..]));
        }
      }
    }
  }

  /** A helper of `RunIsFifo`: two hand-overs in a row compose, by
      associativity of concatenation. */
  lemma IdsCompose(sent: seq<int>, after: seq<int>, restSent: seq<int>, restFinal: seq<int>,
                   before: seq<int>, first: seq<int>, later: seq<int>)
    requires sent + after == before + first
    requires restSent + restFinal == after + later
    ensures (sent + restSent) + restFinal == before + (first + later)
  {
    calc {
      (sent + restSent) + restFinal;
      sent + (restSent + restFinal);
      sent + (after + later);
      (sent + after) + later;
    }
  }

  class CarInput {
    const carInputId: int
    /** Delay before a head that goes in flight is due. */
    const start: real
    /** Extra wait of a head whose send was refused. */
    const delay: real
    /** The connected-intersections parameter: output channel i leads to
        the i-th id. */
    const connectedIntersections: seq<int>
    var cars: seq<Car>
    var inFlight: bool
    var transitExpires: real
    var intersections: seq<int>

    /** The source's state as a value. */
    function State(): Source
      reads this
    {
      Source(cars, inFlight, transitExpires)
    }

    ghost predicate Valid()
      reads this
    {
      QueueInvariant(State())
    }

    constructor(carInputId: int, start: real, delay: real, connectedIntersections: seq<int>)
      ensures this.carInputId == carInputId && this.start == start && this.delay == delay
      ensures this.connectedIntersections == connectedIntersections
      ensures cars == [] && !inFlight && intersections == []
      ensures Valid()
    {
      this.carInputId := carInputId;
      this.start := start;
      this.delay := delay;
      this.connectedIntersections := connectedIntersections;
      cars := [];
      inFlight := false;
      transitExpires := 0.0;
      intersections := [];
    }

    /** Start of a run for the copies that do not register: nothing in
        flight, the connected intersections taken from the parameter (there
        must be at least one) and an empty queue. */
    method Initialize() returns (o: Outcome)
      modifies this
      ensures o == if connectedIntersections == [] then Fail(NoConnectedIntersection) else Pass
      ensures !inFlight && intersections == connectedIntersections
      ensures cars == if o.Pass? then [] else old(cars)
      ensures transitExpires == old(transitExpires)
      ensures o.Pass? ==> Valid()
    {
      inFlight := false;
      intersections := connectedIntersections;
      if |intersections| == 0 {
        return Fail(NoConnectedIntersection);
      }
      cars := [];
      return Pass;
    }

    /** Start of a run for the copy that registers its id with the director
        as a source first; a refused registration ends the start. */
    method InitializeWithDirector(director: CarDirector) returns (o: Outcome)
      requires director.Valid()
      modifies this, director
      ensures var registered := if carInputId == Unset then Fail(InvalidId)
                                else if carInputId in old(director.stormy) then Fail(IdCollision)
                                else Pass;
        && (registered.Fail? ==>
              && o == registered
              && cars == old(cars) && inFlight == old(inFlight) && intersections == old(intersections)
              && director.endpoints == old(director.endpoints))
        && (registered.Pass? ==>
              && o == (if connectedIntersections == [] then Fail(NoConnectedIntersection) else Pass)
              && !inFlight && intersections == connectedIntersections
              && cars == (if o.Pass? then [] else old(cars))
              && director.endpoints == (if carInputId in old(director.endpoints) then old(director.endpoints)
                                        else old(director.endpoints) + [carInputId]))
      ensures director.inTransit == old(director.inTransit) && director.stormy == old(director.stormy)
      ensures director.neighbors == old(director.neighbors) && director.carsColor == old(director.carsColor)
      ensures transitExpires == old(transitExpires)
      ensures o.Pass? ==> Valid()
    {
      o := director.HandleInitializedCarInput(carInputId);
      if o.Fail? {
        return;
      }
      o := Initialize();
    }

    /** The output channel towards `car`'s first hop. */
    method FindDirection(car: Car) returns (r: Result<nat>)
      ensures r == DirectionOf(intersections, car.roadMap)
    {
      var roadMap := car.roadMap;
      var i := 0;
      while i < |intersections|
        invariant 0 <= i <= |intersections|
        invariant roadMap != [] ==> roadMap[0] !in intersections[..i]
        invariant i > 0 ==> roadMap != []
      {
        if roadMap == [] {
          return Failure(IndexOutOfRange);
        }
        if roadMap[0] == intersections[i] {
          IndexOfUnique(intersections, roadMap[0], i);
          return Success(i);
        }
        assert intersections[..i + 1] == intersections[..i] + [intersections[i]];
        i := i + 1;
      }
      assert intersections[..i] == intersections;
      return Failure(NoRouteToFirstHop);
    }

    /** One firing at time `now`: `accepted` is the receiver's answer to the
        offered head and `arrival` the car on the input, if any. */
    method Fire(now: real, accepted: bool, arrival: Option<Car>) returns (o: Outcome, offered: Option<Emission>, wake: Option<real>)
      requires Valid()
      modifies this
      ensures var f := FireOf(old(State()), carInputId, intersections, start, delay, now, accepted, arrival);
        o == f.outcome && offered == f.offered && wake == f.wake && State() == f.after
      ensures intersections == old(intersections)
    {
      o := Pass;
      offered := None;
      wake := None;
      if now == transitExpires && inFlight {
        var departureTime := now - start;
        cars := cars[0 := cars[0].(departure := departureTime)];
        var direction := FindDirection(cars[0]);
        if direction.Failure? {
          return Fail(direction.error), None, None;
        }
        offered := Some(Emission(direction.value, cars[0]));
        if accepted {
          cars := cars[1..];
          inFlight := false;
        } else {
          if delay < 0.0 {
            return Fail(NegativeDelay), offered, None;
          }
          transitExpires := transitExpires + delay;
          wake := Some(transitExpires);
        }
        if !inFlight && cars != [] {
          inFlight := true;
          if start < 0.0 {
            return Fail(NegativeDelay), offered, None;
          }
          transitExpires := transitExpires + start;
          wake := Some(transitExpires);
        }
      }
      if arrival.Some? {
        cars := cars + [Entered(arrival.value, carInputId, now)];
        if !inFlight {
          if start < 0.0 {
            return Fail(NegativeDelay), offered, wake;
          }
          inFlight := true;
          transitExpires := now + start;
          wake := Some(transitExpires);
        }
      }
    }
  }
}
