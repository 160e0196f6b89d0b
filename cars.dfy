/** The car record that travels between nodes, and the records the director
    hands back from routing and rerouting. */
module Cars {

  /** One trip. `roadMap` holds the node ids still to visit, head first;
      `prior` is the last node that routed the car (a source stamps its own
      id). Times are simulated seconds. The source copies spell the time
      fields differently (arrival to the source, departure from it); this
      record has one fixed set of fields. */
  datatype Car = Car(
    carId: int,
    carSpeed: int,
    roadMap: seq<int>,
    prior: int,
    fuel: real,
    arrival: real,
    departure: real)

  /** What routing returns: the advanced car, the dwell it asks for and the
      index of the outgoing direction among the routing node's neighbours. */
  datatype Routed = Routed(car: Car, delay: real, route: int)

  /** What a reroute returns: the road map to use from now on, the outgoing
      direction (or `Stay`) and the extra delay. */
  datatype Rerouted = Rerouted(roadMap: seq<int>, route: int, delay: real)

  /** The route value that means "no direction chosen, stay here". */
  const Stay: int := -1

  /** The id value that marks an unset id or an absent neighbour. */
  const Unset: int := -1

  /** The fixed dwell both directors hand out for every hop and reroute. */
  const UnitDelay: real := 1.0

  /** The output ports of an intersection, chosen by direction index. */
  datatype Port = North | East | South

  /** Direction 0 leaves by the north port, 1 by the east port and every
      other value by the south port. */
  function PortOf(route: int): (p: Port)
    ensures p == North <==> route == 0
    ensures p == East <==> route == 1
  {
    if route == 0 then North else if route == 1 then East else South
  }

  /** Two records describe the same trip: everything except the road map and
      the prior node agrees. */
  predicate SameTrip(a: Car, b: Car)
  {
    a.carId == b.carId && a.carSpeed == b.carSpeed && a.fuel == b.fuel
    && a.arrival == b.arrival && a.departure == b.departure
  }
}
