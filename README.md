# Car traffic simulator: director, intersections, sources and destinations

This project models the core of a discrete-event car traffic simulator. Cars are records with:
- an id and a speed;
- a road map, the list of node ids still ahead, whose head is the node the car is at or heading to;
- the prior node;
- fuel;
- arrival and departure times.

Cars enter the network at a **source** (`CarInput`). They move from **intersection** to intersection and leave at a **destination** (`CarOutput`). A **car director** holds the shared tables:
- the occupancy of every intersection;
- the blockage ("stormy") flag of every intersection;
- each intersection's outgoing neighbour list, where a car's direction is an index into that list;
- the source and destination ids;
- the car colours.

The director answers four requests:
- registration of every node;
- the availability query;
- hop-by-hop routing;
- the reroute of a car whose forward was refused.

The system has two directors:
- **Kernel** (`java/carsim/kernel/CarDirector.java`). It reroutes along a shortest path from a free neighbour. It never fills its blockage table.
- **Local** (`Sofia_workspace/previous_model_with_director/CarDirector.java`). It records blockage flags. It reroutes through a neighbour that also reaches the car's next hop, with a U-turn shortcut.

The two directors share everything else. One class (`Director.CarDirector`) models both, and a `variant` constant tells them apart.

Layout:
- `common.dfy`: Option, Result and Outcome types. One `Fault` constructor per exception the code throws. Sequence helpers such as index-of, last-index-of, count and first-match.
- `cars.dfy`: the car record, the results of routing and rerouting, and the direction-to-port mapping.
- `routing.dfy`: the director's decisions as functions of its tables, with lemmas about them. The decisions are routing, availability, screening of candidate neighbours, the kernel reroute and the local reroute.
- `director.dfy`: the director class. Its registration methods keep a registry invariant. Its routing and reroute loops are proved equal to the functions in `routing.dfy`.
- `intersection.dfy`, `car_input.dfy`, `car_output.dfy`: the three node kinds as classes. Each `Fire` method states the node's whole new state on every path, failures included.
- `car_input.dfy` also holds the source's firing as a function on values, and a first-in first-out property over whole runs of firings.

How the scheduler is represented:
- The answer of a receiver to `send` is the boolean parameter `accepted`.
- The cars present on the input channels are a parameter.
- The time a node asks to fire again (`fireAt`) is a returned `wake` value.
- Every exception is a `Fail(fault)` or `Failure(fault)` outcome.

## Model

| member | source | states |
|---|---|---|
| Cars.PortOf | Sofia_workspace/previous_model_with_director/Intersection.java:223-229 | Direction 0 leaves by the north port, 1 by the east port, and every other direction by the south port. |
| Routing.RoutingOf | java/carsim/kernel/CarDirector.java:258-312 | Routing at node `id` succeeds exactly when the road map starts at `id` and its next hop is one of `id`'s neighbours. The direction is the first index of that hop. The routed car's road map loses its head, its prior node becomes `id`, its trip data are kept and the delay is 1. A mismatched head, a missing neighbour list and an unknown next hop are each classified as their own error. |
| Routing.RoutingExample | Sofia_workspace/previous_model_with_director/CarDirector.java:204-257 | At a node with neighbours [5, 7, 3], a car heading [node, 7, 9] leaves by direction 1 with road map [7, 9]. |
| Routing.DriveReachesDestination | Sofia_workspace/previous_model_with_director/CarDirector.java:204-257 | Routing a car at each hop in turn succeeds exactly when every hop of its road map is a neighbour of the one before. The car then holds only its destination, was last routed by the hop before it and keeps its trip data. It left every hop by the index of the following hop. |
| Routing.StatusOf | java/carsim/kernel/CarDirector.java:319-323 | An intersection is unavailable exactly when it is occupied or stormy. A missing occupancy entry is an error. So is a missing blockage entry of a free intersection. |
| Routing.Screen | java/carsim/kernel/CarDirector.java:361-364 | A reroute candidate is admitted exactly when it is a real id, not a source or destination, not the refusing node, free and not stormy. A lookup on a missing table entry is an error, and the exact inputs that reach it are characterised. |
| Routing.ShortestPathRerouteOf | java/carsim/kernel/CarDirector.java:331-342 | A car whose road map holds only its destination stays, with the road map unchanged. Every reroute answers a delay of 1. |
| Routing.ShortestPathChoice | java/carsim/kernel/CarDirector.java:351-382 | A direction chosen by the kernel reroute is explained: every earlier neighbour of the prior node was passed over. The chosen neighbour is either the destination, and the road map shrinks to it, or an eligible neighbour from which the path search returned the new road map. |
| Routing.ShortestPathShortcut | java/carsim/kernel/CarDirector.java:355-360 | When the destination neighbours the prior node and all neighbours before it are passed over, the kernel reroute takes the destination's direction and road map [destination]. |
| Routing.ShortestPathNoChoice | java/carsim/kernel/CarDirector.java:351-389 | When the kernel reroute chooses nothing, the road map is kept. No neighbour of the prior node was the destination, and none was eligible with a path. |
| Routing.ShortestPathNeverSearchesWithoutBlockage | java/carsim/kernel/CarDirector.java:361-375 | With the blockage table empty, as the kernel director always leaves it, the path search is never reached. The reroute fails, stays, or takes the destination. |
| Routing.ShortestPathConsistent | java/carsim/kernel/CarDirector.java:366-376 | When the path search answers paths that start where they were asked to start, the chosen direction leads to the head of the new road map. |
| Routing.LocalRerouteOf | Sofia_workspace/previous_model_with_director/CarDirector.java:292-305 | A car whose road map holds only its destination stays, with the road map unchanged. Every local reroute answers a delay of 1. |
| Routing.LocalVerdict | Sofia_workspace/previous_model_with_director/CarDirector.java:317-338 | The scan passes over a neighbour exactly when it is not the destination and is either screened out or usable without reaching the next hop. It takes a neighbour with a new road map exactly when that neighbour is not the destination, is usable and reaches the next hop, and the new road map replaces the head with it. |
| Routing.LocalRerouteChoice | Sofia_workspace/previous_model_with_director/CarDirector.java:313-357 | Every local reroute result is one of four cases. (1) The destination, when every neighbour before it was passed over, with road map [destination]. (2) The first neighbour not passed over, when it is usable and reaches the next hop; it replaces the head of the road map. (3) The U-turn, only when no neighbour qualified and the next hop is the prior node: the last neighbour equal to the hop after next, with two entries dropped per match. (4) Staying with the road map unchanged, only when no neighbour qualified. |
| Routing.NoneQualifiesMeans | Sofia_workspace/previous_model_with_director/CarDirector.java:313-339 | When the scan passes over every neighbour, none is the destination and none is a usable neighbour that reaches the next hop. |
| Routing.LocalRerouteFirstQualified | Sofia_workspace/previous_model_with_director/CarDirector.java:313-346 | Conversely, when the neighbours before position k are passed over, the neighbour at k is chosen if it is the destination (road map [destination]) or if it is usable and reaches the next hop (it replaces the head). |
| Routing.LocalRerouteFallback | Sofia_workspace/previous_model_with_director/CarDirector.java:343-357 | Conversely, when no neighbour qualifies, the car stays unless its next hop is the prior node. In that case it takes the U-turn, or fails on a road map with no hop after next. |
| Routing.LocalRerouteThenRouting | Sofia_workspace/previous_model_with_director/CarDirector.java:324-344 | After a local reroute through a neighbour, routing at that neighbour succeeds and sends the car on towards its original next hop. |
| Routing.LocalRerouteConsistent | Sofia_workspace/previous_model_with_director/CarDirector.java:343-357 | If the hop after next occurs at most once among the prior node's neighbours, the chosen direction leads to the head of the new road map. |
| Routing.UTurnWithRepeatedNeighbour | Sofia_workspace/previous_model_with_director/CarDirector.java:347-357 | The U-turn scan does not stop at its first match. With the hop after next listed twice, it takes the later direction and drops four road-map entries, here the whole road map including the destination. |
| Director.CarDirector.constructor | java/carsim/kernel/CarDirector.java:412-436 | A new director has empty tables and satisfies the registry invariant. |
| Director.CarDirector.Initialize | java/carsim/kernel/CarDirector.java:233-241 | Every table is emptied, and the registry invariant holds. |
| Director.CarDirector.HandleCarColor | java/carsim/kernel/CarDirector.java:93-108 | A car's stored colour is returned. A car with none gets a new opaque colour, which is stored. Nothing else changes. |
| Director.CarDirector.HandleInitializedCarInput | java/carsim/kernel/CarDirector.java:115-137 | A source id is refused if it is -1 or an intersection id already in the blockage table. Otherwise it is added to the endpoints once. The registry invariant is kept. |
| Director.CarDirector.HandleInitializedDestination | Sofia_workspace/previous_model_with_director/CarDirector.java:103-119 | A destination id is refused if it is -1, already an endpoint, or an intersection id. Otherwise it is appended to the endpoints. The registry invariant is kept. |
| Director.CarDirector.HandleInitializedIntersection | Sofia_workspace/previous_model_with_director/CarDirector.java:126-149 | An intersection is refused if its id is -1, (local director only) already registered, an endpoint id, or (local director only) has its blockage unset. The kernel director keeps no blockage table, so a repeated id passes and overwrites the earlier entries. Otherwise it is registered as free with its neighbour list. Only the local director records its blockage. The registry invariant is kept. |
| Director.CarDirector.HandleIntersectionAttributeChanged | Sofia_workspace/previous_model_with_director/CarDirector.java:184-195 | Once the blockage table has entries, a changed flag must belong to a registered intersection and is stored. While the table is empty, nothing happens. |
| Director.CarDirector.SetInTransitStatusOfIntersection | java/carsim/kernel/CarDirector.java:397-405 | An intersection's occupancy is set. An endpoint id is ignored, and any other unknown id is an error. |
| Director.CarDirector.HandleRejectionWithDelay | java/carsim/kernel/CarDirector.java:223-227 | The extra wait after a refusal is positive. |
| Director.CarDirector.ReturnIntersectionStatus | Sofia_workspace/previous_model_with_director/CarDirector.java:264-268 | The availability query equals `Routing.StatusOf` on the director's tables. |
| Director.CarDirector.Routing | Sofia_workspace/previous_model_with_director/CarDirector.java:204-257 | The routing loops (find the next hop, copy the tail) equal `Routing.RoutingOf`. |
| Director.CarDirector.RerouteUnacceptedCar | java/carsim/kernel/CarDirector.java:331-389 | The kernel director answers `Routing.ShortestPathRerouteOf` and the local director answers `Routing.LocalRerouteOf`. |
| Director.CarDirector.JudgeByShortestPath | java/carsim/kernel/CarDirector.java:355-375 | One step of the kernel scan equals `Routing.ShortestPathVerdict`. |
| Director.CarDirector.RerouteByShortestPath | java/carsim/kernel/CarDirector.java:331-389 | The kernel scan loop, with its break, equals `Routing.ShortestPathRerouteOf`. |
| Director.CarDirector.JudgeLocally | Sofia_workspace/previous_model_with_director/CarDirector.java:317-338 | One step of the local scan, including its inner search of the neighbour's own list, equals `Routing.LocalVerdict`. |
| Director.CarDirector.UTurn | Sofia_workspace/previous_model_with_director/CarDirector.java:347-357 | The U-turn loop answers the last neighbour equal to the hop after next. It drops two road-map entries per match. |
| Director.CarDirector.RerouteLocally | Sofia_workspace/previous_model_with_director/CarDirector.java:292-364 | The local reroute loops equal `Routing.LocalRerouteOf`. |
| IntersectionNode.Intersection.Reject | Sofia_workspace/previous_model_with_director/Intersection.java:159-172 | A car is refused while one is held or the intersection is stormy. Otherwise the first query since the last departure accepts and closes the latch, and later queries refuse. The intersection invariant is kept. |
| IntersectionNode.Intersection.StormyChanged | Sofia_workspace/previous_model_with_director/Intersection.java:183-202 | A set blockage value is taken over and reported to the director, with the director's outcome. An unset one is only stored. A registered intersection keeps its invariant. |
| IntersectionNode.Intersection.Initialize | Sofia_workspace/previous_model_with_director/Intersection.java:359-371 | The intersection empties its slot, takes its blockage value and registers. Registration's outcome and table updates are exactly the director's. The latch, counter and delay are reset after a successful registration, which establishes the invariant. |
| IntersectionNode.Intersection.Fire | Sofia_workspace/previous_model_with_director/Intersection.java:212-350 | A due held car is offered on the port of its direction. Refused, it is rerouted per `Routing.LocalRerouteOf`: it stays with the rejection delay or takes the new direction and road map, and no input is read. Accepted, it leaves and the director marks the intersection free. Then one arriving car is admitted, marked occupied and routed per `Routing.RoutingOf`, due one delay later. A second arriving car is an error. On success the invariant is kept. |
| IntersectionNode.Intersection.Refused | Sofia_workspace/previous_model_with_director/Intersection.java:228-281 | The refused branch of firing: the reroute outcome decides between staying and the new direction. |
| IntersectionNode.Intersection.Leave | Sofia_workspace/previous_model_with_director/Intersection.java:282-286 | The accepted branch of firing: the slot empties, the latch opens and the director marks the intersection free. |
| IntersectionNode.Intersection.Admit | Sofia_workspace/previous_model_with_director/Intersection.java:289-346 | Admitting a car: the counter increases, the director marks the intersection occupied, and the car is routed here. It is due one routing delay after now. If routing fails, the firing fails with nothing held, the delay reset to 0 and the expiry and direction unchanged. |
| SinkNode.CarOutput.Reject | Sofia_workspace/CarOutput.java:95-106 | A car is refused while one is held. Otherwise the first query since the last release accepts and closes the latch. |
| SinkNode.CarOutput.Initialize | Sofia_workspace/CarOutput.java:149-156 | The destination registers with the director's outcome and table update, then empties its slot and opens the latch. |
| SinkNode.CarOutput.Fire | Sofia_workspace/CarOutput.java:113-140 | A due car is sent. Accepted, the slot empties and the inputs are not read. Refused, firing fails. Otherwise the last arriving car takes the slot, due one dwell later. |
| SourceNode.DirectionOf | personal_workspaces/Sofia_workspace/previous_model_with_director/CarInput.java:191-203 | The output channel is the index of the first connected intersection equal to the car's first hop. It exists exactly when that hop is connected. An empty road map is an index error unless the intersection list is empty. |
| SourceNode.FireKeepsQueueInvariant | java/carsim/CarInput.java:123-201 | A successful firing keeps "a head is in flight exactly when cars are queued". A requested wake-up is the expiry of the head then in flight. |
| SourceNode.FireOffersHead | java/CarInput.java:123-201 | Only the queue's head is offered, only when due, stamped with departure time now minus start, on the first matching channel. |
| SourceNode.FireTiming | java/carsim/CarInput.java:126-198 | A head that is not due keeps its expiry, and a due head with no direction fails the firing. A refused head waits `delay` more, and a negative `delay` is an error. After an accepted head, the next queued car is due `start` after the old expiry, and a negative `start` is an error. A car arriving at a source with nothing in flight is due `start` after now, with the same error. An idle source with no arrival is unchanged. |
| SourceNode.FireIsFifo | java/carsim/CarInput.java:123-201 | A successful firing removes exactly the head when it was accepted, keeps every other car in order, and appends an arriving car stamped with the source's id and time. |
| SourceNode.FireKeepsOrder | java/carsim/CarInput.java:123-201 | In one successful firing, the ids of the cars sent followed by those queued afterwards are the ids queued before followed by the arrival's. |
| SourceNode.RunIsFifo | java/carsim/CarInput.java:123-201 | Over any run of firings that all succeed, the sent ids followed by the still-queued ids are the initially queued ids followed by all arrival ids, in order. |
| SourceNode.CarInput.Initialize | java/CarInput.java:210-223 | For a source that does not register: nothing is in flight and the connected intersections are taken over. An empty list is an error. Otherwise the queue is emptied and the queue invariant holds. |
| SourceNode.CarInput.InitializeWithDirector | java/carsim/CarInput.java:210-222 | The source first registers with the director. A refused registration ends initialisation with that fault. Otherwise initialisation proceeds as for a non-registering source. |
| SourceNode.CarInput.FindDirection | java/carsim/CarInput.java:224-236 | The direction search loop equals `SourceNode.DirectionOf`. |
| SourceNode.CarInput.Fire | personal_workspaces/Sofia_workspace/previous_model_with_director/CarInput.java:91-169 | The firing method's outcome, offered car, wake-up and new state equal `SourceNode.FireOf` of the old state, whose properties are the lemmas above: `SourceNode.FireTiming` for when it fires again, and the order lemmas for the queue. |

## Left out

- The scheduler, ports and receivers are not modelled. A send's success is the parameter `accepted`. The tokens present on input channels are a parameter, and a node's `fireAt` request is its returned `wake` time.
- Model times and doubles are `real`s, so rounding is not modelled.
- Random colour components are parameters of `HandleCarColor`.
- Icons, fill colours, `_setIcon` and its colour lookups, and the telemetry records written to files are not modelled.
- Port-creating constructors and parameter declarations are not modelled. Node parameters (ids, neighbour lists, start and dwell delays, connected intersections) are constructor arguments, and only the blockage flag can change later.
- The shortest-path search (Dijkstra) is not part of this model. The kernel reroute receives it as the function parameter `finder`.
- `Routing.ShortestPathConsistent`: only holds under the stated assumption that the search returns paths starting at the node searched from.
- The field names of a car record differ between copies. Intersection.java and CarOutput.java use "priorIntersection" and "dipartureTimeFromCarInput". The local director writes "priorintersection" and "dipartureTimeFromcarInput". The kernel director writes "departureTimeFromDestination", and java/carsim/CarInput.java writes "departureTimeFromCarInput". The model has one car record with one field per quantity, so a lookup of a field another copy spelled differently (which would yield no value) is not modelled.
- `IntersectionNode.Intersection.Fire`: the check for a negative rejection delay is not modelled. Both directors answer 1.0, which `Director.CarDirector.HandleRejectionWithDelay` proves positive.
- `IntersectionNode.Intersection`: only works with the local director, which the intersection's invariant requires. With the kernel director, the intersection's blockage flag has no table entry.
- `IntersectionNode.Intersection.Fire`: the outcome of marking the intersection occupied or free is not modelled as a failure, because it cannot fail for a registered intersection.
- The kernel director never fills its blockage table. As written, its availability query fails for a free intersection, and its reroute never reaches the path search. Both are modelled as written; `Routing.ShortestPathNeverSearchesWithoutBlockage` states the second.
- The destination shortcut of both reroutes wins only when no usable neighbour is listed before it, because both scans stop at the first usable neighbour. The model follows the scan order.
- The local reroute's U-turn loop has no break. With a repeated neighbour, it drops more than two road-map entries; `Routing.UTurnWithRepeatedNeighbour` exhibits this and the model keeps it.
- Taking a sub-array past the end of a road map is modelled as an empty road map.
- The car-id list `_carsId` of both directors is never read and is not modelled.
- The receiver-creating methods of the directors (`newReceiver`) and the delay-dependency declaration of the intersection are scheduler plumbing and are not modelled.
- The base director class (`AbstractDirectorCar`) is not part of this model; its request methods are the director class's methods.
