# A model of the taxi's software

The taxi drives a course of lanes and stop lines. A remote client plans routes on a map and sends missions;
the on-board computer executes them from what its camera sees, and talks over SPI to two microcontroller
modules, one for the sensors and one for steering and speed. This project models these five parts and the
places where they meet, and proves what they promise over every input and every run.

**Planning.** `Course.dfy` is the route planner: mutable weighted nodes, a linear search for the lightest, and
relaxation in place. `Mission.dfy` clears a path and compiles it to commands, and relates consecutive missions
to the path on display.

**The order bus.** `OrderSteps.dfy` is the coalescing order queue as a system of atomic steps, one for each locked
section of the code, over every interleaving of the scheduling threads with the one worker. `OrderBus.dfy` is the
linked list itself; its invariant says that the list and the counters show exactly the state which the history
of locked sections leads to, so every statement about runs holds of the list. `BusWorker.dfy` is the
worker's loop body on that list and the two links, and `BusRuns.dfy` follows what reaches the slaves, and what comes
back, over every interleaving.

**The SPI protocol.** `Protocol.dfy` holds tables and checksums, `SlaveAutomaton.dfy` the slave as an automaton over
the bytes clocked to it, `SlaveCode.dfy` the slave's blocking code, proved to walk through the automaton's phases,
and `SpiMaster.dfy` the master's transactions against the automaton. A byte that the slave's code leaves
undetermined (what a buffer or register happens to hold) is arbitrary.

**Missions.** `Tracker.dfy` follows lane and stop line, with everything image analysis finds in a frame as an arbitrary
input. `Executor.dfy` is the command queue and position of the car. Both are classes whose methods are proved
equal to a step function; `Drive.dfy` composes the step functions, keeps a log of every frame, proves the
promises over every sequence of frames and mission changes, and shows that the objects follow it. `Journeys.dfy` shows
what can be brought about, by frames that the classifier of lines lets through.

**Text and control.** `Text.dfy`, `Tokeniser.dfy`, `Server.dfy` and `MissionText.dfy` are the request, reply and mission
formats, printed on one side and parsed on the other, on the character buffers the code writes to.
`Tasks.dfy` is the client's task queue.
`Regulator.dfy` is the control module's regulator, held against the whole history of its commands, and `Actuators.dfy`
puts it at the end of the bus.
`EndToEnd.dfy` joins the parts, from the route on the map to the queue in the car and back to the display.
`Commands.dfy` and `Wrappers.dfy` are shared.

## What the code does not promise

These are proved too, each with the exact condition or the case that shows it.

- The checksum never moves on from the first data byte, so for every even length it depends on the command alone
  (`Protocol.EvenCheckReadsNoData`). No detection of corrupted data is claimed.
- A request without data (reset, synchronise) always arrives, but the master reads one byte more than the slave
  sends, so it reports success only if that left-over byte passes as a checksum (`SpiMaster.Link.Receive`).
- A park command that passes a line while it stands in its place drives off at once, at full speed, without waiting
  (`Drive.LeavesParked`, with a drive in `Journeys.DriveWithoutDwelling`).
- A park command that passes a line while it unparks, and only such a one, can never finish
  (`Drive.OvershootsWhenPassing`, `Journeys.CommandCanFinish`, with a drive in `Journeys.DriveWithoutEnd`).
- An acknowledged write arrived if the slave was waiting for it. A slave in the middle of a broken transaction may
  acknowledge something else at that moment; all that is certain then is that it was handed a command
  (`SpiMaster.Link.Transmit`).
- A stop line that was moving away when it was lost from sight is expected to come back, and one that was coming nearer
  to stay where it is (`Tracker.LostLineComesBack`).
- Appending to a mission sends the car back before its line, so a command that has had its line needs another one
  (`Drive.AppendingWastesLine`).
- After a reset the tracker's line estimate lies outside the mask for the default frame size, because a width is taken
  for a y position; `Tracker.ResetInsideMask` says for which sizes it does not. Only the first frame repairs it.
- A broken write whose first byte arrived intact is completed by the resynchronisation's zero bytes and accepted, since
  the checksum ignores the data (`SlaveAutomaton.SyncHandsOver`).
- The client sends missions in the order of the clicks if and only if each was given to an empty task queue, which
  hands out the newest first (`Tasks.OrderIsKept`). So clearing can wipe a mission that was clicked after it
  (`EndToEnd.ClearingOvertaken`). A count of 0 never reaches the map, so the last stretch stays on
  display when the mission is done (`EndToEnd.DisplayFollowsDrive`).
- Compiling a mission raises an index error exactly when its last node, behind the first, is an inner or an empty one
  (`Mission.CreateMission`).
- An argument that is empty or contains a comma does not survive a request (`Server.RequestRoundTrip`). A request of
  nothing but colons, and no other, makes the server compare a null pointer (`Server.NullNameExactly`).

## Model

| member | source | states |
|---|---|---|
| Course.CreateEdge | src/remote/gui.py:185-194 | an edge is added behind those of its node if its cost is not negative and it has two ends; so all costs stay non-negative |
| Course.FirstLightest | src/remote/course.py:73 | none is lighter, and of several lightest it is the first |
| Course.Unvisited | src/remote/course.py:63-70 | one fresh weighted node per course node, of weight 0 for the source and infinite otherwise; the search invariant holds |
| Course.Relax | src/remote/course.py:79-83 | exactly the unvisited node at the edge's end is updated, weight and path, and only if that makes it lighter |
| Course.RelaxAll | src/remote/course.py:78-83 | with all edges of the lightest node relaxed the search invariant holds with that node removed, and no removed node's label has changed |
| Course.Visit | src/remote/course.py:73-85 | one iteration keeps the invariant and takes exactly the lightest entry off the list |
| Course.RelaxingKeepsInv | src/remote/course.py:78-83 | each relaxed edge keeps it: finite weights are costs of stored simple paths through removed nodes, removed nodes weigh no more than others, edges of removed nodes are relaxed |
| Course.WalkMeetsFrontier | src/remote/course.py:72-85 | however a route runs, its end or some unvisited node weighs at most what the route costs |
| Course.WeightIsDistance | src/remote/course.py:72-85 | the weight of a removed node, and of the lightest one, is its distance: the stored walk costs it and no walk costs less |
| Course.LightestIsClosest | src/remote/course.py:73-76 | the path stored with the lightest node is a cheapest route to it, simple, and just the source if there is no route |
| Course.WeightIsBestThrough | src/remote/course.py:72-85 | the weight of every node, unvisited ones included, is the least cost of the walks to it that run through removed nodes before its end |
| Course.NearerIsTaken | src/remote/course.py:73-76 | when a node is the lightest, every node that is cheaper to reach has been removed |
| Course.TakeLightest | src/remote/course.py:73-85 | one iteration takes the lightest node next, and what was taken stays in order of weight with true distances |
| Course.Search | src/remote/course.py:72-85 | the loop ends with the destination as the lightest node, or with nothing left, after at most as many nodes as the course has; the invariant holds of what was taken |
| Course.ClosestPath | src/remote/course.py:62-87 | a simple path from source to destination inside the course, along edges whose total cost no other route undercuts; exactly the source alone if there is no route; the nodes taken are at least all that are cheaper to reach than the destination, come in order of weight, each at most once, with their true distances, and the search invariant holds of them and the final weights |
| Mission.ClearEmpty | src/remote/course.py:89-95 | the path without its empty nodes, in order |
| Mission.ClearedConcat | src/remote/course.py:89-95 | clearing a joined path is joining the cleared ones |
| Mission.CreateMission | src/remote/course.py:98-124 | an index error if and only if the last of several nodes is inner or empty; otherwise one command for each node after the first, fixed by its kind, by being last, and by the kind of the next |
| Mission.CommandsStandFor | src/remote/course.py:104-114 | for each of the six commands, exactly where in the path it is found |
| Mission.InnerRunCompiles | src/remote/course.py:112-114 | a maximal run of k inner nodes becomes k-1 times continue, then exit |
| Mission.HaltsOnlyAtEnd | src/remote/course.py:104-109 | stop and park stand at the end, if that is a line or a parking, and nowhere else |
| Mission.MissionsFollowJoint | src/remote/gui.py:97-105 | missions sent one after the other hold exactly one command per node after the first of the cleared joint path, each fit for its node |
| Mission.RemainingNodesAlign | src/remote/gui.py:163-167 | with r commands left, the display keeps r+1 nodes, and the commands left are those of all but the first |
| Protocol.CalcSum | src/spi/protocol.c:17-27 | the loop's result: the command for even lengths, mixed with the first data byte for odd ones |
| Protocol.CsCreate | src/spi/protocol.c:29-35 | command in the low nibble, sum in the high one |
| Protocol.CsCheck | src/spi/protocol.c:37-39 | accepts if and only if the sum nibble is the sum for the command nibble and the data |
| Protocol.CreatedIsAccepted | src/spi/protocol.c:9-39 | every created byte is accepted with its data, for every command byte, even wider than 4 bits, and every length |
| Protocol.TablesAre | src/spi/protocol.h:66-111 | which commands each slave has, which carry data to it and how much, and the two acknowledgements |
| Protocol.WireByte | src/spi/protocol.c:4-35 | the two halves of the byte on the wire, for even and odd lengths |
| Protocol.EvenCheckReadsNoData | src/spi/protocol.c:17-27 | for even lengths acceptance does not depend on the data |
| SlaveAutomaton.FeedKeepsWellFormed | src/avr/bus.c:31-71 | whatever bytes arrive, the slave ends in one of its phases, with as much data as the phase allows |
| SlaveAutomaton.StepCountsDown | src/avr/bus.c:31-71 | each byte, whatever it is, takes a busy slave exactly one step closer to waiting; zero leaves a waiting one waiting |
| SlaveAutomaton.SyncReachesIdle | src/comm/spi.c:26-31 | n zero bytes leave the slave waiting if and only if n reaches the count of its phase; MAX_DATA_LENGTH+2 always does |
| SlaveAutomaton.SyncBoundIsTight | src/comm/bus.c:170 | after a GET was received, n zero bytes suffice if and only if n is at least MAX_DATA_LENGTH+2 |
| SlaveAutomaton.SyncHandsOver | src/comm/bus.c:239-242 | exactly what a burst of n zeros lets through: the command under way, if n suffices; a broken write is completed with zeros, and accepted if its first byte passes at all |
| SlaveAutomaton.DataPhase | src/avr/bus.c:50-56 | the data bytes are collected as sent, then acknowledged if the checksum holds and dropped if not |
| SlaveAutomaton.IdleReads | src/avr/bus.c:31-62 | what a waiting slave makes of each byte |
| SlaveAutomaton.AckLeadsTo | src/avr/sens.c:133-141 | the acknowledgement, and after it the sensor data of that moment for a GET and the next command for all others |
| SlaveAutomaton.Returning | src/avr/bus.c:67-71 | the return phase runs through the snapshot whatever the master clocks, and then waits |
| SlaveCode.SpiTranceive | src/avr/bus.c:20-28 | the buffer is swapped with the line in place: it holds the bytes received, and the automaton has taken exactly these |
| SlaveCode.TakeData | src/avr/bus.c:50-56 | the write data is accepted or dropped as the automaton has it |
| SlaveCode.SpiAccept | src/avr/bus.c:31-64 | what it returns, and leaves in the buffer, is the one command handed over, with its data; an invalid one leaves the slave waiting with nothing handed over |
| SlaveCode.SpiReturn | src/avr/bus.c:67-71 | puts checksum and data on the line as the automaton answers, and ends waiting |
| SlaveCode.SensInterrupt | src/avr/sens.c:128-143 | every interrupt is one whole transaction back to waiting, and clears the sensor data on a reset command only |
| SpiMaster.Link.Transfer | src/comm/spi.c:33-40 | one byte comes back for each byte sent, and the slave has taken the bytes in order |
| SpiMaster.Link.SpiSync | src/comm/spi.c:26-31 | the byte loop leaves the slave waiting if and only if it is as long as the slave's phase needs, and hands over exactly the command that was under way |
| SpiMaster.Link.Transmit | src/comm/bus.c:66-84 | from every phase of the slave: success if and only if the last byte heard is the acknowledgement, and a control slave on a line whose left-over bytes do not look like one has then been handed a command; from a waiting slave a write command arrives with exactly its bytes, succeeds, and leaves the slave waiting |
| SpiMaster.Link.Request | src/comm/bus.c:48-53 | the byte heard after the request, from every phase; from a waiting slave a request arrives and is acknowledged |
| SpiMaster.Link.ReadBack | src/comm/bus.c:54-55 | the bytes heard, from every phase; a returning slave's checksum byte and snapshot are read exactly, and without data the byte read is a left-over |
| SpiMaster.Link.Receive | src/comm/bus.c:45-64 | from every phase: success if and only if the request is acknowledged and the bytes heard pass as checksum and data, which are in the buffer once acknowledged; from a waiting slave, GET yields exactly the sensor data, and a request without data arrives and succeeds if and only if the left-over byte passes as a checksum |
| SpiMaster.Link.Attempt | src/comm/bus.c:148-171 | from every phase: success if and only if the slave's answer is the one asked for, and a failed attempt leaves the slave waiting; from a waiting slave every command is handed over exactly once, every write and every GET succeeds, and the slave waits again |
| OrderSteps.StepInv | src/comm/bus.c:95-174 | every locked section keeps the invariant: one entry per command, delivered before taken before queued by number, every order in one place |
| OrderSteps.RunKeepsInv | src/comm/bus.c:128-186 | so does every interleaving |
| OrderSteps.DeliveredInOrder | src/comm/bus.c:95-124 | orders of one command are delivered in the order they were scheduled: never an old value after a newer one |
| OrderSteps.NewestSurvives | src/comm/bus.c:93-124 | the newest order of every command has been delivered, is being sent, or waits |
| OrderSteps.OrdersAreConserved | src/comm/bus.c:88-171 | every order created is in exactly one place, so created = queued + taken + delivered + superseded + dropped |
| OrderSteps.OrdersAddUp | src/comm/bus.c:88-171 | the numbers of orders created, queued, in flight, delivered, superseded and dropped add up after every run |
| OrderSteps.WaitingMovesUp | src/comm/bus.c:98-122 | whatever is scheduled, replaced or requeued, a waiting command moves up with every take and with nothing else |
| OrderSteps.WaitingIsBounded | src/comm/bus.c:139-144 | a command at index i is attempted on exactly the (i+1)-th take |
| OrderSteps.OrderIsTaken | src/comm/bus.c:139-144 | the order itself is the one taken, if no newer one of its command is scheduled |
| OrderSteps.QueueIsShort | src/spi/protocol.h:66-102 | with commands from the tables at most 13 orders wait, so none starves another |
| OrderSteps.StopsWhenAsked | src/comm/bus.c:212-216 | termination is requested exactly by the termination step |
| OrderSteps.QuitsAtNextTake | src/comm/bus.c:136-144 | the worker quits with a take if and only if termination was requested before it |
| OrderBus.Bus.constructor | src/comm/bus.c:190-193 | starts empty, with an empty history |
| OrderBus.Bus.OrderDestroy | src/comm/bus.c:88-91 | frees an order that was not freed before |
| OrderBus.Bus.FindSlot | src/comm/bus.c:99-115 | stops at the entry of the command, or at the end, with the link that leads there |
| OrderBus.Bus.Splice | src/comm/bus.c:116-119 | rewires the list to hold the order in the place of the found one, or last; it stays acyclic and null-terminated |
| OrderBus.Bus.OrderQueue | src/comm/bus.c:95-124 | the list becomes exactly the abstract insertion; the order that gives way is freed, once, and no other |
| OrderBus.Bus.BusSchedule | src/comm/bus.c:248-265 | extends the history by one schedule; the order keeps its handler and a copy of the data to write |
| OrderBus.Bus.WorkerTake | src/comm/bus.c:138-144 | takes the first node off the list and reads the termination flag: the step Take |
| OrderBus.Bus.WorkerDone | src/comm/bus.c:156-171 | hands a delivered order with its buffer to the handler it was scheduled with, if any, and frees it, requeues a failed one, counts: the steps Succeed and Fail |
| OrderBus.Bus.RequestTermination | src/comm/bus.c:212-216 | sets the flag: the step Terminate |
| OrderBus.Bus.FreeQueue | src/comm/bus.c:225-232 | frees exactly the orders still queued, each once; then every order that was ever scheduled has been freed |
| BusWorker.Send | src/comm/bus.c:148-171 | an order counts as delivered if and only if the slave's answer, whatever the slave was doing, is the one asked for, for a write the acknowledgement of its scheduled bytes; from a waiting slave a write is delivered with exactly these, and a GET hands the sensor data to its handler; a failed order leaves its slave waiting |
| BusWorker.Round | src/comm/bus.c:136-174 | the same for the first order of the queue, which is taken and settled in one round; the history grows by exactly these steps |
| BusWorker.BusSync | src/comm/bus.c:239-242 | both slaves wait for a command afterwards, wherever they were |
| BusRuns.GivenOneMore | src/comm/bus.c:148-171 | one more order sent keeps the match between what a slave was handed and what was delivered to it |
| BusRuns.Settle | src/comm/bus.c:148-171 | so does the worker's code on the shared list and the links, from every state of them, and exactly that one order is handed over |
| BusRuns.FollowsLatest | src/comm/bus.c:158-161 | a handler that is given the reading of the moment keeps the readings given in order |
| BusRuns.ToldOneMore | src/comm/bus.c:158-161 | one more delivery keeps the calls of handlers matched, one for one and in order, with the delivered orders that were scheduled with one |
| BusRuns.Do | src/comm/bus.c:136-171 | an action adds to the record exactly what it stands for: what is scheduled with its data and handler, the take if the worker is free, the outcome of sending if it holds an order, a write and a GET delivered |
| BusRuns.HandsOverInTurn | src/comm/bus.c:139-171 | an order that waits at index i, and is not replaced, is handed to its slave with its own data by the (i+1)-th take from then on and the sending after it |
| BusRuns.AlwaysInOrder | src/comm/bus.c:95-174 | over every interleaving, the write orders delivered to a slave come, for each command, in the order they were scheduled |
| BusRuns.Operate | src/comm/bus.c:128-265 | over every interleaving of scheduling threads, worker and sensor readings, whatever is left over on either link, none of the actions left out: each slave is handed exactly the attempts at its orders, and its writes are exactly the write orders delivered to it, in order, each with the data it was scheduled with, so no actuator gets an old value after a newer one; each handler is called exactly once, in order, for each of its orders that is delivered, and no other; those of GET orders are given sensor readings, never an older one after a newer one |
| Tracker.Ip.IpReset | src/comm/ip/img_proc.cpp:110-122 | the tracker's initial state |
| Tracker.Ip.FollowLane | src/comm/ip/img_proc.cpp:438-470 | lane width and position for each combination of visible lines, within their limits |
| Tracker.SumUpwards | src/comm/ip/img_proc.cpp:475-490 | sums all lines, each turned upwards |
| Tracker.Ip.FollowDirection | src/comm/ip/img_proc.cpp:472-498 | lane and stop-line direction; the lane direction's y is never 0 |
| Tracker.Ip.TrackLine | src/comm/ip/img_proc.cpp:500-541 | the line is seen, extrapolated or lost, and passed exactly if a confirmed one leaves the mask at the bottom |
| Tracker.Ip.IpProcess | src/comm/ip/img_proc.cpp:438-549 | one frame is one step of the tracker, with its result |
| Tracker.UsualConstants | src/comm/ip/img_proc.cpp:49-79 | the constants for the default frame size |
| Tracker.OffsetMeasuresLane | src/comm/ip/img_proc.cpp:544 | the lane offset times the largest error is the lane's distance from the center, to the right |
| Tracker.OffsetPointsToLane | src/comm/ip/img_proc.cpp:443-470 | from the frame: the offset is positive, zero or negative as the middle of both lines, or the point half a lane width inside of one, is right of, at or left of the center; with no line visible it is -1 or 1 for an ignored side and the side of the last lane otherwise |
| Tracker.OffsetRises | src/comm/ip/img_proc.cpp:443-470 | moving the visible lines to the right never lowers the offset |
| Tracker.WidthIsDistance | src/comm/ip/img_proc.cpp:443-449 | the lane is as wide as its lines are apart, within its limits |
| Tracker.ResultTells | src/comm/ip/img_proc.cpp:543-549 | the reported distance is counted from the bottom in image heights; the flags are those of the line and of each side; a passed line was confirmed and, if seen, below the mask |
| Tracker.SeenLineIsFollowed | src/comm/ip/img_proc.cpp:505-511 | a line seen inside the mask is there, one step more certain up to the limit, and confirmed from the top fifth on |
| Tracker.LostLineComesBack | src/comm/ip/img_proc.cpp:506-515 | a certain line lost from sight is expected to stay if it was coming nearer, and back where it was if it was moving away |
| Tracker.LineCountsUpwards | src/comm/ip/img_proc.cpp:475-490 | a line counts from its lower to its upper end, whichever way round it is given |
| Tracker.UpwardsAdds | src/comm/ip/img_proc.cpp:473-490 | the lines of both sides add up |
| Tracker.DirectionFollowsLines | src/comm/ip/img_proc.cpp:473-498 | the lane runs as its lines, three times as steep, the stop line at right angles to it, half as long but for rounding; lines without height leave the lane straight ahead |
| Tracker.StopLiesOnLane | src/comm/ip/img_proc.cpp:502 | the estimated line's middle is a whole number of lane directions from the lane's center, less than one from the height in question |
| Tracker.RunStaysBounded | src/comm/ip/img_proc.cpp:448-541 | over every run after a reset, with the options set to anything between frames: certainty in 0..20, lane within its error, lane direction upwards, and from the first frame on the line inside the mask |
| Tracker.FrameKeepsBounds | src/comm/ip/img_proc.cpp:544 | each frame keeps these bounds and reports a lane offset in [-1, 1] |
| Tracker.ResetInsideMask | src/comm/ip/img_proc.cpp:115 | for every frame size, the exact condition under which the initial estimate lies inside the mask; the default size fails it |
| Tracker.UnseenLineExpires | src/comm/ip/img_proc.cpp:512-520 | an unseen line stays confirmed for at most thresh_stop_vis - 1 frames, whatever the options |
| Tracker.StillLineLasts | src/comm/ip/img_proc.cpp:512-520 | an unseen line that was not moving stays confirmed if and only if its certainty still exceeds the threshold, whatever the options |
| Tracker.PassageUsesConfirmation | src/comm/ip/img_proc.cpp:505-537 | passing needs and uses up a confirmation, and no frame both confirms a line and passes it |
| Commands.NameIdentifies | src/comm/objective.c:187-194 | every command is found under its own name |
| Commands.NamesAreAgreed | src/remote/course.py:24-30 | the six names, the same as in the car's table |
| Executor.CmdIgnore | src/comm/objective.c:44-51 | finished if and only if the line is passed; nothing else changes |
| Executor.CmdStop | src/comm/objective.c:53-67 | finished if and only if behind the line and last or waited PICKUP_TIME; velocity 0 whenever behind the line, untouched while no line is in sight before it |
| Executor.CmdPark | src/comm/objective.c:72-106 | finished if and only if far enough in as the last command, or far enough out; moves on if and only if far enough in with more to come, or after PICKUP_TIME in place |
| Executor.CmdEnter | src/comm/objective.c:108-118 | finished if and only if 0.1 m behind the line, and the left line is ignored exactly up to there; nothing else changes |
| Executor.CmdContinue | src/comm/objective.c:120-135 | finished if and only if 0.7 m behind the line; the right line is ignored exactly up to there and when a line is seen before it; nothing else changes |
| Executor.CmdExit | src/comm/objective.c:137-150 | finished if and only if 0.5 m behind the line; the left line is ignored exactly up to there and when a line is seen before it; nothing else changes |
| Executor.CommandsKeepToTheirOwn | src/comm/objective.c:44-150 | no command ignores both lane lines; only stop and park change the velocity, only park the steering; a finishing command other than park ignores nothing |
| Executor.ConstantsAre | src/comm/objective.c:9-18 | waiting time, speeds and steering of the commands |
| Executor.QueueCreate | src/comm/objective.c:207-240 | the commands of the names, or nothing if a name is unknown |
| Executor.LookUp | src/comm/objective.c:218-227 | finds the table's first command of that name, if there is one |
| Executor.NamesQueue | src/comm/objective.c:207-240 | the names of any mission are accepted and rebuild it |
| Executor.Obj.constructor | src/comm/objective.c:244-258 | idle before the line, with no mission |
| Executor.Obj.ObjSetMission | src/comm/objective.c:322-351 | accepts exactly the missions of known names, replaces or appends, and restarts position and tracker; a rejected mission changes nothing |
| Executor.Obj.RunCurrent | src/comm/objective.c:392-425 | the command acts on position, control values and options; a finished one makes way |
| Executor.Obj.ObjExecute | src/comm/objective.c:354-444 | one frame is dispatch, one tracker step, a possibly passed line and one step of the command; state, control values and options follow |
| Drive.ActFacts | src/comm/objective.c:44-150 | commands finish only behind the line; only a park moves the position, one step, between AFTER_STOP and UNPARKING |
| Drive.ExecuteFacts | src/comm/objective.c:360-425 | the position is never before BEFORE_STOP, and is BEFORE_STOP after every finished command and whenever one is dispatched |
| Drive.FrameKeepsFifo | src/comm/objective.c:360-425 | finished, current and queued commands together stay the assigned ones, in order |
| Drive.MissionKeepsFifo | src/comm/objective.c:322-351 | replacing and appending keep that, and a rejected mission changes nothing |
| Drive.TrackerStaysBounded | src/comm/ip/img_proc.cpp:448-541 | the tracker's bounds over every stretch of every drive, with the options the commands set and the resets of mission changes; the line inside the mask after each frame |
| Drive.SteeringStaysBounded | src/comm/objective.c:387-410 | in every frame of every drive, lane offset and commanded steering lie in [-1, 1] |
| Drive.UnseenLineIsForgotten | src/comm/ip/img_proc.cpp:512-520 | on a drive, too, an unseen line stays confirmed for at most thresh_stop_vis - 1 frames |
| Drive.TrackerRunsThroughShots | src/comm/objective.c:378-410 | between mission changes the tracker of a drive is the tracker run through its frames with the options they met |
| Drive.StepSpends | src/comm/objective.c:381-425 | no step finishes a command without a passed line of its own, or passes a line without a sighting of its own |
| Drive.LinesAreAccounted | src/comm/objective.c:381-425 | over any stretch of any drive: finished <= passed <= confirmed, up to what was under way |
| Drive.CompletionsAreCovered | src/comm/ip/img_proc.cpp:505-537 | from the start: finished <= passed <= confirmed, so one sighting never finishes two commands |
| Drive.AppendingWastesLine | src/comm/objective.c:326-342 | appending sends a command that has had its line back before it: exactly then the line it had is spare |
| Drive.NewFrameOk | src/comm/objective.c:381-425 | a stop with more to come finishes only PICKUP_TIME after the latest line, with velocity 0 in every frame since; a park leaves its place only PICKUP_TIME after it came there, with velocity 0 since, or in a frame that passes a line |
| Drive.FrameBehaves | src/comm/objective.c:44-150 | in every frame velocity, steering, end and position are, for each command, those that position, visible line, speed, waiting time and way say; without a command velocity 0 |
| Drive.FrameKeepsClock | src/comm/objective.c:381-416 | behind its line a command goes by the time and the way since the last frame in which a line was passed or the position moved |
| Drive.DriveKeepsPromises | src/comm/objective.c:354-444 | all of this, with that exception for a park, holds in every frame of every drive, whatever the frames and mission changes |
| Drive.FinishedCarStands | src/comm/objective.c:387-431 | after a finished mission velocity 0 is commanded in every frame until the mission changes |
| Drive.OvershotParkNeverEnds | src/comm/objective.c:73-105 | a park past its last position stays current, with the same queue, and nothing finishes, until the mission changes |
| Drive.LeavesParked | src/comm/objective.c:91-95 | a parked park moves on if and only if it waited PICKUP_TIME or passes a line; with the line it drives off at full speed, otherwise velocity is 0 |
| Drive.OvershootsWhenPassing | src/comm/objective.c:381-385 | a park gets past its last position if and only if it passes a line while it unparks |
| Drive.FinishesUnparking | src/comm/objective.c:96-103 | an unparking park finishes in a frame if and only if that passes no line and is 0.25 m on |
| Journeys.ViewIsPictured | src/comm/ip/img_proc.cpp:276-321 | with the default camera looking ahead, a level stop line close to the estimate and an upright side line that is not ignored are segments inside the region of interest, long enough, which the classifier takes for what they are |
| Journeys.Glance | src/comm/ip/img_proc.cpp:505-541 | what one such frame does: it is admitted, keeps the tracker looking ahead, and passes the line if and only if that is confirmed and below the mask |
| Journeys.PassLine | src/comm/ip/img_proc.cpp:505-537 | frames, each admitted, in which a line comes down the mask and is passed in the last of them only, from every state of the tracker |
| Journeys.FinishCommand | src/comm/objective.c:72-106 | frames that can happen, at moments that never go back, that finish the current command, from each of its positions, unless it is a park past its last one |
| Journeys.CommandCanFinish | src/comm/objective.c:72-106 | some continuation by such frames finishes the current command if and only if it is not a park past its last position |
| Journeys.MissionCanFinish | src/comm/objective.c:354-444 | some continuation by frames that can happen finishes all that is left of the mission, in order, if and only if no park is past its last position |
| Journeys.DrivesCanFinish | src/comm/objective.c:354-444 | so it is at every point of every drive, whatever happened before |
| Journeys.DriveWithoutDwelling | src/comm/objective.c:381-385 | for every camera of more than 10 rows, frames from the start of a drive that can happen, after which a park leaves its place at full speed without waiting |
| Journeys.DriveWithoutEnd | src/comm/objective.c:381-385 | for every camera of more than 10 rows, frames from the start of a drive that can happen, after which no frames finish the park |
| Drive.Perform | src/comm/objective.c:322-444 | the executor and tracker objects go through one event as the record says, and command the velocity and steering on record, velocity 0 if there is nothing to do |
| Drive.PerformAll | src/comm/objective.c:322-444 | a whole drive of the objects is a run of the record, so the promises hold of them |
| Text.SplitJoin | src/remote/worker.py:91 | splitting undoes joining for parts without the separator |
| Tokeniser.StrtokR | src/comm/server.c:169-170 | one call finds the first token, ends it in place and writes nothing else; what is left is what comes next |
| Tokeniser.TokensOfJoined | src/comm/server.c:186-197 | arguments survive joining and tokenising if and only if none is empty or contains the separator |
| Server.Lookup | src/comm/server.c:172-179 | the first command of that name |
| Server.CollectArgs | src/comm/server.c:186-198 | pointers to all arguments in order, each standing in the message, ended |
| Server.ParseCmd | src/comm/server.c:166-209 | the in-place parser agrees with the meaning of the request text: command, arguments, too few, unknown |
| Server.ExecuteCmd | src/comm/server.c:216-253 | the reply is the framed answer of the action, or of the error; there is none, for the null pointer, if and only if the table has a command and the request is nothing but colons |
| Server.NullNameExactly | src/comm/server.c:169-175 | the null pointer is compared if and only if the table has a command and the request is nothing but colons |
| Server.RequestRoundTrip | src/remote/remote.py:102-104 | the server reads exactly command and arguments sent, if and only if no argument is empty or has a comma and there are enough |
| Server.ReplyRoundTrip | src/remote/remote.py:87-89 | the client reads exactly the success flag and the text of every reply, colons included |
| Server.ClientIsAnswered | src/comm/server.c:216-253 | a whole exchange: the client reads the success flag and the text that the command's action reports on exactly the arguments sent, or that the command is unknown, or that arguments are missing |
| MissionText.StrCpy | src/comm/objective.c:304 | copies a string with its terminator, and writes nowhere else |
| MissionText.ObjRemaining | src/comm/objective.c:286-320 | null if and only if nothing is left; otherwise the names, current first, separated by blanks, in a buffer of exactly count*NAME_LEN, never written outside |
| MissionText.RemainingRoundTrip | src/remote/worker.py:88-95 | the text splits into exactly the names left, and they rebuild the same queue |
| Regulator.PdValues.TakeError | src/avr/ctrl.c:140-146 | the few running values yield the textbook PID of the whole error history |
| Regulator.PdValues.Forget | src/avr/ctrl.c:147-151 | a value request empties the history |
| Regulator.Controller.ResetAll | src/avr/ctrl.c:62-75 | default gains, no history, neutral outputs |
| Regulator.Controller.SetOutput | src/avr/ctrl.c:164-175 | the limited value as timer value on its channel only |
| Regulator.Controller.Regulate | src/avr/ctrl.c:136-175 | after an error or a value, gains, running values and both outputs are those of the longer history |
| Regulator.Controller.SetGain | src/avr/ctrl.c:176-182 | so it is after a gain |
| Regulator.Controller.Dispatch | src/avr/ctrl.c:123-186 | so it is after every command byte |
| Regulator.OutputsAreBounded | src/avr/ctrl.c:164-175 | over every history the speed output is in 1400..1600 and the steering output in 1000..2000 |
| Regulator.CommandsAreRead | src/spi/protocol.h:54-64 | what each command byte of the bus asks for, on which channel |
| Regulator.PwmMarks | src/avr/ctrl.c:169-174 | the timer values in the middle and at the ends of both ranges, and on which side of the middle others lie |
| Regulator.ValueRaisesOutput | src/avr/ctrl.c:147-174 | after a value request, with any history, the output never falls when the value rises |
| Regulator.ValueSetsSide | src/avr/ctrl.c:153-174 | it is above 1500 for a positive value and below for a negative one as soon as that makes a step; forward speeds start at 1530; full values give exactly 2000 and 1000, 1600 and 1400 |
| Regulator.ErrorRaisesOutput | src/avr/ctrl.c:140-174 | with gains that are not negative, after an error, with any history, the output never falls when the error rises |
| Regulator.PidOfLastTwo | src/avr/ctrl.c:77-83 | the last error counts for itself and for its change from the one before |
| Regulator.FirstErrorAfterReset | src/avr/ctrl.c:62-83 | after a reset a first steering error counts 4.4 times and a first speed error once |
| Regulator.GainsAreUsed | src/avr/ctrl.c:176-182 | gains that are set are used from then on, each in its own place |
| Regulator.ChannelsAreIndependent | src/avr/ctrl.c:134-181 | leaving out all commands for the other channel changes nothing on this one |
| Regulator.FirstErrorStartsAfresh | src/avr/ctrl.c:147-151 | the first error after a value request is regulated as if it were the first ever, with previous error 0 |
| Regulator.FirstErrorIsItsOwnChange | src/avr/ctrl.c:77-83 | so that output is the error times both gains, limited |
| Actuators.Obey | src/avr/ctrl.c:123-186 | the command loop, fed what the bus hands over, has exactly that as its history |
| Actuators.OperateModule | src/avr/ctrl.c:123-186 | over every interleaving of the bus: both timer outputs are those of the regulator's history made of the attempts at its orders with their data, and in range |
| Actuators.StandsStill | src/avr/ctrl.c:147-175 | from a request for velocity 0 on, the speed output is neutral until another command concerns the speed |
| EndToEnd.PlanMission | src/remote/gui.py:97-98 | route, clearing and compiling together: a cheapest route, and a mission unless an inner node is last; an empty mission without a route |
| Tasks.TaskQueue.PutTask | src/remote/tasks.py:26-29 | the task goes on top |
| Tasks.TaskQueue.GetTask | src/remote/tasks.py:41-42 | the task given last is the next one sent |
| Tasks.OrderIsKept | src/remote/tasks.py:17-42 | once all tasks are taken, they were taken in the order given if and only if each was given to an empty queue |
| Tasks.NewestFirst | src/remote/tasks.py:17-42 | two tasks given while the worker is busy are taken the other way round |
| EndToEnd.MissionArrives | src/comm/main.c:78-82 | a mission that is sent is parsed to exactly its names and queued as exactly its commands behind those left |
| EndToEnd.CountIsRemaining | src/comm/main.c:67-70 | the client counts exactly the commands left, through printing, framing and splitting |
| EndToEnd.LeftIsSuffix | src/comm/objective.c:286-296 | what is left on a drive is the tail of all missions appended |
| EndToEnd.DisplayFollowsDrive | src/remote/gui.py:163-167 | as long as commands are left, the nodes shown for the count read are those of the commands left, with one in front, if the missions since the last clearing arrived in the order of the paths; once none is left, the display stays as it was |
| EndToEnd.DisplayFollowsClicks | src/remote/gui.py:95-105 | so it is from the clicks on the map since the last clearing, if each task, clearings included, was given to an empty queue and all have been taken |
| EndToEnd.CarriedIsAppended | src/remote/worker.py:97-102 | the missions that count on a drive are those sent since the last clearing that arrived |
| EndToEnd.ClearingOvertaken | src/remote/gui.py:412-416 | a clearing that waits when a mission is clicked reaches the car after it and wipes it |

## Left out

- Image analysis (thresholds, edges, Hough lines, classification, medians, plotting, recording): what it finds in a frame is an arbitrary input.
- The map editor but for adding edges, drawing, and the client's tasks but for missions; sockets, select, device calls, registers, timers, ADC, LCD and the disabled kill switch: I/O without logic to prove.
- Tracker.Ip.IpProcess: an empty camera frame, on which the code returns early and leaves its result unset, is not a frame of the model.
- Tracker.RunStaysBounded: integers do not overflow, and frames have at least 3 columns and one row.
- Course.ClosestPath: costs are real numbers, non-negative as the map editor enforces (src/remote/gui.py:185-189), and course nodes are distinct; float infinities, NaN and rounding are not modelled.
- Mission.RemainingNodesAlign: a negative count does not occur; the drawing of the shortened path is not modelled.
- Protocol.EvenCheckReadsNoData: no corruption is detected for even lengths, so none is claimed to be.
- SpiMaster.Link.Receive: success of a request without data is stated by its exact condition only, because the code does not ensure it.
- SpiMaster.Link.Attempt: bytes are exchanged in lockstep on a clean line.
- SpiMaster.Link.SpiSync: SPI timing and interrupt latency are not modelled.
- SlaveCode.SpiReturn: stated for the sensor data, the one thing the slaves return.
- BusWorker.Round: no other thread schedules between the two locked sections of this round; `BusRuns.Operate` covers those interleavings. The slave is resynchronised before the failed order is requeued, not after; the two touch nothing in common.
- OrderBus.Bus.BusSchedule: the uninitialised buffer of a read order holds zeros; commands are compared as table entries instead of by their addresses, since one source file schedules all of them.
- OrderBus.Bus.WorkerDone: what a handler does is not modelled, only that it is called, once, and with what.
- BusRuns.Operate: both slaves start out waiting for a command, as they do after `BusWorker.BusSync`, and the line is clean; that a reset order clears the sensor data is one of the changes that sensor data may undergo at any time.
- Actuators.OperateModule: how four bytes encode a number is an arbitrary function.
- OrderSteps.RunKeepsInv: mutexes and condition variables appear as atomic steps; sleeping and waking up do not appear.
- Executor.Obj.ObjSetMission: the command list is a sequence, so the leak of dispatched list items is not visible; the same holds for `Executor.QueueCreate`.
- Executor.Obj.ObjExecute: floats are real numbers, and the image processing and SPI build switches are on.
- Server.ParseCmd: the capacity of the argument and receive buffers is not modelled, and arguments are kept as a sequence of positions.
- Server.ExecuteCmd: actions are arbitrary functions of their arguments.
- Regulator.OutputsAreBounded: floats are real numbers, and the timer's top value is that of a 16 MHz clock (src/Makefile:18).
- Tasks.TaskQueue.GetTask: tasks other than sending and clearing missions, which the same queue carries, do not change the order of those among themselves and do not appear.
- EndToEnd.DisplayFollowsClicks: the condition is sufficient; that the order is kept only under it is `Tasks.OrderIsKept`, but a display can be right by chance.
- Journeys.DrivesCanFinish: with other cameras than the default one, or while the tracker looks aside, only the rows of the stop lines are held against the classifier, not their angle and position across; how fast the car moves between frames is not restricted.
- Journeys.ViewIsPictured: of the lines that the classifier accepts, those exactly along the lane or at right angles to it.
- EndToEnd.DisplayFollowsDrive: the drawing of the shown nodes and lost replies are not modelled; with no reply the code leaves the map as it was.
- Reading and setting the active flag, and the manual mode of the main loop: the flag gates whole calls of the executor, and the manual mode passes two numbers on, without any state of their own.
