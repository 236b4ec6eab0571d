# wsnsimpy core, modelled in Dafny

WsnSimPy simulates wireless sensor networks on top of SimPy. This project models its
core and proves properties of the model:

- **Neighbour index** (`neighbor_index.dfy`, `simulation.dfy`). The `Simulator` keeps,
  for every node, a list of `(distance, node)` pairs in ascending order. `add_node`
  and `Node.move` keep that list up to date through `update_neighbor_list`:
  - in every other node's list, the moved node's stale pair is deleted and its fresh
    pair is insorted;
  - the moved node's own list is rebuilt and sorted.
- **Node.send and Node.neighbors**. Both scan a node's list up to the first pair that
  is out of range. `send` schedules `on_receive` at every addressed neighbour in
  range, after `dist / 1e6` seconds.
- **Protocol stack** (`pdus.dfy`, `phy.dfy`, `mac.dfy`, `layered.dfy`). PDUs are
  wrapped by the NET and MAC layers, each adding 64 header bits.
  - `DefaultPhyLayer` handles airtime and propagation when sending. When receiving it
    keeps a count of receptions in progress, a shared collision flag, a busy-period
    sentinel and a bit-error draw.
  - `DefaultMacLayer` keeps a FIFO queue, drained by a persistent-CSMA process with
    exponential backoff. A unicast frame waits for an ack and is retried if none comes.
  - `DefaultNetLayer` wraps and unwraps the NET unit.
  - `LayeredNode` wires the three layers together.
- **Topology-visualiser helpers** (`topovis.dfy`). `Color` parsing, indexing and
  printing; the option checking of `LineStyle`, `FillStyle` and `TextStyle`; and
  `computeLinkEndPoints`.

How the model represents the source:

- **Node references** become node ids. A node's id is its index in `Simulator.nodes`,
  so `neighbor is me` is id equality.
- **Distance** is a function the simulator holds. It is required to be symmetric and
  non-negative, which is what the Euclidean distance of the source provides. The
  order on pairs is the tuple order: distance first, then node id. The id comparison
  is `Node.__lt__`.
- **Scheduled calls.** What `delayed_exec` schedules becomes a returned list of
  records: `Delivery` for `Node.send`, and `PhyEvent` for `send_pdu`.
- **The MAC drain process** becomes an explicit state machine over `Phase`. Each step
  function covers the stretch of the process between two waits.
- **Random draws are parameters.** These are `randrange` for the backoff slot counts
  and `random()` for the bit-error test.

For every state-changing layer there are two parts:

- A pure step function on a state record, such as `Phy.RxEndStep` or
  `Mac.ReceiveStep`, whose lemmas state the properties.
- A class whose methods change its fields exactly as that step function says.

The busy-period sentinel follows the code. A reception that begins at time 0 leaves
the sentinel at 0, so it is read as "idle" at the next start of reception.
`Phy.Tracks` therefore ties the sentinel to the busy period only when that period did
not begin at time 0.

## Model

| member | source | states |
|---|---|---|
| NeighborIndex.BisectRight | wsnsimpy/wsnsimpy.py:418 | on a sorted list, returns the insertion point: every pair before it is not above the new pair, and every pair from it on is above |
| NeighborIndex.Insort | wsnsimpy/wsnsimpy.py:418 | the result is the old pairs plus the new one (as a multiset), still sorted; strictly sorted when the new pair was absent |
| NeighborIndex.SortEntries | wsnsimpy/wsnsimpy.py:424 | the result is a sorted permutation of its input, strictly sorted when the input has no repeated pair |
| NeighborIndex.SortedSameMembersEqual | wsnsimpy/wsnsimpy.py:424 | two strictly ascending lists with the same pairs are equal, so any correct sort (list.sort included) gives the same list |
| NeighborIndex.RemoveNeighbor | wsnsimpy/wsnsimpy.py:411-415 | the scan deletes the first pair of the given node and stops, leaving the list unchanged when there is none |
| NeighborIndex.RemoveFirstProperties | wsnsimpy/wsnsimpy.py:411-415 | deleting a node's pair from a list with distinct ids removes exactly that node, shortens the list by one exactly when the node was listed, and keeps strict order |
| NeighborIndex.CanonicalIdsDistinct | wsnsimpy/wsnsimpy.py:396-424 | a settled neighbour list names every node at most once |
| NeighborIndex.CanonicalIsNeighborList | wsnsimpy/wsnsimpy.py:396-424 | a settled list has one pair per other node, holding its distance, and never names the node itself |
| NeighborIndex.CanonicalUnique | wsnsimpy/wsnsimpy.py:396-424 | the settled list is determined by the positions alone |
| NeighborIndex.InRange | wsnsimpy/wsnsimpy.py:78-82 | the scan's result is the longest prefix of the list within range: every pair in it is within range, and the next pair is not |
| NeighborIndex.InRangeIsFilter | wsnsimpy/wsnsimpy.py:78-82 | on a sorted list the scan keeps exactly the pairs within range |
| Simulation.DeliveriesBroadcast | wsnsimpy/wsnsimpy.py:64-72 | a broadcast schedules one delivery per in-range pair, in list order, from the sender with delay dist/1e6, carrying the arguments sent |
| Simulation.DeliveriesMembers | wsnsimpy/wsnsimpy.py:64-72 | a delivery is scheduled exactly for the in-range pairs the destination addresses |
| Simulation.DeliveriesUnicast | wsnsimpy/wsnsimpy.py:64-72 | on a list with distinct ids a unicast schedules at most one delivery, to dst, and one exactly when dst is among the in-range pairs |
| Simulation.Node.constructor | wsnsimpy/wsnsimpy.py:37-42 | a new node has its id, position and range, and an empty neighbour list |
| Simulation.Node.Neighbors | wsnsimpy/wsnsimpy.py:75-83 | the neighbours are the ids of the in-range prefix of the list, in list order |
| Simulation.Node.Send | wsnsimpy/wsnsimpy.py:64-72 | the loop schedules exactly the deliveries of the in-range prefix to the addressed nodes, each carrying the arguments sent |
| Simulation.StaleRemoved | wsnsimpy/wsnsimpy.py:411-415 | deleting the moved node's stale pair from a settled list leaves every other node's pair, at its unchanged distance, in strict order |
| Simulation.FreshInserted | wsnsimpy/wsnsimpy.py:418 | insorting the moved node's fresh pair into that list settles it for the new positions |
| Simulation.OwnListSettles | wsnsimpy/wsnsimpy.py:420-424 | the rebuilt and sorted list of the moved node is its settled list |
| Simulation.SettledNeighbors | wsnsimpy/wsnsimpy.py:75-83 | on a settled list, `neighbors` is every other node within range, each once, nearest first |
| Simulation.SettledSendReach | wsnsimpy/wsnsimpy.py:64-72 | on a settled list, node j gets a delivery (with the arguments sent) exactly when it is another node, the destination addresses it, and it is within range |
| Simulation.SettledSendSound | wsnsimpy/wsnsimpy.py:64-72 | on a settled list, every delivery comes from the sender, carries the arguments sent, is addressed, is delayed by distance/1e6, goes to a node in range, and no node gets two |
| Simulation.Simulator.constructor | wsnsimpy/wsnsimpy.py:367 | a new simulator has no nodes and its index is settled |
| Simulation.Simulator.AddNode | wsnsimpy/wsnsimpy.py:388-393 | the new node gets id len(nodes) and is appended; every list is settled afterwards; no other node moves |
| Simulation.Simulator.Move | wsnsimpy/wsnsimpy.py:110-112 | the node takes its new position; every list is settled afterwards; no other node moves |
| Simulation.Simulator.UpdateNeighborList | wsnsimpy/wsnsimpy.py:396-424 | from lists settled for the layout before one node moved or was added, every list is settled for the new layout; with no change in position nothing changes |
| Simulation.Simulator.ReinsertEverywhere | wsnsimpy/wsnsimpy.py:404-418 | every other node's list is settled for the new layout, and the moved node's own list is not touched |
| Simulation.Simulator.OwnPairs | wsnsimpy/wsnsimpy.py:420-423 | one pair per other node, in node order, holding the distance from that node to the moved one, with no repeats |
| Pdus.StackRoundTrip | wsnsimpy/wsnsimpy.py:347-350 | an n-bit message (512 by default) leaves the MAC as n + 128 bits, and unwrapping the frame gives back the sender, the message and the `nbits` keyword as given |
| Phy.ReceptionsPaired | wsnsimpy/wsnsimpy.py:166-174 | each in-range neighbour gets a start of reception after dist/3e8 and an end one airtime later, in list order |
| Phy.ScheduleReceptions | wsnsimpy/wsnsimpy.py:166-174 | the loop schedules exactly the receptions of the in-range prefix |
| Phy.RxEndCountsOnce | wsnsimpy/wsnsimpy.py:192-207 | every end of reception adds one to exactly one of received, error or collision, and the count of receptions in progress drops by one |
| Phy.InitialTracks | wsnsimpy/wsnsimpy.py:146-147 | a fresh PHY agrees with an empty history |
| Phy.ClearMeansIdle | wsnsimpy/wsnsimpy.py:212-214 | cca is true exactly when no reception is in progress |
| Phy.RxStartTracks | wsnsimpy/wsnsimpy.py:182-190 | a start of reception keeps the count, collision flag and busy sentinel in agreement with the history |
| Phy.RxEndDecides | wsnsimpy/wsnsimpy.py:192-207 | a unit is lost to collision exactly when its reception overlapped another; it reaches the MAC exactly when it overlapped nothing and the draw accepts it; the busy time grows by the busy period when the last reception ends |
| Phy.OverlapBothCollide | wsnsimpy/wsnsimpy.py:182-207 | two overlapping receptions at an idle receiver are both counted as collisions and neither is received |
| Phy.AcceptanceAtBerBounds | wsnsimpy/wsnsimpy.py:200 | with ber 0 every draw accepts; with ber 1 no draw accepts a non-empty unit |
| Phy.PhyLayer.constructor | wsnsimpy/wsnsimpy.py:142-157 | a new PHY has its bitrate and ber, no reception in progress, and zero statistics |
| Phy.PhyLayer.SendPdu | wsnsimpy/wsnsimpy.py:159-174 | schedules its own end of transmission after nbits/bitrate seconds, then the receptions; counts one transmission, its bits and its airtime |
| Phy.PhyLayer.OnRxStart | wsnsimpy/wsnsimpy.py:182-190 | the new state is the start-of-reception step of the old one |
| Phy.PhyLayer.OnRxEnd | wsnsimpy/wsnsimpy.py:192-207 | the new state and outcome are those of on_rx_end up to the hand-off to the MAC: a collision or an error (draw not below (1-ber)^nbits) is counted, a received unit is not yet counted |
| Phy.PhyLayer.CountReceivedUnit | wsnsimpy/wsnsimpy.py:202-203 | after the MAC has taken the unit, one more reception and its bits are counted, and nothing else changes |
| Phy.PhyLayer.Cca | wsnsimpy/wsnsimpy.py:212-214 | clear exactly when no reception is in progress, with nothing changed |
| Mac.InitialCoherent | wsnsimpy/wsnsimpy.py:223-233 | a fresh MAC satisfies the queue/ack-event invariant |
| Mac.SendAppends | wsnsimpy/wsnsimpy.py:274-283 | one frame, 64 bits larger, addressed to dst and carrying the unit, is appended at the tail; the drain process starts exactly when the queue was empty; the invariant holds |
| Mac.BackoffRoundSends | wsnsimpy/wsnsimpy.py:241-272 | the wait is under k slots; a busy channel doubles the window and sends nothing; a clear one sends the head; a broadcast head then leaves the queue and is counted, a unicast head waits for its ack for its airtime plus 1 ms; the invariant holds |
| Mac.AckWaitDecides | wsnsimpy/wsnsimpy.py:250-267 | the unicast head leaves the queue and is counted exactly when its ack arrived; otherwise it stays, retries grows by one and the retry wait is under 2^retries slots; the invariant holds |
| Mac.RetryKeepsHead | wsnsimpy/wsnsimpy.py:264-272 | after a missed ack the same head is contended for again from a window of one, and the retransmission is counted |
| Mac.ReceiveDispatch | wsnsimpy/wsnsimpy.py:285-303 | data for another node is dropped unchanged; broadcast data is handed up and counted; unicast data for this node is handed up and answered by one ack for it; an ack fires the event exactly when it names the awaited frame, and is an error when the event has already fired |
| Mac.AckExchange | wsnsimpy/wsnsimpy.py:286-303 | the node a unicast head is addressed to hands it up and answers with an ack for it; that ack fires the sender's pending ack event, and when the wait ends the head leaves the sender's queue, counted once as a unicast sent |
| Mac.ForeignAckIgnored | wsnsimpy/wsnsimpy.py:301-303 | an ack for a frame this node did not send changes nothing |
| Mac.MacLayer.constructor | wsnsimpy/wsnsimpy.py:223-233 | a new MAC has an empty queue, no ack event and zero statistics |
| Mac.MacLayer.SendPdu | wsnsimpy/wsnsimpy.py:274-283 | the new state is the send step of the old one; the invariant is kept |
| Mac.MacLayer.BackoffRound | wsnsimpy/wsnsimpy.py:241-272 | the new state, wait and frame sent are those of the backoff step; the invariant is kept |
| Mac.MacLayer.AckWaitOver | wsnsimpy/wsnsimpy.py:259-267 | the new state and retry wait are those of the ack-wait step; the invariant is kept |
| Mac.MacLayer.RetryWaitOver | wsnsimpy/wsnsimpy.py:266-272 | the new state is that of the retry step; the invariant is kept |
| Mac.MacLayer.OnReceivePdu | wsnsimpy/wsnsimpy.py:285-303 | the new state and receipt are those of the receive step, or an error leaving the state unchanged |
| Layered.NetLayerRoundTrip | wsnsimpy/wsnsimpy.py:315-323 | the NET unit handed down is 64 bits larger than the application unit and addressed from the sender to dst; the receiving side hands the same message and `nbits` keyword up with the MAC source |
| Layered.MessageDelivery | wsnsimpy/wsnsimpy.py:347-355 | a message sent from a to b becomes a frame of n + 128 bits; it is handed up at b as a call from a with the same message and the same `nbits` keyword, exactly when the destination is b or broadcast; it is acked exactly when unicast; any other node drops it |
| Layered.LayeredNode.constructor | wsnsimpy/wsnsimpy.py:331-335 | a layered node gets a fresh PHY (250 kbit/s, ber 0) and MAC, both in their initial state |
| Layered.LayeredNode.Send | wsnsimpy/wsnsimpy.py:347-350 | the message is queued at the MAC as the wrapped stack frame at the tail, starting the drain process exactly when the queue was empty |
| Layered.LayeredNode.BackoffRound | wsnsimpy/wsnsimpy.py:241-248 | one backoff round uses this node's cca; when the channel is clear the head goes out through this node's PHY, which counts it |
| Layered.LayeredNode.OnRxEnd | wsnsimpy/wsnsimpy.py:192-207 | only a received unit reaches the MAC; a delivered one is handed to the application and its ack is transmitted through the PHY; the reception is counted only when the MAC returns, and not when it raises |
| Topovis.MakeColor | wsnsimpy/topovis/common.py:12-16 | a string gives one component per ','-separated piece, each the number it reads as, and raises exactly when some piece is not a number; a tuple is kept as it is; any other value leaves the colour without components |
| Topovis.ColorItem | wsnsimpy/topovis/common.py:18-19 | indexing succeeds exactly for an index from -n to n-1 of a colour with n components, and gives the component at that index modulo n |
| Topovis.ColorStringPieces | wsnsimpy/topovis/common.py:21-22 | str succeeds exactly when the colour has components; when there is at least one component and none prints with a ',', its result splits at ',' into the components' string forms |
| Topovis.JoinSplit | wsnsimpy/topovis/common.py:14 | joining the pieces of a split gives back the string |
| Topovis.SplitJoin | wsnsimpy/topovis/common.py:22 | splitting the join of comma-free pieces gives back the pieces |
| Topovis.ParseAll | wsnsimpy/topovis/common.py:14 | parsing succeeds exactly when every piece is a number, and gives one component per piece |
| Topovis.TupleColorIndexing | wsnsimpy/topovis/common.py:15-19 | a tuple colour is stored unchanged; indexing gives each component, counting from either end, and any other index is an error |
| Topovis.ColorStringRoundTrip | wsnsimpy/topovis/common.py:12-22 | a colour built from a string has one component per piece, and when each piece prints back as itself, str gives back the string |
| Topovis.NonColorHasNoComponents | wsnsimpy/topovis/common.py:12-22 | a colour built from anything but a string or tuple has no components, so indexing and str are errors |
| Topovis.OptionsChecked | wsnsimpy/topovis/common.py:44-48 | style construction succeeds exactly when every key is an accepted option; otherwise it raises for the first key that is not |
| Topovis.OptionsOverride | wsnsimpy/topovis/common.py:44-46 | each attribute of a constructed style is the value of the last argument naming it, or else its default; no other attribute exists |
| Topovis.SetOptions | wsnsimpy/topovis/common.py:44-48 | the loop computes the option-checked attributes |
| Topovis.NewLineStyle | wsnsimpy/topovis/common.py:39-48 | LineStyle accepts color, dash, width and arrow, over the defaults |
| Topovis.NewFillStyle | wsnsimpy/topovis/common.py:61-67 | FillStyle accepts only color, over a default of None |
| Topovis.NewTextStyle | wsnsimpy/topovis/common.py:78-84 | TextStyle accepts color, font and size, over a default colour of black |
| Topovis.StyleDefaults | wsnsimpy/topovis/common.py:39-43 | with no arguments a line is black, solid, one wide and arrowless; a fill has no colour; a text is black; a text has a font or size only when an argument gives one |
| Topovis.LinkEndPointsSymmetric | wsnsimpy/topovis/common.py:107-125 | swapping the source and destination swaps the two end points, so a link is drawn the same in either direction |
| Topovis.LinkEndPointsCoincide | wsnsimpy/topovis/common.py:115-116 | coincident nodes give the destination position as both ends; with node size 0 distinct nodes give their centres |

## Left out

- An exception raised by a scheduled call, such as the MAC's second firing of an ack
  event, stops the SimPy run. The model returns it as an error result, with the state
  as it was at the raise.
- The SimPy scheduler is not modelled. Scheduled calls are returned as records, and the
  model does not run them.
- Simulation.Node.Send: a delay of 0 is returned as an ordinary delivery. In the source
  `delayed_exec` passes it to SimPy's `start_delayed`, which raises `ValueError` for a
  delay of 0 or less; this happens for an addressed in-range node at distance 0 (a
  co-located node), and `SettledSendReach` promises that node a delivery after 0.0.
- Phy.PhyLayer.SendPdu: likewise, a propagation delay of 0 (a neighbour at distance 0)
  or a transmission time of 0 (a 0-bit unit) gives a `PhyEvent` at that time, where the
  source's `start_delayed` raises `ValueError`; `Phy.ScheduleReceptions` and
  `Phy.ReceptionsPaired` state the same events.
- The time at which the ack wait's `AnyOf` race resolves is not modelled. The step
  function `Mac.AckWaitStep` reads whether the ack event fired from the state's
  `ackEvent.value.triggered`, which `Mac.ReceiveStep` sets when the matching ack arrives.
- Randomness is not modelled: `randrange` and `random()` results are parameters, and the
  seeded generator is left out.
- The MAC's `retries` is a local variable of the drain process. The model keeps it in
  the MAC state.
- Frame identity is not modelled. An ack matches its frame by object identity in the
  source. The model gives each data frame a per-MAC serial number, and compares frames
  structurally.
- Floating point is not modelled: times, distances and bitrates are exact reals.
  - The Euclidean `distance` (`**0.5`) is an abstract symmetric, non-negative function.
  - `computeLinkEndPoints` takes its `math.sqrt` length as an argument, zero exactly when
    the positions coincide.
- Topovis.ColorItem: only integer indices are modelled. Slice indices and `bool` indices
  of `self.rgb[x]` are not.
- Topovis.LinkEndPointsCoincide: for distinct positions and non-zero node size, it does
  not prove that the end points lie on the segment. That would need real square roots.
- `float()` and `str()` of Python numbers are parameters (`parse`, `show`) of the colour
  functions.
- Node.send: `dst is node.id` is modelled as integer equality. Python's object identity
  on large integers is not modelled.
- `Node.tx_range` has a class-level default of 0. The model gives the range to
  `AddNode` instead.
- `LayeredNode` holds its `Node` rather than inheriting from it.
- `set_layers` and user-supplied layers are not modelled. Only the default layers are.
- PDUs are datatypes with the fields the default layers set. The `*args` and `**kwargs` of
  `Node.send` and `LayeredNode.send` are one `message` string, with the optional `nbits`
  keyword given separately. The `nbits` keyword stays in the application unit and
  reaches the receiver's `on_receive` as `Upcall.nbits`.
- `bitrate > 0` is a precondition of the PHY. With 0, Python raises `ZeroDivisionError`.
- The no-op hooks are not modelled: `on_tx_start`, `on_tx_end`, `on_collision`,
  `on_receive`, `on_timer_fired`, `init`, `run` and `finish`.
- These helpers are not modelled: `ensure_generator`, `create_event`, `create_process`,
  `start_process`, `delayed_exec`, `Simulator.run`, `Simulator.__init__`'s real-time
  environment, logging and `__repr__`.
- The PHY's `_collision` flag is unset before the first reception. The model starts it
  as false, which no path reads before a reception sets it.
- Style objects are modelled as attribute maps (values), not mutable objects. Python
  keyword arguments are a sequence of (key, value) pairs, which covers the dictionary
  case.
- The `Parameters` class is not part of this model.
- These files are not part of this model: the Tk front end `wsnsimpy_tk.py`, the
  plotting back ends, the example scripts and `setup.py`.
