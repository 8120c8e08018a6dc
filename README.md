# Digital logic simulator core, modelled in Dafny

This project models the simulation core of a Python digital logic
simulator and proves properties of the model. The core has five parts:
- pins, which carry a tri-valued `LogicState` and a symmetric list of
  peers;
- nodes, which own ordered lists of input and output pins;
- the gate variants and their `compute`, including the custom gate that
  relaxes an internal circuit;
- the circuit container;
- one pass of the discrete-event engine, and the schema mapping between a
  circuit and its saved document (`serialize` / `deserialize`).

## How the model is laid out

- `netlist.dfy` (module `Netlist`): the arena.
  - All pins and nodes of a program live in one value `Net(pins, nodes)`.
  - A Python object reference becomes an index into it.
  - `Pin.connect`, `disconnect` and `set_value`, and `Node.add_input` and
    `add_output`, are functions from arena to arena (`Link`, `Unlink`,
    `SetValue`, `AddInput`, `AddOutput`).
  - `Valid` is the well-formedness invariant: ownership agrees, connection
    lists are symmetric, irreflexive and duplicate-free, and custom gates
    are well formed.
  - `Erase` forgets values and states, so that "only values changed" can
    be stated.
- `gates.py` maps to `gates.dfy` (module `Gates`).
  - The gate constructors.
  - A specification function `Fire` for one call of `compute`, with the
    custom gate's input copy, relaxation (`Settle`, `Round`, `Spread`) and
    output copy.
  - The methods that run the loops the Python code runs and are proved to
    end in exactly the state `Fire` describes.
- `circuit.py` maps to `circuit.dfy` (module `Circuits`).
  - Class `Circuit` with fields `net`, `nodes` and `wires`.
  - Its methods update the fields in place. `remove_node` is a nested loop
    (`DetachAll`, `DetachPin`) proved against `Detached`.
- `engine.py` maps to `engine.dfy` (module `Engine`).
  - Class `Engine` with the queue, the clock `time` and the counter
    `sequence`.
  - `QueueUpdate` and `TriggerUpdate`.
  - `Step`, one pass of the run loop, proved equal to the specification
    function `Advanced`. `Advanced` is in turn shown to hand out the least
    event by (time, sequence), to keep the clock from going back and to
    keep every pending event due no earlier than the clock.
- `serializer.py` maps to `serializer.dfy` (module `Serializer`).
  - `Serialize` (two loops, with a visited set) is proved against
    `Entries` and `Written`. `SerializedWires` states what `Written`
    holds.
  - `Deserialize` clears the circuit and refills it (`PlaceNodes`,
    `ConnectWires`). It is proved against `Restored`.
  - Custom gates are loaded by `NewCustomGate`. It restores the chip's
    document into a fresh arena, one nesting level down, and maps the
    gate's pins to the name-sorted switches and bulbs (`Mapped`).

### Modelling choices

- **Ids.** A node's or pin's uuid is its arena index. Indices are unique,
  as the uuids are.
- **Node records.** The record's `type` string is the datatype `Kind`: one
  constructor per class name the loader knows, plus `OtherKind(text)` for
  any other tag. A missing `name` or `source_chip_name` key is `None`.
- **The chip library** is a map from chip name to document. A chip
  "exists" when its name is a key.
- **Nesting.** `deserialize` inside `CustomGate.__init__` recurses with no
  bound. The model counts the nesting with `depth`. A custom gate record
  met at depth 0 is skipped, as Python's `RecursionError` on a
  self-including chip is caught at `src/model/serializer.py:98`.
  - Each custom gate records the depth it was loaded at.
  - That depth bounds the recursion of `compute`.
- **Negative wire pin positions.** A wire record's pin position is a
  Python list index, so a negative one counts from the end (`At`). A
  position out of range raises `IndexError`, and that wire is skipped.
- **Wiring rule.** Every connection joins an input pin to an output pin
  (`Directed`). It is a precondition of `Circuit.Connect`, the rule the
  editor enforces when a wire is drawn. Deserialize only ever connects an
  output to an input.

### Where the model follows the code rather than the prose description

- **AND with UNDEFINED inputs.** An UNDEFINED input does not force the
  output LOW, because the LOW written at `src/model/gates.py:90` is
  overwritten at line 97. The output is LOW exactly when some input is
  LOW.
- **Custom gate outputs.** `CustomGate.compute` drives each external
  output from the value of the internal bulb's input pin, not from the
  bulb's `active` flag (`src/model/gates.py:73`).
- **Wire deduplication** keys on the unordered pair of pin ids
  (`src/model/serializer.py:50`). Only input pins' connections are read.

## Model

| member | source | states |
|---|---|---|
| Netlist.NewPin | src/model/node.py:51-57 | a fresh pin has value UNDEFINED, no connections, and the owner, type and index it was given |
| Netlist.NewNode | src/model/node.py:18-22 | a new node is appended with no pins; earlier pins and nodes are unchanged |
| Netlist.NewNodeKeeps | src/model/node.py:18-22 | appending a pinless node keeps pin/node ownership consistent |
| Netlist.AddPin | src/model/node.py:29-37 | one fresh pin is appended to the node's list of that direction; its index is the old list length; every other pin and node is unchanged |
| Netlist.AddInput | src/model/node.py:29-32 | add_input appends one input pin whose index is the old input count; the outputs are unchanged |
| Netlist.AddOutput | src/model/node.py:34-37 | add_output appends one output pin whose index is the old output count; the inputs are unchanged |
| Netlist.AddPinKeeps | src/model/node.py:29-37 | adding a pin keeps ownership, symmetric connection lists and the input/output wiring rule |
| Netlist.AddPins | src/model/node.py:29-37 | k calls of add_input/add_output append k fresh pins numbered on from the old count; other nodes are unchanged |
| Netlist.AddPinsStep | src/model/node.py:29-37 | k + 1 pin additions are k additions followed by one more |
| Netlist.AddPinsKeeps | src/model/node.py:29-37 | any number of pin additions keeps ownership, symmetry and the wiring rule |
| Netlist.PinsOf | src/model/node.py:29-37 | in a well-formed arena, entry i of a node's input (output) list is an input (output) pin of that node with index i |
| Netlist.SetValue | src/model/node.py:69-70 | set_value overwrites the value of that pin only, never changes any connection, and leaves the wiring unchanged |
| Netlist.SetAll | src/simulation/engine.py:57-58 | setting a value on each peer changes exactly the values of the listed pins and nothing else |
| Netlist.Values | src/simulation/engine.py:52 | the output snapshot holds the value of each listed pin, in order |
| Netlist.Without | src/model/node.py:66-67 | list.remove of a present element leaves exactly the other elements; of an absent one, the list unchanged |
| Netlist.RemoveFirst | src/model/node.py:66-67 | list.remove: drops the first occurrence of the element and keeps the rest in order (RemoveFirstNoDup ties it to Without on duplicate-free lists) |
| Netlist.RemoveFirstNoDup | src/model/node.py:66-67 | in a duplicate-free list, removing the first occurrence removes the element entirely and keeps the list duplicate-free |
| Netlist.Link | src/model/node.py:59-62 | connect adds each pin to the other's list when not yet connected and is a no-op when already connected; no other pin changes; symmetry and the wiring rule are preserved |
| Netlist.Unlink | src/model/node.py:64-67 | disconnect removes exactly b from a's list and a from b's list when connected, changes nothing otherwise, leaves all other pins untouched and keeps symmetry |
| Netlist.LinkUnlink | src/model/node.py:59-67 | connecting two unconnected pins and then disconnecting them restores every connection list exactly |
| Netlist.UnlinkTwice | src/model/node.py:64-67 | a second disconnect is a no-op |
| Netlist.ValidTransfer | src/model/node.py:69-70 | changing only values and gate states keeps the arena well formed |
| Netlist.UnderTransfer | src/model/gates.py:49-76 | changing only values and states keeps every custom gate's nesting depth |
| Gates.NotOf | src/model/gates.py:125-132 | NOT yields LOW exactly for a HIGH input and is never UNDEFINED, so LOW and UNDEFINED both give HIGH |
| Gates.Toggled | src/model/gates.py:142-146 | toggle yields HIGH exactly from LOW and LOW from any other state |
| Gates.Toggle | src/model/gates.py:142-146 | toggling a switch flips its state LOW to HIGH, any other state to LOW; nothing else in the arena changes |
| Gates.AndOf | src/model/gates.py:86-97 | an AND gate settles on LOW exactly when some input is LOW and on HIGH otherwise, never on UNDEFINED (the early LOW write for an UNDEFINED input is overwritten) |
| Gates.OrOf | src/model/gates.py:107-116 | an OR gate settles on HIGH exactly when some input is HIGH and on LOW otherwise, never on UNDEFINED |
| Gates.BulbOut | src/model/gates.py:71-76 | an external output is driven HIGH exactly when its bulb has an input pin whose value is HIGH, and LOW otherwise |
| Gates.Stock | src/model/node.py:18-37 | a constructed node is appended with ins fresh input pins and then outs fresh output pins, indexed 0, 1, …; the existing arena is a prefix of the new one |
| Gates.StockValid | src/model/node.py:18-37 | appending a constructed node that suits its gate keeps the arena well formed |
| Gates.NewAnd | src/model/gates.py:79-84 | an AND gate named "AND" with two inputs and one output; well-formedness is kept |
| Gates.NewOr | src/model/gates.py:100-105 | an OR gate named "OR" with two inputs and one output; well-formedness is kept |
| Gates.NewNot | src/model/gates.py:119-123 | a NOT gate named "NOT" with one input and one output; well-formedness is kept |
| Gates.NewSwitch | src/model/gates.py:135-140 | a switch named "Input" with state LOW and one output pin whose value is LOW; well-formedness is kept |
| Gates.NewBulb | src/model/gates.py:152-156 | a bulb named "Output", inactive, with one input and no outputs; well-formedness is kept |
| Gates.ComputeAnd | src/model/gates.py:86-97 | AND compute writes only output 0: LOW iff some input is LOW, else HIGH, never UNDEFINED |
| Gates.ComputeOr | src/model/gates.py:107-116 | OR compute writes only output 0: HIGH iff some input is HIGH, else LOW, never UNDEFINED |
| Gates.ComputeNot | src/model/gates.py:125-132 | NOT compute writes only output 0: LOW for a HIGH input, HIGH for LOW or UNDEFINED |
| Gates.ComputeSwitch | src/model/gates.py:148-149 | switch compute copies the state to its output and changes nothing else |
| Gates.ComputeBulb | src/model/gates.py:158-159 | bulb compute sets active iff its input is HIGH; no pin or other node changes |
| Gates.Compute | src/model/gates.py:49-159 | the dispatching compute ends in exactly the state Fire specifies, for every variant |
| Gates.Fire | src/model/gates.py:49-159 | compute changes only values and gate states (the erased wiring is unchanged) and keeps the arena well formed |
| Gates.FireFrame | src/model/gates.py:49-159 | compute of node n changes no pin other than n's outputs and no node other than n |
| Gates.FireIdempotent | src/model/gates.py:86-159 | for basic gates, a second compute with unchanged inputs gives the same outputs and state |
| Gates.ComputeCustom | src/model/gates.py:49-76 | the custom gate's compute (input copy, relaxation, output copy) ends in exactly FireCustom's state |
| Gates.FireCustom | src/model/gates.py:49-76 | the custom gate's compute on values keeps the outer wiring and well-formedness |
| Gates.CopyInputs | src/model/gates.py:50-54 | the input loop loads input i into switch i for i below both counts |
| Gates.LoadSwitches | src/model/gates.py:50-54 | loading the first k inputs changes only the custom gate's internal circuit and no pin or other node of the outer arena |
| Gates.LoadSet | src/model/gates.py:50-54 | after loading, switch i holds external input i's value |
| Gates.LoadOthers | src/model/gates.py:50-54 | loading changes no internal node other than the mapped switches |
| Gates.Relax | src/model/gates.py:56-69 | relaxation runs between 1 and 100 rounds, stops after the first round with no output change (or at round 100), and ends in Settle's state |
| Gates.Round | src/model/gates.py:58-69 | one pass over the internal nodes keeps the wiring, well-formedness and the nesting bound; its flag says whether any output changed |
| Gates.Settle | src/model/gates.py:56-69 | relaxation changes only values and states and keeps the internal arena well formed and within its nesting depth |
| Gates.RelaxRound | src/model/gates.py:58-69 | one round computes every internal node in list order with eager propagation and reports whether any output changed |
| Gates.RelaxNode | src/model/gates.py:59-67 | one node's turn within a round, chained to the rest of the round |
| Gates.Propagate | src/model/gates.py:62-67 | each output that differs from its snapshot is copied to all its peers; the flag says whether any differed |
| Gates.SetPeers | src/model/gates.py:66-67 | writing a pin's value to all its connections ends in SetAll of those connections |
| Gates.Spread | src/model/gates.py:62-67 | propagation changes only pin values and keeps connection lists symmetric |
| Gates.CopyOutputs | src/model/gates.py:71-76 | the output loop drives output i from bulb i for i below both counts |
| Gates.ReadBulbs | src/model/gates.py:71-76 | driving the first k outputs from the bulbs changes pin values only, keeping the nodes and the wiring |
| Gates.CopyOutput | src/model/gates.py:72-76 | one output of the copy loop is driven from its bulb |
| Gates.ReadBulbsSet | src/model/gates.py:71-76 | after the output copy, external output i is HIGH iff bulb i's input pin is HIGH, else LOW; all other pins are untouched |
| Gates.SettleKeepsSwitches | src/model/gates.py:56-69 | relaxation never changes any switch's state |
| Gates.CustomSwitches | src/model/gates.py:50-54 | after compute, internal switch i holds external input i's value, for i below both counts |
| Gates.CustomCompute | src/model/gates.py:49-76 | after compute, switch i holds input i; output i is HIGH iff the relaxed bulb i's input is HIGH, else LOW (never UNDEFINED); outputs beyond the bulb count and all other pins are untouched; chip, depth and mappings are kept |
| Circuits.Circuit.constructor | src/model/circuit.py:7-10 | a new circuit has no nodes and no wires |
| Circuits.Circuit.AddNode | src/model/circuit.py:12-13 | add_node appends at the end, keeps the order of existing nodes and does not check duplicates |
| Circuits.Circuit.Connect | src/model/circuit.py:22-23 | connect is exactly Pin.connect on the source pin; afterwards the two pins list each other |
| Circuits.Circuit.Disconnect | src/model/circuit.py:25-26 | disconnect is exactly Pin.disconnect on the source pin; afterwards neither lists the other |
| Circuits.Circuit.Clear | src/model/circuit.py:28-30 | clear empties nodes and wires and disconnects no pin |
| Circuits.Circuit.RemoveNode | src/model/circuit.py:15-20 | on a node not listed nothing changes; otherwise every pin of the node is detached and the first occurrence leaves the list, keeping the other nodes' order |
| Circuits.DetachPin | src/model/circuit.py:17-19 | disconnecting a pin from each peer, over a copy of its list, empties its list and removes it from every other list, keeping symmetry |
| Circuits.DetachAll | src/model/circuit.py:17-19 | detaching all pins of the node in turn ends in Detached, keeping symmetry and the wiring rule |
| Circuits.Detached | src/model/circuit.py:17-19 | after disconnecting the pins of a node: those pins have no connections, every other pin has lost exactly them, in order, and nodes and pin count stay |
| Circuits.PinsOfNode | src/model/circuit.py:17-19 | the pins removal disconnects are exactly the node's inputs and outputs, inputs first |
| Circuits.DetachedMeaning | src/model/circuit.py:17-19 | afterwards the node's pins have no connections, no other pin references them, links among other pins are kept, and no value changes |
| Circuits.Drop | src/model/circuit.py:17-19 | the connections left are exactly the old ones not among the detached pins |
| Circuits.RemoveFirstSplit | src/model/circuit.py:20 | list.remove deletes exactly the first occurrence and keeps the rest in order |
| Circuits.FirstIndex | src/model/circuit.py:20 | the position list.remove deletes is the first at which the node occurs |
| Circuits.RewiredValid | src/model/circuit.py:22-26 | changing connections symmetrically keeps the arena well formed |
| Engine.Engine.constructor | src/simulation/engine.py:10-18 | a new engine has an empty queue, clock 0 and counter 0 |
| Engine.Engine.QueueUpdate | src/simulation/engine.py:34-38 | the counter grows by exactly one and (clock + delay, new counter, node) joins the queue; the clock is unchanged |
| Engine.Engine.TriggerUpdate | src/simulation/engine.py:68-70 | trigger_update is queue_update with delay 0 |
| Engine.Engine.Step | src/simulation/engine.py:47-61 | one pass of the run loop keeps the engine invariant (events due no earlier than the clock, unique increasing numbers) and ends in Advanced's state |
| Engine.Advance | src/simulation/engine.py:47-61 | the pass as a method over values ends in Advanced's state |
| Engine.AdvancedKeeps | src/simulation/engine.py:47-61 | the pass hands out the least event by (time, sequence); the clock becomes its time and never decreases; the queue stays in order and due no earlier than the clock; the arena stays well formed |
| Engine.Earliest | src/simulation/engine.py:47-48 | the dequeued event precedes every pending event by (time, sequence) |
| Engine.Precedes | src/simulation/engine.py:47-48 | the priority queue orders events by time, then by sequence number |
| Engine.EarliestUnique | src/simulation/engine.py:47-48 | with unique numbers, the least event is unique |
| Engine.SameTimeFifo | src/simulation/engine.py:36-48 | of two events due at the same time, the later-queued one is not dequeued first |
| Engine.Remove | src/simulation/engine.py:48 | dequeuing removes exactly that event and keeps the others in order |
| Engine.Advanced | src/simulation/engine.py:47-61 | one pass of the run loop on values: with an empty queue nothing changes; otherwise the earliest event leaves the queue, the clock moves to its time if later, the node is computed and the nodes it wakes are queued one tick later |
| Engine.Pass | src/simulation/engine.py:52-61 | compute plus propagation of changed outputs ends in Propagated's arena, queues the nodes Woken names at clock + 1 and numbers them on from the counter |
| Engine.Propagated | src/simulation/engine.py:52-58 | the pass changes only values and states and keeps the arena well formed and directed |
| Engine.Woken | src/simulation/engine.py:55-61 | every node the pass queues owns an input pin wired to an output of the computed node |
| Engine.WokenFromPeers | src/simulation/engine.py:55-61 | every queued node owns an input pin that is a peer of one of the computed node's outputs |
| Engine.QuietPass | src/simulation/engine.py:55-56 | when compute changes no output, nothing propagates and nothing is queued |
| Engine.Notify | src/simulation/engine.py:55-61 | the loop over outputs propagates only changed ones and queues the input peers' nodes, in order, with consecutive numbers |
| Engine.Fan | src/simulation/engine.py:57-61 | each peer of a changed output receives its value; each input peer's node is queued exactly once per occurrence at clock + 1; output peers are not queued |
| Engine.InputPeers | src/simulation/engine.py:60-61 | the nodes queued for a peer list are those of its input pins, in list order, at most one per peer |
| Engine.Wake | src/simulation/engine.py:55-61 | the nodes queued by a pass, in order: for each output whose value differs from its snapshot, the nodes of its input peers |
| Engine.Scheduled | src/simulation/engine.py:55-61 | one event per queued node, due one tick after the clock and numbered on from the counter |
| Engine.InputPeersMeaning | src/simulation/engine.py:60-61 | a node is queued for a peer list iff some peer in it is an input pin of that node |
| Engine.ScheduledAt | src/simulation/engine.py:60-61 | the i-th queued event is (clock + 1, counter + i + 1, node i) |
| Engine.StepFits | src/simulation/engine.py:47-61 | after a pass every pending event is due no earlier than the new clock and numbered within the counter |
| Engine.StepIncreasing | src/simulation/engine.py:47-61 | after a pass the queue's numbers still strictly increase |
| Serializer.KindOf | src/model/serializer.py:35 | every gate variant's class name is a tag the loader knows |
| Serializer.Entries | src/model/serializer.py:29-43 | one node record per circuit node, in circuit order: id, class, name, input count, and the chip only for custom gates |
| Serializer.NodeEntry | src/model/serializer.py:29-43 | the record of one node: its id, class name, name, input count, and the chip only for a custom gate |
| Serializer.Key | src/model/serializer.py:50 | the wire key is the pair sorted, so both orientations of a pair give the same key |
| Serializer.ScanKeeps | src/model/serializer.py:45-60 | the visited set always equals the keys of the wires written so far, each key is written at most once, and every scanned pair ends up visited |
| Serializer.KeysOfMeaning | src/model/serializer.py:50-52 | a key is visited iff some written pair has it |
| Serializer.CandidatesOwned | src/model/serializer.py:47-49 | the scanned pairs are exactly (input pin of a circuit node, one of its connections) |
| Serializer.Candidates | src/model/serializer.py:45-60 | the pairs the wire loop visits: for each circuit node in order, each input pin with each of its connections |
| Serializer.Visit | src/model/serializer.py:50-60 | a pair whose key is new is written and its key recorded; a pair with a seen key changes nothing |
| Serializer.Scan | src/model/serializer.py:45-60 | the wire loop visits the pairs in order from the given state |
| Serializer.Written | src/model/serializer.py:45-60 | every written pair names two existing pins |
| Serializer.WrittenSound | src/model/serializer.py:47-52 | every written wire is a connection of an input pin of a circuit node |
| Serializer.WrittenComplete | src/model/serializer.py:47-52 | every connection of an input pin of a circuit node is written, input pin first |
| Serializer.WrittenOnce | src/model/serializer.py:50-52 | no pin pair is written twice |
| Serializer.SerializedWires | src/model/serializer.py:45-60 | the wire list is exactly the input pins' connections, each once |
| Serializer.Records | src/model/serializer.py:53-60 | each wire record has to_node/to_pin from the input pin and from_node/from_pin from its peer |
| Serializer.WireEntry | src/model/serializer.py:53-60 | the record of one pair: from the peer's node and position to the input pin's node and position |
| Serializer.ScanPin | src/model/serializer.py:49-60 | the loop over one pin's connections adds each unseen pair to the visited set and writes its record |
| Serializer.ScanNode | src/model/serializer.py:48-60 | the loop over one node's input pins scans each in order |
| Serializer.Serialize | src/model/serializer.py:21-62 | serialize writes Entries of the circuit and the records of Written, leaving the circuit unchanged |
| Serializer.EntryRebuilds | src/model/serializer.py:29-43 | a written node record loads back as a node of the same class with the same name (and the same chip) |
| Serializer.RoundTripNodes | src/model/serializer.py:72-108 | loading what serialize writes restores one node per circuit node, in order, of the same class and name, when every chip is in the library |
| Serializer.Basic | src/model/serializer.py:73-84 | a basic tag constructs a new node of exactly that class |
| Serializer.ChipOf | src/model/serializer.py:86-87 | a custom record loads "source_chip_name", else its "name"; both absent means no chip |
| Serializer.Builds | src/model/serializer.py:86-101 | a record yields a node exactly when its tag is a basic class, or it is a custom gate naming a chip of the library while nesting may still go deeper |
| Serializer.BasicKeeps | src/model/serializer.py:73-84 | constructing a basic gate only appends and keeps the arena well formed |
| Serializer.Constructed | src/model/serializer.py:73-101 | a known tag constructs a node of that class, appended; a custom gate gets the chip from source_chip_name, else name, at the current depth |
| Serializer.Made | src/model/serializer.py:73-108 | a record yields a node iff its tag is basic, or it is CustomGate with a non-empty chip present in the library; the node is of the record's class and named from the record when it has a name |
| Serializer.Renamed | src/model/serializer.py:105 | renaming changes that node's name only |
| Serializer.RenamedValid | src/model/serializer.py:105 | renaming keeps the arena well formed |
| Serializer.Placed | src/model/serializer.py:72-112 | the circuit's nodes after the node loop are exactly the newly appended nodes, in order |
| Serializer.PlacedKept | src/model/serializer.py:72-108 | the node loop adds one node per accepted record, in document order, of its class and named as the record says |
| Serializer.Accepted | src/model/serializer.py:72-107 | the records the loop accepts are exactly those that yield a node |
| Serializer.PlacedIds | src/model/serializer.py:104-108 | every accepted record's id is mapped, to the node made from the last record with that id |
| Serializer.PlacedExtends | src/model/serializer.py:72-108 | the node loop only appends nodes and fresh unconnected pins, and the id map names only new nodes |
| Serializer.PlacedValid | src/model/serializer.py:72-108 | the node loop keeps the arena well formed |
| Serializer.PlaceNode | src/model/serializer.py:72-108 | one pass of the node loop: a record that yields no node changes nothing; otherwise the node joins the arena and the circuit and is recorded under the record's id |
| Serializer.PlaceNodes | src/model/serializer.py:72-112 | the node loop on a cleared circuit ends in Placed's state |
| Serializer.At | src/model/serializer.py:121-122 | pin lookup succeeds iff the Python index is in range, negative from the end |
| Serializer.AtWraps | src/model/serializer.py:121-122 | an index and the same index counted from the end pick the same pin |
| Serializer.EndsMeaning | src/model/serializer.py:115-124 | a wire is skipped iff a node id is unknown or a pin position is out of range; otherwise it joins an output pin of from_node to an input pin of to_node |
| Serializer.Ends | src/model/serializer.py:115-124 | a resolved wire joins two pins of the arena |
| Serializer.Wired | src/model/serializer.py:115-124 | one wire record keeps the nodes, the pin count and every field of every pin but its connections |
| Serializer.WiredKeeps | src/model/serializer.py:115-124 | a skipped wire changes nothing; a restored one keeps the arena well formed and directed |
| Serializer.ConnectWire | src/model/serializer.py:115-124 | one pass of the wire loop ends in Wired's state |
| Serializer.Connected | src/model/serializer.py:115-137 | the wire loop keeps the nodes, the pin count and every field of every pin but its connections |
| Serializer.ConnectedKeeps | src/model/serializer.py:115-137 | the wire loop keeps the arena well formed and directed |
| Serializer.ConnectWires | src/model/serializer.py:115-137 | the wire loop ends in Connected's state |
| Serializer.Restored | src/model/serializer.py:65-137 | the circuit's nodes after deserialize are exactly the nodes it appended, in order |
| Serializer.RestoredValid | src/model/serializer.py:65-137 | deserialize keeps the arena well formed and directed |
| Serializer.RestoredExtends | src/model/serializer.py:65-137 | deserialize keeps every existing node and respects the nesting bound |
| Serializer.Deserialize | src/model/serializer.py:65-137 | deserialize clears the circuit and ends in Restored's state, with the circuit invariant kept |
| Serializer.Selected | src/model/gates.py:30-35 | exactly the switches (bulbs) of the internal circuit are selected |
| Serializer.SortByName | src/model/gates.py:37-38 | sorting by name is a permutation |
| Serializer.Insert | src/model/gates.py:37-38 | inserting one id adds exactly that id to the list (as a multiset) and nothing else |
| Serializer.InsertByName | src/model/gates.py:37-38 | inserting into a name-sorted list keeps it sorted |
| Serializer.SortedByName | src/model/gates.py:37-38 | the sorted list is in name order |
| Serializer.NameLeTotal | src/model/gates.py:37-38 | string order is total |
| Serializer.NameLeTrans | src/model/gates.py:37-38 | string order is transitive |
| Serializer.Mapped | src/model/gates.py:30-41 | input_nodes (output_nodes) are exactly the internal switches (bulbs), sorted by name, each once |
| Serializer.NewCustomGate | src/model/gates.py:7-16 | loading a custom gate appends one node to the arena: a custom gate of the record's chip, loaded at the current depth |
| Serializer.CustomValid | src/model/gates.py:7-47 | a loaded custom gate keeps the arena well formed: its internal circuit is well formed and lower in nesting, and its mappings name distinct switches and bulbs of it |
| Serializer.NewCustomGateShape | src/model/gates.py:7-41 | the gate is named after its chip, has one input pin per input name and one output pin per output name, owns the circuit its document restores, and maps its inputs (outputs) to every switch (bulb) of that circuit, each once and nothing else, sorted by name |
| Serializer.MappedSelection | src/model/gates.py:30-41 | mapping all the nodes of a circuit lists every switch (bulb) of it, each once and nothing else, sorted by name |
| Serializer.MappedHas | src/model/gates.py:30-35 | an id is mapped exactly when it names a switch (bulb) of the circuit |
| Serializer.ExtendsDirected | src/model/serializer.py:72-108 | adding nodes with unconnected pins keeps the wiring rule |

## Left out

- Threads: `start`, `stop`, the lock, `stop_event` and the sleeping poll of an empty queue. The model is sequential; `Step` with an empty queue does nothing.
- The `except Exception` print in the run loop. No `compute` of the model raises.
- File and JSON I/O: the library directory and `json.load`. The library is a map from chip name to document. A chip whose file exists but fails to load is not distinguished from a missing one, except for nesting (below).
- The Qt scene: `GateItem` and `WireItem`, `scene.items()`, node positions `x`/`y`, and the `KeyError` handler that follows `circuit.connect`. The duplicated handler block at `src/model/serializer.py:138-148` is not modelled either, since it can never run.
- uuid generation: ids are arena indices. Loading makes new nodes with new ids and does not preserve the document's ids, as in the Python code.
- The count-mismatch warnings of `CustomGate.__init__` and all other printing. Only the effect of a mismatch is modelled: pins beyond the mapped count are left unmapped.
- `Node.to_dict` and `Circuit.serialize`, which nothing in the core calls.
- Serializer.Constructed: unbounded nesting of custom gates is cut at `depth`, the loader's fuel. A custom gate record reached at depth 0 is skipped, as Python skips a chip whose loading raises `RecursionError`. The exact recursion limit of the interpreter is not modelled.
- JSON null values: a record field is either present with a string or absent (`None`). A `source_chip_name` or `name` key stored as null is not represented. For `source_chip_name` Python would then skip the gate.
- The `type` string is taken as already parsed into `Kind`, so string matching of class names is not modelled.
- Serializer.SortByName: Python's sort is stable, so switches with equal names keep their internal-circuit order. The model's insertion sort has the same order and the same multiset, but stability itself is not proved.
- Serializer.RoundTripNodes: the round trip is stated for the node list (class, name, order) only. It is not stated for wires, because loading the written wires restores the same connections only given the library's chips and the pin counts. That is not proved.
- Serializer.Ends: besides the Python conditions it tests that the resolved node and pin indices lie inside the arena. `EndsMeaning` shows these tests always hold in a well-formed arena.
- The heap inside Python's `PriorityQueue`: the model's queue is a sequence in queuing order, from which the least event by (time, sequence) is taken out. The heap's tie order never matters, because sequence numbers are unique.
- Floating point and rendering. The modelled code has no gates other than AND, OR, NOT, switch, bulb and custom gate.
