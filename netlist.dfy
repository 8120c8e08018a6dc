/** Pins, nodes and the arena that holds them.

    Every pin and every node of a running program is an entry of an arena
    value `Net`; a reference to a Python `Pin` or `Node` object becomes its
    index in the arena.  The operations that the Python code performs on a
    `Pin` or a `Node` object (`connect`, `disconnect`, `set_value`,
    `add_input`, `add_output`) are functions from an arena to the arena that
    results; the objects that own an arena (`Circuit`, `Engine`) apply them
    to their field in place.

    The gate variants are part of the same datatype group, because a custom
    gate owns an arena of its own (its internal circuit). */
module Netlist {

  /** LogicState: the tri-valued signal. */
  datatype LogicState = Low | High | Undefined

  /** PinType: the direction of a pin. */
  datatype PinType = Input | Output

  datatype Option<T> = None | Some(value: T)

  type PinId = nat
  type NodeId = nat

  /** A pin: its owner node, direction, position in the owner's list of that
      direction, the peers it is wired to, and its current value. */
  datatype Pin = Pin(node: NodeId, kind: PinType, index: nat, connections: seq<PinId>, value: LogicState)

  /** The gate variants and the state each keeps between calls of compute.
      A custom gate records the nesting depth it was loaded at (`level`),
      the chip it was loaded from, its internal circuit, and the internal
      switches and bulbs (sorted by name) its own pins are mapped to. */
  datatype Gate =
    | AndGate
    | OrGate
    | NotGate
    | InputSwitch(state: LogicState)
    | OutputBulb(active: bool)
    | CustomGate(level: nat, chip: string, inner: Net, inputNodes: seq<NodeId>, outputNodes: seq<NodeId>)

  datatype Node = Node(name: string, gate: Gate, inputs: seq<PinId>, outputs: seq<PinId>)

  /** The arena: all pins and all nodes, indexed by their ids. */
  datatype Net = Net(pins: seq<Pin>, nodes: seq<Node>)

  const EmptyNet: Net := Net([], [])

  /** The pin list of one direction of a node. */
  function Side(x: Node, k: PinType): seq<PinId> {
    if k == Input then x.inputs else x.outputs
  }

  predicate NoDup<T(==)>(s: seq<T>) {
    forall i, j | 0 <= i < j < |s| :: s[i] != s[j]
  }

  // ---------------------------------------------------------------------
  // Well-formedness of the arena

  /** Pin `p` sits in its owner's list of its direction, at its index. */
  ghost predicate PinHome(net: Net, p: PinId)
    requires p < |net.pins|
  {
    var pin := net.pins[p];
    pin.node < |net.nodes| && pin.index < |Side(net.nodes[pin.node], pin.kind)| &&
    Side(net.nodes[pin.node], pin.kind)[pin.index] == p
  }

  /** Entry `i` of node `n`'s list of direction `k` is a pin of `n` of that
      direction whose index is `i`. */
  ghost predicate Slot(net: Net, n: NodeId, k: PinType, i: nat)
    requires n < |net.nodes| && i < |Side(net.nodes[n], k)|
  {
    var p := Side(net.nodes[n], k)[i];
    p < |net.pins| && net.pins[p].node == n && net.pins[p].kind == k && net.pins[p].index == i
  }

  /** The pins node `n` lists exist. */
  ghost predicate NodePins(net: Net, n: NodeId)
    requires n < |net.nodes|
  {
    && (forall i | 0 <= i < |net.nodes[n].inputs| :: net.nodes[n].inputs[i] < |net.pins|)
    && (forall i | 0 <= i < |net.nodes[n].outputs| :: net.nodes[n].outputs[i] < |net.pins|)
  }

  /** Pins and nodes agree on ownership. */
  ghost predicate Owned(net: Net) {
    && (forall p | 0 <= p < |net.pins| :: PinHome(net, p))
    && (forall n, k, i | 0 <= n < |net.nodes| && 0 <= i < |Side(net.nodes[n], k)| :: Slot(net, n, k, i))
  }

  /** The connection list of pin `p` is duplicate-free, never holds `p`
      itself, and every peer lists `p` back. */
  ghost predicate PeerOk(pins: seq<Pin>, p: PinId)
    requires p < |pins|
  {
    && NoDup(pins[p].connections)
    && forall c | c in pins[p].connections :: c < |pins| && c != p && p in pins[c].connections
  }

  /** Connection lists are symmetric, irreflexive and duplicate-free. */
  ghost predicate Linked(pins: seq<Pin>) {
    forall p | 0 <= p < |pins| :: PeerOk(pins, p)
  }

  /** Every connection joins an input pin to an output pin. */
  ghost predicate Directed(pins: seq<Pin>) {
    forall p | 0 <= p < |pins| :: DirOk(pins, p)
  }

  ghost predicate DirOk(pins: seq<Pin>, p: PinId)
    requires p < |pins|
  {
    forall c | c in pins[p].connections :: c < |pins| && pins[c].kind != pins[p].kind
  }

  /** Every custom gate of the arena was loaded below nesting depth `h`. */
  ghost predicate Under(net: Net, h: nat) {
    forall n | 0 <= n < |net.nodes| && net.nodes[n].gate.CustomGate? :: net.nodes[n].gate.level < h
  }

  /** A well-formed arena. */
  ghost predicate Valid(net: Net)
    decreases net, 1
  {
    && Owned(net)
    && Linked(net.pins)
    && forall n | 0 <= n < |net.nodes| :: NodeOk(net.nodes[n])
  }

  /** The pins each gate variant's compute reads or writes exist, and a
      custom gate's internal arena and mappings are well-formed. */
  ghost predicate NodeOk(x: Node)
    decreases x, 0
  {
    match x.gate
    case AndGate => |x.outputs| >= 1
    case OrGate => |x.outputs| >= 1
    case NotGate => |x.inputs| >= 1 && |x.outputs| >= 1
    case InputSwitch(_) => |x.outputs| >= 1
    case OutputBulb(_) => |x.inputs| >= 1
    case CustomGate(level, _, inner, ins, outs) =>
      && Valid(inner)
      && Under(inner, level)
      && NoDup(ins) && NoDup(outs)
      && (forall i | 0 <= i < |ins| :: ins[i] < |inner.nodes| && inner.nodes[ins[i]].gate.InputSwitch?)
      && (forall i | 0 <= i < |outs| :: outs[i] < |inner.nodes| && inner.nodes[outs[i]].gate.OutputBulb?)
  }

  // ---------------------------------------------------------------------
  // The wiring of an arena, with values and gate states forgotten

  /** `net` with every pin value, switch state and bulb flag reset; two
      arenas with the same erasure have the same pins, nodes, names,
      connections and mappings, and differ only in values and states. */
  function Erase(net: Net): (r: Net)
    ensures |r.pins| == |net.pins| && |r.nodes| == |net.nodes|
    decreases net, 1
  {
    Net(seq(|net.pins|, i requires 0 <= i < |net.pins| => net.pins[i].(value := Undefined)),
        seq(|net.nodes|, i requires 0 <= i < |net.nodes| => EraseNode(net.nodes[i])))
  }

  function EraseNode(x: Node): Node
    decreases x, 0
  {
    match x.gate
    case InputSwitch(_) => x.(gate := InputSwitch(Undefined))
    case OutputBulb(_) => x.(gate := OutputBulb(false))
    case CustomGate(l, c, inner, ins, outs) => x.(gate := CustomGate(l, c, Erase(inner), ins, outs))
    case _ => x
  }

  lemma {:induction false} UnderTransfer(a: Net, b: Net, h: nat)
    requires Under(a, h) && Erase(a) == Erase(b)
    ensures Under(b, h)
  {
    forall n | 0 <= n < |b.nodes| && b.nodes[n].gate.CustomGate?
      ensures b.nodes[n].gate.level < h
    {
      assert Erase(a).nodes[n] == Erase(b).nodes[n];
    }
  }

  /** Well-formedness depends only on the wiring. */
  lemma {:induction false} ValidTransfer(a: Net, b: Net)
    requires Valid(a) && Erase(a) == Erase(b)
    ensures Valid(b)
    decreases a, 1
  {
    assert |a.pins| == |b.pins| && |a.nodes| == |b.nodes| by {
      assert |Erase(a).pins| == |Erase(b).pins| && |Erase(a).nodes| == |Erase(b).nodes|;
    }
    forall p | 0 <= p < |b.pins|
      ensures b.pins[p].(value := Undefined) == a.pins[p].(value := Undefined)
    {
      assert Erase(a).pins[p] == Erase(b).pins[p];
    }
    forall n | 0 <= n < |b.nodes|
      ensures EraseNode(b.nodes[n]) == EraseNode(a.nodes[n])
    {
      assert Erase(a).nodes[n] == Erase(b).nodes[n];
    }
    forall n | 0 <= n < |b.nodes|
      ensures NodeOk(b.nodes[n])
    {
      NodeOkTransfer(a.nodes[n], b.nodes[n]);
    }
    assert Owned(b) by {
      forall p | 0 <= p < |b.pins| ensures PinHome(b, p) {
        assert PinHome(a, p);
      }
      forall n, k, i | 0 <= n < |b.nodes| && 0 <= i < |Side(b.nodes[n], k)| ensures Slot(b, n, k, i) {
        assert Slot(a, n, k, i);
      }
    }
    assert Linked(b.pins) by {
      forall p | 0 <= p < |b.pins| ensures PeerOk(b.pins, p) {
        assert PeerOk(a.pins, p);
      }
    }
  }

  lemma {:induction false} NodeOkTransfer(x: Node, y: Node)
    requires NodeOk(x) && EraseNode(x) == EraseNode(y)
    ensures NodeOk(y)
    decreases x, 0
  {
    if x.gate.CustomGate? {
      var g, g' := x.gate, y.gate;
      assert Erase(g.inner) == Erase(g'.inner);
      ValidTransfer(g.inner, g'.inner);
      UnderTransfer(g.inner, g'.inner, g.level);
      forall i | 0 <= i < |g.inputNodes| ensures g'.inner.nodes[g'.inputNodes[i]].gate.InputSwitch? {
        assert Erase(g.inner).nodes[g.inputNodes[i]] == Erase(g'.inner).nodes[g.inputNodes[i]];
      }
      forall i | 0 <= i < |g.outputNodes| ensures g'.inner.nodes[g'.outputNodes[i]].gate.OutputBulb? {
        assert Erase(g.inner).nodes[g.outputNodes[i]] == Erase(g'.inner).nodes[g.outputNodes[i]];
      }
    }
  }

  /** A directed arena stays directed when only values and states change. */
  lemma {:induction false} LinkedTransfer(a: Net, b: Net)
    requires Linked(a.pins) && Erase(a) == Erase(b)
    ensures Linked(b.pins)
  {
    WiringPins(a, b);
    forall p | 0 <= p < |b.pins| ensures PeerOk(b.pins, p) {
      assert PeerOk(a.pins, p);
      assert b.pins[p].connections == a.pins[p].connections;
      forall c | c in b.pins[p].connections ensures p in b.pins[c].connections {
        assert b.pins[c].connections == a.pins[c].connections;
      }
    }
  }

  lemma {:induction false} DirectedTransfer(a: Net, b: Net)
    requires Directed(a.pins) && Erase(a) == Erase(b)
    ensures Directed(b.pins)
  {
    assert |Erase(a).pins| == |Erase(b).pins|;
    forall p | 0 <= p < |b.pins| ensures b.pins[p].(value := Undefined) == a.pins[p].(value := Undefined) {
      assert Erase(a).pins[p] == Erase(b).pins[p];
    }
    forall p | 0 <= p < |b.pins| ensures DirOk(b.pins, p) {
      assert DirOk(a.pins, p);
    }
  }


  /** What two arenas with the same wiring share. */
  lemma {:induction false} WiringOf(a: Net, b: Net)
    requires Erase(a) == Erase(b)
    ensures |a.pins| == |b.pins| && |a.nodes| == |b.nodes|
    ensures forall p | 0 <= p < |a.pins| :: a.pins[p].(value := Undefined) == b.pins[p].(value := Undefined)
    ensures forall m | 0 <= m < |a.nodes| ::
              a.nodes[m].inputs == b.nodes[m].inputs && a.nodes[m].outputs == b.nodes[m].outputs
  {
    WiringPins(a, b);
    WiringNodes(a, b);
  }

  lemma {:induction false} WiringPins(a: Net, b: Net)
    requires Erase(a) == Erase(b)
    ensures |a.pins| == |b.pins|
    ensures forall p | 0 <= p < |a.pins| :: a.pins[p].(value := Undefined) == b.pins[p].(value := Undefined)
  {
    forall p | 0 <= p < |a.pins| ensures a.pins[p].(value := Undefined) == b.pins[p].(value := Undefined) {
      assert Erase(a).pins[p] == Erase(b).pins[p];
    }
  }

  lemma {:induction false} WiringNodes(a: Net, b: Net)
    requires Erase(a) == Erase(b)
    ensures |a.nodes| == |b.nodes|
    ensures forall m | 0 <= m < |a.nodes| ::
              a.nodes[m].inputs == b.nodes[m].inputs && a.nodes[m].outputs == b.nodes[m].outputs
  {
    forall m | 0 <= m < |a.nodes|
      ensures a.nodes[m].inputs == b.nodes[m].inputs && a.nodes[m].outputs == b.nodes[m].outputs
    {
      assert Erase(a).nodes[m] == Erase(b).nodes[m];
      EraseNodeShape(a.nodes[m]);
      EraseNodeShape(b.nodes[m]);
    }
  }

  /** Same wiring extends into the internal circuit of a custom gate. */
  lemma {:induction false} WiringInner(a: Net, b: Net, n: NodeId)
    requires Erase(a) == Erase(b) && n < |a.nodes| && a.nodes[n].gate.CustomGate?
    ensures n < |b.nodes| && b.nodes[n].gate.CustomGate?
    ensures Erase(a.nodes[n].gate.inner) == Erase(b.nodes[n].gate.inner)
    ensures a.nodes[n].gate.(inner := b.nodes[n].gate.inner) == b.nodes[n].gate
  {
    assert Erase(a).nodes[n] == Erase(b).nodes[n];
    var x, y := a.nodes[n], b.nodes[n];
    assert EraseNode(x) == EraseNode(y);
  }

  lemma EraseNodeShape(x: Node)
    ensures EraseNode(x).name == x.name && EraseNode(x).inputs == x.inputs && EraseNode(x).outputs == x.outputs
  {
  }

  /** Replacing a node by one with the same erasure keeps the wiring. */
  lemma {:induction false} ReplaceNode(net: Net, n: NodeId, y: Node)
    requires n < |net.nodes| && EraseNode(y) == EraseNode(net.nodes[n])
    ensures Erase(net.(nodes := net.nodes[n := y])) == Erase(net)
  {
    var r := net.(nodes := net.nodes[n := y]);
    assert Erase(r).nodes == Erase(net).nodes;
  }

  /** The pins a node lists exist and belong to it, in their order. */
  lemma {:induction false} PinsOf(net: Net, n: NodeId)
    requires Owned(net) && n < |net.nodes|
    ensures NodePins(net, n)
    ensures forall i | 0 <= i < |net.nodes[n].inputs| ::
              && net.nodes[n].inputs[i] < |net.pins|
              && net.pins[net.nodes[n].inputs[i]].node == n
              && net.pins[net.nodes[n].inputs[i]].kind == Input
              && net.pins[net.nodes[n].inputs[i]].index == i
    ensures forall i | 0 <= i < |net.nodes[n].outputs| ::
              && net.nodes[n].outputs[i] < |net.pins|
              && net.pins[net.nodes[n].outputs[i]].node == n
              && net.pins[net.nodes[n].outputs[i]].kind == Output
              && net.pins[net.nodes[n].outputs[i]].index == i
  {
    forall i | 0 <= i < |net.nodes[n].inputs|
      ensures && net.nodes[n].inputs[i] < |net.pins|
              && net.pins[net.nodes[n].inputs[i]].node == n
              && net.pins[net.nodes[n].inputs[i]].kind == Input
              && net.pins[net.nodes[n].inputs[i]].index == i
    {
      assert Slot(net, n, Input, i);
    }
    forall i | 0 <= i < |net.nodes[n].outputs|
      ensures && net.nodes[n].outputs[i] < |net.pins|
              && net.pins[net.nodes[n].outputs[i]].node == n
              && net.pins[net.nodes[n].outputs[i]].kind == Output
              && net.pins[net.nodes[n].outputs[i]].index == i
    {
      assert Slot(net, n, Output, i);
    }
  }

  // ---------------------------------------------------------------------
  // Pin and Node operations (node.py)

  /** Pin.__init__: a fresh pin is undefined and unconnected. */
  function NewPin(n: NodeId, k: PinType, index: nat): (pin: Pin)
    ensures pin.value == Undefined && pin.connections == []
    ensures pin.node == n && pin.kind == k && pin.index == index
  {
    Pin(n, k, index, [], Undefined)
  }

  /** Node.__init__: a node with no pins, appended to the arena. */
  function NewNode(net: Net, name: string, g: Gate): (r: (Net, NodeId))
    ensures r.1 == |net.nodes| && r.0.pins == net.pins
    ensures r.0.nodes == net.nodes + [Node(name, g, [], [])]
  {
    (Net(net.pins, net.nodes + [Node(name, g, [], [])]), |net.nodes|)
  }

  /** A new node without pins keeps every pin and slot owned. */
  lemma NewNodeKeeps(net: Net, name: string, g: Gate)
    requires Owned(net)
    ensures Owned(NewNode(net, name, g).0)
  {
    var r := NewNode(net, name, g).0;
    forall p | 0 <= p < |r.pins| ensures PinHome(r, p) { assert PinHome(net, p); }
    forall n, k, i | 0 <= n < |r.nodes| && 0 <= i < |Side(r.nodes[n], k)| ensures Slot(r, n, k, i) {
      assert Slot(net, n, k, i);
    }
  }

  /** Node.add_input / Node.add_output: one fresh pin, whose index is the old
      length of the list it is appended to; nothing else changes. */
  function AddPin(net: Net, n: NodeId, k: PinType): (r: (Net, PinId))
    requires n < |net.nodes|
    ensures r.1 == |net.pins|
    ensures r.0.pins == net.pins + [NewPin(n, k, |Side(net.nodes[n], k)|)]
    ensures |r.0.nodes| == |net.nodes|
    ensures Side(r.0.nodes[n], k) == Side(net.nodes[n], k) + [r.1]
    ensures r.0.nodes[n] == (if k == Input then net.nodes[n].(inputs := r.0.nodes[n].inputs)
                             else net.nodes[n].(outputs := r.0.nodes[n].outputs))
    ensures forall m | 0 <= m < |net.nodes| && m != n :: r.0.nodes[m] == net.nodes[m]
  {
    var x := net.nodes[n];
    var p := |net.pins|;
    var x' := if k == Input then x.(inputs := x.inputs + [p]) else x.(outputs := x.outputs + [p]);
    (Net(net.pins + [NewPin(n, k, |Side(x, k)|)], net.nodes[n := x']), p)
  }

  /** A new pin, unconnected and filed in its node's next slot, keeps the
      arena owned, linked and directed. */
  lemma AddPinKeeps(net: Net, n: NodeId, k: PinType)
    requires n < |net.nodes|
    ensures Owned(net) ==> Owned(AddPin(net, n, k).0)
    ensures Linked(net.pins) ==> Linked(AddPin(net, n, k).0.pins)
    ensures Directed(net.pins) ==> Directed(AddPin(net, n, k).0.pins)
  {
    var r := AddPin(net, n, k).0;
    var x := net.nodes[n];
    var p := |net.pins|;
    if Owned(net) {
      forall q | 0 <= q < |r.pins| ensures PinHome(r, q) {
        if q < p { assert PinHome(net, q); }
      }
      forall m, k', i | 0 <= m < |r.nodes| && 0 <= i < |Side(r.nodes[m], k')| ensures Slot(r, m, k', i) {
        if m != n || k' != k || i < |Side(x, k)| { assert Slot(net, m, k', i); }
      }
    }
    if Linked(net.pins) {
      forall q | 0 <= q < |r.pins| ensures PeerOk(r.pins, q) {
        if q < p { assert PeerOk(net.pins, q); }
      }
    }
    if Directed(net.pins) {
      forall q | 0 <= q < |r.pins| ensures DirOk(r.pins, q) {
        if q < p { assert DirOk(net.pins, q); }
      }
    }
  }


  function AddInput(net: Net, n: NodeId): (r: (Net, PinId))
    requires n < |net.nodes|
    ensures r == AddPin(net, n, Input)
    ensures r.0.nodes[n].inputs == net.nodes[n].inputs + [r.1] && r.0.nodes[n].outputs == net.nodes[n].outputs
    ensures r.0.pins[r.1] == NewPin(n, Input, |net.nodes[n].inputs|)
  {
    AddPin(net, n, Input)
  }

  function AddOutput(net: Net, n: NodeId): (r: (Net, PinId))
    requires n < |net.nodes|
    ensures r == AddPin(net, n, Output)
    ensures r.0.nodes[n].outputs == net.nodes[n].outputs + [r.1] && r.0.nodes[n].inputs == net.nodes[n].inputs
    ensures r.0.pins[r.1] == NewPin(n, Output, |net.nodes[n].outputs|)
  {
    AddPin(net, n, Output)
  }

  /** `k` fresh pin ids from `start` on. */
  function Ids(start: nat, k: nat): (r: seq<PinId>)
    ensures |r| == k && forall i | 0 <= i < k :: r[i] == start + i
    decreases k
  {
    if k == 0 then [] else Ids(start, k - 1) + [start + k - 1]
  }

  /** What `k` calls of add_input (or add_output) on node `n` leave: `k`
      fresh pins appended with consecutive ids, filed in order in the
      node's next slots, and nothing else of the arena changed.
      `AddPinsStep` shows it is the `k`-fold `AddPin`. */
  function AddPins(net: Net, n: NodeId, kind: PinType, k: nat): (r: Net)
    requires n < |net.nodes|
    ensures |r.pins| == |net.pins| + k && r.pins[..|net.pins|] == net.pins
    ensures forall q | |net.pins| <= q < |r.pins| :: r.pins[q] == NewPin(n, kind, |Side(net.nodes[n], kind)| + (q - |net.pins|))
    ensures |r.nodes| == |net.nodes|
    ensures Side(r.nodes[n], kind) == Side(net.nodes[n], kind) + Ids(|net.pins|, k)
    ensures r.nodes[n] == (if kind == Input then net.nodes[n].(inputs := r.nodes[n].inputs)
                           else net.nodes[n].(outputs := r.nodes[n].outputs))
    ensures forall m | 0 <= m < |net.nodes| && m != n :: r.nodes[m] == net.nodes[m]
  {
    var x := net.nodes[n];
    var base := |Side(x, kind)|;
    var extra := seq(k, i requires 0 <= i < k => NewPin(n, kind, base + i));
    var ids := Ids(|net.pins|, k);
    var x' := if kind == Input then x.(inputs := x.inputs + ids) else x.(outputs := x.outputs + ids);
    Net(net.pins + extra, net.nodes[n := x'])
  }

  /** One more pin is one more call of add_input (or add_output). */
  lemma AddPinsStep(net: Net, n: NodeId, kind: PinType, k: nat)
    requires n < |net.nodes|
    ensures AddPins(net, n, kind, k + 1) == AddPin(AddPins(net, n, kind, k), n, kind).0
  {
    var a := AddPins(net, n, kind, k);
    var b := AddPins(net, n, kind, k + 1);
    var c := AddPin(a, n, kind).0;
    assert b.pins == c.pins by {
      assert |b.pins| == |c.pins|;
      forall q | 0 <= q < |b.pins| ensures b.pins[q] == c.pins[q] {
        if q < |net.pins| {
          assert b.pins[q] == b.pins[..|net.pins|][q] && a.pins[q] == a.pins[..|net.pins|][q];
        }
      }
    }
    assert Ids(|net.pins|, k + 1) == Ids(|net.pins|, k) + [|net.pins| + k];
    var side := Side(net.nodes[n], kind);
    assert Side(c.nodes[n], kind) == side + Ids(|net.pins|, k + 1) by {
      assert Side(c.nodes[n], kind) == (side + Ids(|net.pins|, k)) + [|net.pins| + k];
    }
    assert b.nodes == c.nodes by {
      forall m | 0 <= m < |b.nodes| ensures b.nodes[m] == c.nodes[m] {
        if m == n {
          assert Side(b.nodes[n], kind) == Side(c.nodes[n], kind);
        }
      }
    }
  }

  /** Adding pins keeps the arena owned, linked and directed. */
  /** Adding no pins changes nothing. */
  lemma AddPinsNone(net: Net, n: NodeId, kind: PinType)
    requires n < |net.nodes|
    ensures AddPins(net, n, kind, 0) == net
  {
    assert AddPins(net, n, kind, 0).pins == net.pins;
    assert Side(net.nodes[n], kind) + Ids(|net.pins|, 0) == Side(net.nodes[n], kind);
  }

  /** Adding `k` pins keeps ownership, the connection invariant and the
      direction invariant. */
  lemma AddPinsKeeps(net: Net, n: NodeId, kind: PinType, k: nat)
    requires n < |net.nodes|
    ensures Owned(net) ==> Owned(AddPins(net, n, kind, k))
    ensures Linked(net.pins) ==> Linked(AddPins(net, n, kind, k).pins)
    ensures Directed(net.pins) ==> Directed(AddPins(net, n, kind, k).pins)
  {
    if Owned(net) { AddPinsOwned(net, n, kind, k); }
    if Linked(net.pins) { AddPinsLinked(net, n, kind, k); }
    if Directed(net.pins) { AddPinsDirected(net, n, kind, k); }
  }

  lemma {:induction false} AddPinsOwned(net: Net, n: NodeId, kind: PinType, k: nat)
    requires n < |net.nodes| && Owned(net)
    ensures Owned(AddPins(net, n, kind, k))
    decreases k
  {
    if k > 0 {
      AddPinsOwned(net, n, kind, k - 1);
      AddPinKeeps(AddPins(net, n, kind, k - 1), n, kind);
      AddPinsStep(net, n, kind, k - 1);
    } else {
      AddPinsNone(net, n, kind);
    }
  }

  lemma {:induction false} AddPinsLinked(net: Net, n: NodeId, kind: PinType, k: nat)
    requires n < |net.nodes| && Linked(net.pins)
    ensures Linked(AddPins(net, n, kind, k).pins)
    decreases k
  {
    if k > 0 {
      AddPinsLinked(net, n, kind, k - 1);
      AddPinKeeps(AddPins(net, n, kind, k - 1), n, kind);
      AddPinsStep(net, n, kind, k - 1);
    } else {
      AddPinsNone(net, n, kind);
    }
  }

  lemma {:induction false} AddPinsDirected(net: Net, n: NodeId, kind: PinType, k: nat)
    requires n < |net.nodes| && Directed(net.pins)
    ensures Directed(AddPins(net, n, kind, k).pins)
    decreases k
  {
    if k > 0 {
      AddPinsDirected(net, n, kind, k - 1);
      AddPinKeeps(AddPins(net, n, kind, k - 1), n, kind);
      AddPinsStep(net, n, kind, k - 1);
    } else {
      AddPinsNone(net, n, kind);
    }
  }


  /** Pin.set_value: an unconditional overwrite of one value. */
  function SetValue(net: Net, p: PinId, v: LogicState): (r: Net)
    requires p < |net.pins|
    ensures |r.pins| == |net.pins| && r.nodes == net.nodes
    ensures r.pins[p] == net.pins[p].(value := v)
    ensures forall q | 0 <= q < |net.pins| && q != p :: r.pins[q] == net.pins[q]
    ensures Erase(r) == Erase(net)
  {
    var r := net.(pins := net.pins[p := net.pins[p].(value := v)]);
    assert Erase(r).pins == Erase(net).pins;
    r
  }


  /** `set_value(v)` on each pin of `cs` in turn (the loop over a pin's
      connections in the propagation code): the listed pins hold `v`, every
      other pin is untouched, and the wiring is unchanged. */
  function SetAll(net: Net, cs: seq<PinId>, v: LogicState): (r: Net)
    requires forall c | c in cs :: c < |net.pins|
    ensures |r.pins| == |net.pins| && r.nodes == net.nodes && Erase(r) == Erase(net)
    ensures forall q | 0 <= q < |net.pins| :: r.pins[q] == net.pins[q].(value := if q in cs then v else net.pins[q].value)
    decreases |cs|
  {
    if cs == [] then net
    else
      var init, last := cs[..|cs| - 1], cs[|cs| - 1];
      assert cs == init + [last];
      assert last in cs;
      assert forall q :: q in cs <==> q in init || q == last;
      SetValue(SetAll(net, cs[..|cs| - 1], v), cs[|cs| - 1], v)
  }

  /** The values of a list of pins. */
  function Values(net: Net, ps: seq<PinId>): (vs: seq<LogicState>)
    requires forall i | 0 <= i < |ps| :: ps[i] < |net.pins|
    ensures |vs| == |ps| && forall i | 0 <= i < |ps| :: vs[i] == net.pins[ps[i]].value
  {
    seq(|ps|, i requires 0 <= i < |ps| => net.pins[ps[i]].value)
  }

  // ---------------------------------------------------------------------
  // Connection lists

  /** list.remove: drop the first occurrence of `x`, if any. */
  function RemoveFirst<T(==)>(s: seq<T>, x: T): seq<T> {
    if s == [] then []
    else if s[0] == x then s[1..]
    else [s[0]] + RemoveFirst(s[1..], x)
  }

  /** `s` with every occurrence of `x` dropped, order kept. */
  function Without(s: seq<nat>, x: nat): (r: seq<nat>)
    ensures forall y :: y in r <==> y in s && y != x
    ensures |r| <= |s|
    ensures x !in s ==> r == s
  {
    if s == [] then []
    else if s[0] == x then Without(s[1..], x)
    else [s[0]] + Without(s[1..], x)
  }

  /** In a duplicate-free list, removing the first occurrence removes all. */
  lemma {:induction false} RemoveFirstNoDup(s: seq<nat>, x: nat)
    requires NoDup(s)
    ensures RemoveFirst(s, x) == Without(s, x)
    ensures NoDup(RemoveFirst(s, x))
  {
    if s != [] {
      assert NoDup(s[1..]) by {
        forall i, j | 0 <= i < j < |s[1..]| ensures s[1..][i] != s[1..][j] { assert s[i + 1] != s[j + 1]; }
      }
      RemoveFirstNoDup(s[1..], x);
      if s[0] == x {
        assert x !in s[1..] by {
          forall j | 0 <= j < |s[1..]| ensures s[1..][j] != x { assert s[0] != s[j + 1]; }
        }
      } else {
        var t := RemoveFirst(s[1..], x);
        assert s[0] !in t by {
          forall j | 0 <= j < |s[1..]| ensures s[1..][j] != s[0] { assert s[0] != s[j + 1]; }
        }
        forall i, j | 0 <= i < j < |[s[0]] + t| ensures ([s[0]] + t)[i] != ([s[0]] + t)[j] {
          if i > 0 { assert ([s[0]] + t)[i] == t[i - 1]; }
        }
      }
    }
  }

  /** Removing the element just appended gives back the list. */
  lemma {:induction false} RemoveFirstAppended<T>(s: seq<T>, x: T)
    requires x !in s
    ensures RemoveFirst(s + [x], x) == s
  {
    if s != [] {
      assert (s + [x])[1..] == s[1..] + [x];
      RemoveFirstAppended(s[1..], x);
    }
  }

  lemma AppendNoDup<T>(s: seq<T>, x: T)
    requires NoDup(s) && x !in s
    ensures NoDup(s + [x])
  {
    forall i, j | 0 <= i < j < |s + [x]| ensures (s + [x])[i] != (s + [x])[j] {
      if j < |s| { assert (s + [x])[j] == s[j]; } else { assert s[i] in s; }
    }
  }

  /** Pin.connect(a, b) on the arena's pins: when `b` is not yet a peer of
      `a`, each is appended to the other's list; otherwise nothing changes. */
  function Link(pins: seq<Pin>, a: PinId, b: PinId): (r: seq<Pin>)
    requires a < |pins| && b < |pins|
    ensures |r| == |pins|
    ensures b in pins[a].connections ==> r == pins
    ensures a != b && b !in pins[a].connections ==>
              r[a].connections == pins[a].connections + [b] && r[b].connections == pins[b].connections + [a]
    ensures forall q | 0 <= q < |pins| :: r[q] == pins[q].(connections := r[q].connections)
    ensures forall q | 0 <= q < |pins| && q != a && q != b :: r[q] == pins[q]
    ensures a != b && Linked(pins) ==> Linked(r) && b in r[a].connections && a in r[b].connections
    ensures Directed(pins) && pins[a].kind != pins[b].kind ==> Directed(r)
  {
    if b in pins[a].connections then
      assert Linked(pins) ==> PeerOk(pins, a);
      pins
    else
      var s := pins[a := pins[a].(connections := pins[a].connections + [b])];
      var r := s[b := s[b].(connections := s[b].connections + [a])];
      assert Directed(pins) && pins[a].kind != pins[b].kind ==> Directed(r) by {
        if Directed(pins) && pins[a].kind != pins[b].kind {
          forall q | 0 <= q < |r| ensures DirOk(r, q) { assert DirOk(pins, q); }
        }
      }
      assert a != b && Linked(pins) ==> Linked(r) by {
        if a != b && Linked(pins) {
          assert PeerOk(pins, b);
          assert a !in pins[b].connections;
          forall q | 0 <= q < |r| ensures PeerOk(r, q) {
            assert PeerOk(pins, q);
            if q == a { AppendNoDup(pins[a].connections, b); }
            if q == b { AppendNoDup(pins[b].connections, a); }
          }
        }
      }
      r
  }

  /** Pin.disconnect(a, b) on the arena's pins: when `b` is a peer of `a`,
      the first occurrence of each is removed from the other's list;
      otherwise nothing changes. */
  function Unlink(pins: seq<Pin>, a: PinId, b: PinId): (r: seq<Pin>)
    requires a < |pins| && b < |pins| && Linked(pins)
    ensures |r| == |pins| && Linked(r)
    ensures b !in r[a].connections && a !in r[b].connections
    ensures b !in pins[a].connections ==> r == pins
    ensures b in pins[a].connections ==>
              r[a].connections == Without(pins[a].connections, b) && r[b].connections == Without(pins[b].connections, a)
    ensures forall q | 0 <= q < |pins| :: r[q] == pins[q].(connections := r[q].connections)
    ensures forall q | 0 <= q < |pins| && q != a && q != b :: r[q] == pins[q]
    ensures Directed(pins) ==> Directed(r)
  {
    if b in pins[a].connections then
      assert PeerOk(pins, a) && PeerOk(pins, b);
      RemoveFirstNoDup(pins[a].connections, b);
      RemoveFirstNoDup(pins[b].connections, a);
      var s := pins[a := pins[a].(connections := RemoveFirst(pins[a].connections, b))];
      var r := s[b := s[b].(connections := RemoveFirst(s[b].connections, a))];
      assert Linked(r) by {
        forall q | 0 <= q < |r| ensures PeerOk(r, q) {
          assert PeerOk(pins, q);
        }
      }
      assert Directed(pins) ==> Directed(r) by {
        if Directed(pins) {
          forall q | 0 <= q < |r| ensures DirOk(r, q) { assert DirOk(pins, q); }
        }
      }
      r
    else
      assert PeerOk(pins, b);
      pins
  }

  /** Connecting two unconnected pins and disconnecting them again restores
      both connection lists exactly. */
  lemma LinkUnlink(pins: seq<Pin>, a: PinId, b: PinId)
    requires a < |pins| && b < |pins| && a != b && Linked(pins) && b !in pins[a].connections
    ensures Unlink(Link(pins, a, b), a, b) == pins
  {
    var l := Link(pins, a, b);
    assert PeerOk(pins, b);
    var u := Unlink(l, a, b);
    RemoveFirstAppended(pins[a].connections, b);
    RemoveFirstAppended(pins[b].connections, a);
    assert PeerOk(l, a) && PeerOk(l, b);
    RemoveFirstNoDup(l[a].connections, b);
    RemoveFirstNoDup(l[b].connections, a);
    assert u[a] == pins[a] && u[b] == pins[b];
  }

  /** A second disconnect of the same pair is a no-op. */
  lemma UnlinkTwice(pins: seq<Pin>, a: PinId, b: PinId)
    requires a < |pins| && b < |pins| && Linked(pins)
    ensures Unlink(Unlink(pins, a, b), a, b) == Unlink(pins, a, b)
  {
  }
}
