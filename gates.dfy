/** The gate variants: what `compute` does to an arena for each of them.

    The functions of this module say what one call of a node's `compute`
    leaves behind (`Fire`, and for a custom gate the relaxation of its
    internal circuit); the methods that follow them run the loops the
    Python code runs and are proved to end in exactly that state. */
module Gates {
  import opened Netlist

  // ---------------------------------------------------------------------
  // Truth tables

  /** The value an AND gate settles on: LOW when some input is LOW, HIGH
      otherwise (an UNDEFINED input does not decide it). */
  function AndOf(vs: seq<LogicState>): (r: LogicState)
    ensures r != Undefined
    ensures r == Low <==> Low in vs
  {
    if Low in vs then Low else High
  }

  /** The value an OR gate settles on: HIGH when some input is HIGH, LOW
      otherwise. */
  function OrOf(vs: seq<LogicState>): (r: LogicState)
    ensures r != Undefined
    ensures r == High <==> High in vs
  {
    if High in vs then High else Low
  }

  /** NOT: HIGH becomes LOW; LOW and UNDEFINED become HIGH. */
  function NotOf(v: LogicState): (r: LogicState)
    ensures r != Undefined
    ensures v == High <==> r == Low
  {
    if v == High then Low else if v == Low then High else High
  }

  /** InputSwitch.toggle: LOW becomes HIGH, any other state becomes LOW. */
  function Toggled(s: LogicState): (r: LogicState)
    ensures r != Undefined
    ensures r == High <==> s == Low
  {
    if s == Low then High else Low
  }

  /** The level a custom gate drives onto an external output from an
      internal bulb: HIGH when the bulb's input pin is HIGH, else LOW. */
  function BulbOut(inner: Net, b: NodeId): (v: LogicState)
    requires Valid(inner) && b < |inner.nodes| && inner.nodes[b].gate.OutputBulb?
    ensures v != Undefined
    ensures v == High <==> inner.nodes[b].inputs != [] && inner.nodes[b].inputs[0] < |inner.pins| && inner.pins[inner.nodes[b].inputs[0]].value == High
  {
    PinsOf(inner, b);
    assert NodeOk(inner.nodes[b]);
    if inner.pins[inner.nodes[b].inputs[0]].value == High then High else Low
  }

  /** Nesting rank of a node: a custom gate loaded at depth `l` ranks
      `l + 1`, a basic gate 0. */
  function Rank(x: Node): nat {
    if x.gate.CustomGate? then x.gate.level + 1 else 0
  }

  // ---------------------------------------------------------------------
  // Constructors

  /** Node.__init__ followed by `ins` calls of add_input and `outs` calls of
      add_output: a node appended to the arena with fresh pins numbered in
      creation order. */
  function Stock(net: Net, name: string, g: Gate, ins: nat, outs: nat): (r: (Net, NodeId))
    ensures r.1 == |net.nodes| && |r.0.nodes| == |net.nodes| + 1 && r.0.nodes[..|net.nodes|] == net.nodes
    ensures r.0.nodes[r.1] == Node(name, g, Ids(|net.pins|, ins), Ids(|net.pins| + ins, outs))
    ensures |r.0.pins| == |net.pins| + ins + outs && r.0.pins[..|net.pins|] == net.pins
    ensures forall q | |net.pins| <= q < |net.pins| + ins :: r.0.pins[q] == NewPin(r.1, Input, q - |net.pins|)
    ensures forall q | |net.pins| + ins <= q < |r.0.pins| :: r.0.pins[q] == NewPin(r.1, Output, q - |net.pins| - ins)
  {
    var (a, n) := NewNode(net, name, g);
    var b := AddPins(a, n, Input, ins);
    var c := AddPins(b, n, Output, outs);
    assert c.pins[..|net.pins|] == b.pins[..|net.pins|];
    assert c.nodes[..|net.nodes|] == net.nodes;
    (c, n)
  }

  /** A node made by `Stock` keeps a well-formed arena well formed when the
      gate fits its pins. */
  lemma StockValid(net: Net, name: string, g: Gate, ins: nat, outs: nat)
    requires Valid(net)
    requires NodeOk(Stock(net, name, g, ins, outs).0.nodes[|net.nodes|])
    ensures Valid(Stock(net, name, g, ins, outs).0)
  {
    var a := NewNode(net, name, g).0;
    var n := |net.nodes|;
    var b := AddPins(a, n, Input, ins);
    var c := AddPins(b, n, Output, outs);
    assert Stock(net, name, g, ins, outs).0 == c;
    NewNodeKeeps(net, name, g);
    AddPinsOwned(a, n, Input, ins);
    AddPinsOwned(b, n, Output, outs);
    AddPinsLinked(a, n, Input, ins);
    AddPinsLinked(b, n, Output, outs);
    StockNodes(net, c);
  }

  /** The nodes of an arena that extends `net` by one well-formed node are
      all well formed. */
  lemma StockNodes(net: Net, c: Net)
    requires forall m | 0 <= m < |net.nodes| :: NodeOk(net.nodes[m])
    requires |c.nodes| == |net.nodes| + 1 && c.nodes[..|net.nodes|] == net.nodes
    requires NodeOk(c.nodes[|net.nodes|])
    ensures forall m | 0 <= m < |c.nodes| :: NodeOk(c.nodes[m])
  {
    forall m | 0 <= m < |c.nodes| ensures NodeOk(c.nodes[m]) {
      if m < |net.nodes| { assert c.nodes[m] == c.nodes[..|net.nodes|][m]; }
    }
  }

  /** AndGate.__init__: named "AND", two inputs, one output. */
  function NewAnd(net: Net): (r: (Net, NodeId))
    ensures r == Stock(net, "AND", AndGate, 2, 1)
    ensures Valid(net) ==> Valid(r.0)
  {
    assert Valid(net) ==> Valid(Stock(net, "AND", AndGate, 2, 1).0) by {
      if Valid(net) { StockValid(net, "AND", AndGate, 2, 1); }
    }
    Stock(net, "AND", AndGate, 2, 1)
  }

  /** OrGate.__init__: named "OR", two inputs, one output. */
  function NewOr(net: Net): (r: (Net, NodeId))
    ensures r == Stock(net, "OR", OrGate, 2, 1)
    ensures Valid(net) ==> Valid(r.0)
  {
    assert Valid(net) ==> Valid(Stock(net, "OR", OrGate, 2, 1).0) by {
      if Valid(net) { StockValid(net, "OR", OrGate, 2, 1); }
    }
    Stock(net, "OR", OrGate, 2, 1)
  }

  /** NotGate.__init__: named "NOT", one input, one output. */
  function NewNot(net: Net): (r: (Net, NodeId))
    ensures r == Stock(net, "NOT", NotGate, 1, 1)
    ensures Valid(net) ==> Valid(r.0)
  {
    assert Valid(net) ==> Valid(Stock(net, "NOT", NotGate, 1, 1).0) by {
      if Valid(net) { StockValid(net, "NOT", NotGate, 1, 1); }
    }
    Stock(net, "NOT", NotGate, 1, 1)
  }

  /** OutputBulb.__init__: named "Output", one input, no outputs, not
      active. */
  function NewBulb(net: Net): (r: (Net, NodeId))
    ensures r == Stock(net, "Output", OutputBulb(false), 1, 0)
    ensures Valid(net) ==> Valid(r.0)
  {
    assert Valid(net) ==> Valid(Stock(net, "Output", OutputBulb(false), 1, 0).0) by {
      if Valid(net) { StockValid(net, "Output", OutputBulb(false), 1, 0); }
    }
    Stock(net, "Output", OutputBulb(false), 1, 0)
  }

  /** InputSwitch.__init__: named "Input", one output, state LOW, and the
      output already driven LOW. */
  function NewSwitch(net: Net): (r: (Net, NodeId))
    ensures r.1 == |net.nodes| && |r.0.nodes| == |net.nodes| + 1 && r.0.nodes[..|net.nodes|] == net.nodes
    ensures r.0.nodes[r.1] == Node("Input", InputSwitch(Low), [], [|net.pins|])
    ensures r.0.pins == net.pins + [NewPin(r.1, Output, 0).(value := Low)]
    ensures Valid(net) ==> Valid(r.0)
  {
    var (a, n) := Stock(net, "Input", InputSwitch(Low), 0, 1);
    var r := SetValue(a, |net.pins|, Low);
    assert r.pins == net.pins + [NewPin(n, Output, 0).(value := Low)];
    assert Valid(net) ==> Valid(r) by {
      if Valid(net) {
        StockValid(net, "Input", InputSwitch(Low), 0, 1);
        ValidTransfer(a, r);
      }
    }
    (r, n)
  }

  // ---------------------------------------------------------------------
  // One call of compute, as a function of the arena

  /** The arena after one call of node `n`'s `compute`.  Only values and
      gate states change; the wiring stays as it was. */
  function Fire(net: Net, n: NodeId): (r: Net)
    requires Valid(net) && n < |net.nodes|
    ensures Erase(r) == Erase(net) && Valid(r)
    decreases Rank(net.nodes[n]), 1, 0
  {
    PinsOf(net, n);
    var x := net.nodes[n];
    assert NodeOk(x);
    var r := (match x.gate
      case AndGate => SetValue(net, x.outputs[0], AndOf(Values(net, x.inputs)))
      case OrGate => SetValue(net, x.outputs[0], OrOf(Values(net, x.inputs)))
      case NotGate => SetValue(net, x.outputs[0], NotOf(net.pins[x.inputs[0]].value))
      case InputSwitch(s) => SetValue(net, x.outputs[0], s)
      case OutputBulb(_) =>
        var y := x.(gate := OutputBulb(net.pins[x.inputs[0]].value == High));
        ReplaceNode(net, n, y);
        net.(nodes := net.nodes[n := y])
      case CustomGate(_, _, _, _, _) => FireCustom(net, n));
    ValidTransfer(net, r);
    r
  }

  /** Replace the internal circuit of custom gate `n` by one with the same
      wiring. */
  function WithInner(net: Net, n: NodeId, inner: Net): (r: Net)
    requires n < |net.nodes| && net.nodes[n].gate.CustomGate?
    requires Erase(inner) == Erase(net.nodes[n].gate.inner)
    ensures Erase(r) == Erase(net) && r.pins == net.pins && |r.nodes| == |net.nodes|
    ensures r.nodes[n] == net.nodes[n].(gate := net.nodes[n].gate.(inner := inner))
    ensures forall m | 0 <= m < |net.nodes| && m != n :: r.nodes[m] == net.nodes[m]
  {
    var x := net.nodes[n];
    var y := x.(gate := x.gate.(inner := inner));
    ReplaceNode(net, n, y);
    net.(nodes := net.nodes[n := y])
  }

  /** The internal nodes after the first `k` steps of the input copy of
      CustomGate.compute: in order, node `ins[i]` becomes a switch in
      state `vs[i]`. */
  function Load(nodes: seq<Node>, ins: seq<NodeId>, vs: seq<LogicState>, k: nat): (r: seq<Node>)
    requires k <= |ins| && k <= |vs|
    requires forall i | 0 <= i < k :: ins[i] < |nodes|
    ensures |r| == |nodes|
    decreases k
  {
    if k == 0 then nodes
    else
      var p := Load(nodes, ins, vs, k - 1);
      p[ins[k - 1] := p[ins[k - 1]].(gate := InputSwitch(vs[k - 1]))]
  }

  /** When every mapped node is a switch, loading changes nothing but
      switch states: each node keeps its erasure and whether it is a
      switch. */
  lemma {:induction false} LoadShape(nodes: seq<Node>, ins: seq<NodeId>, vs: seq<LogicState>, k: nat)
    requires k <= |ins| && k <= |vs|
    requires forall i | 0 <= i < k :: ins[i] < |nodes| && nodes[ins[i]].gate.InputSwitch?
    ensures forall j | 0 <= j < |nodes| ::
              EraseNode(Load(nodes, ins, vs, k)[j]) == EraseNode(nodes[j])
              && Load(nodes, ins, vs, k)[j].gate.InputSwitch? == nodes[j].gate.InputSwitch?
    decreases k
  {
    if k > 0 {
      LoadShape(nodes, ins, vs, k - 1);
      var p := Load(nodes, ins, vs, k - 1);
      var s := ins[k - 1];
      assert EraseNode(p[s].(gate := InputSwitch(vs[k - 1]))) == EraseNode(p[s]);
    }
  }

  /** So loading keeps the wiring of the internal circuit. */
  lemma LoadErase(inner: Net, ins: seq<NodeId>, vs: seq<LogicState>, k: nat)
    requires k <= |ins| && k <= |vs|
    requires forall i | 0 <= i < k :: ins[i] < |inner.nodes| && inner.nodes[ins[i]].gate.InputSwitch?
    ensures Erase(inner.(nodes := Load(inner.nodes, ins, vs, k))) == Erase(inner)
  {
    LoadShape(inner.nodes, ins, vs, k);
    assert Erase(inner.(nodes := Load(inner.nodes, ins, vs, k))).nodes == Erase(inner).nodes;
  }

  /** With no node mapped twice, node `ins[i]` ends up holding `vs[i]`. */
  lemma {:induction false} LoadSet(nodes: seq<Node>, ins: seq<NodeId>, vs: seq<LogicState>, k: nat)
    requires k <= |ins| && k <= |vs| && NoDup(ins)
    requires forall i | 0 <= i < k :: ins[i] < |nodes|
    ensures forall i | 0 <= i < k :: Load(nodes, ins, vs, k)[ins[i]].gate == InputSwitch(vs[i])
    decreases k
  {
    if k > 0 {
      LoadSet(nodes, ins, vs, k - 1);
      assert forall i | 0 <= i < k - 1 :: ins[i] != ins[k - 1];
    }
  }

  /** Nodes no input is mapped to are untouched by the input copy. */
  lemma {:induction false} LoadOthers(nodes: seq<Node>, ins: seq<NodeId>, vs: seq<LogicState>, k: nat)
    requires k <= |ins| && k <= |vs|
    requires forall i | 0 <= i < k :: ins[i] < |nodes|
    ensures forall j | 0 <= j < |nodes| && j !in ins[..k] :: Load(nodes, ins, vs, k)[j] == nodes[j]
    decreases k
  {
    if k > 0 {
      LoadOthers(nodes, ins, vs, k - 1);
      assert ins[..k] == ins[..k - 1] + [ins[k - 1]];
    }
  }

  /** The first `k` steps of the input copy of CustomGate.compute, on the
      whole arena: the internal circuit of custom gate `n` is loaded with
      the values of its first `k` external inputs. */
  function LoadSwitches(net: Net, n: NodeId, k: nat): (r: Net)
    requires Valid(net) && n < |net.nodes| && net.nodes[n].gate.CustomGate?
    requires k <= |net.nodes[n].inputs| && k <= |net.nodes[n].gate.inputNodes|
    ensures Erase(r) == Erase(net) && Valid(r) && r.pins == net.pins && |r.nodes| == |net.nodes|
    ensures r.nodes[n].gate.CustomGate?
    ensures r.nodes[n] == net.nodes[n].(gate := net.nodes[n].gate.(inner := r.nodes[n].gate.inner))
    ensures forall m | 0 <= m < |net.nodes| && m != n :: r.nodes[m] == net.nodes[m]
    ensures NodeOk(net.nodes[n]) && NodePins(net, n)
    ensures |r.nodes[n].gate.inner.nodes| == |net.nodes[n].gate.inner.nodes|
  {
    PinsOf(net, n);
    var x := net.nodes[n];
    assert NodeOk(x);
    var inner := x.gate.inner;
    var vs := Values(net, x.inputs);
    LoadErase(inner, x.gate.inputNodes, vs, k);
    var loaded := inner.(nodes := Load(inner.nodes, x.gate.inputNodes, vs, k));
    var r := WithInner(net, n, loaded);
    ValidTransfer(net, r);
    r
  }

  /** The pin levels after the first `k` steps of the output copy of
      CustomGate.compute: in order, pin `outs[i]` takes level `vs[i]`. */
  function Drive(pins: seq<Pin>, outs: seq<PinId>, vs: seq<LogicState>, k: nat): (r: seq<Pin>)
    requires k <= |outs| && k <= |vs|
    requires forall i | 0 <= i < k :: outs[i] < |pins|
    ensures |r| == |pins|
    decreases k
  {
    if k == 0 then pins
    else
      var p := Drive(pins, outs, vs, k - 1);
      p[outs[k - 1] := p[outs[k - 1]].(value := vs[k - 1])]
  }

  /** Driving changes pin levels and nothing else. */
  lemma {:induction false} DriveShape(pins: seq<Pin>, outs: seq<PinId>, vs: seq<LogicState>, k: nat)
    requires k <= |outs| && k <= |vs|
    requires forall i | 0 <= i < k :: outs[i] < |pins|
    ensures forall q | 0 <= q < |pins| :: Drive(pins, outs, vs, k)[q] == pins[q].(value := Drive(pins, outs, vs, k)[q].value)
    decreases k
  {
    if k > 0 {
      DriveShape(pins, outs, vs, k - 1);
    }
  }

  /** With no pin driven twice, pin `outs[i]` ends up at level `vs[i]`. */
  lemma {:induction false} DriveSet(pins: seq<Pin>, outs: seq<PinId>, vs: seq<LogicState>, k: nat)
    requires k <= |outs| && k <= |vs| && NoDup(outs)
    requires forall i | 0 <= i < k :: outs[i] < |pins|
    ensures forall i | 0 <= i < k :: Drive(pins, outs, vs, k)[outs[i]].value == vs[i]
    decreases k
  {
    if k > 0 {
      DriveSet(pins, outs, vs, k - 1);
      assert forall i | 0 <= i < k - 1 :: outs[i] != outs[k - 1];
    }
  }

  /** Pins that are not driven are untouched. */
  lemma {:induction false} DriveOthers(pins: seq<Pin>, outs: seq<PinId>, vs: seq<LogicState>, k: nat)
    requires k <= |outs| && k <= |vs|
    requires forall i | 0 <= i < k :: outs[i] < |pins|
    ensures forall q | 0 <= q < |pins| && q !in outs[..k] :: Drive(pins, outs, vs, k)[q] == pins[q]
    decreases k
  {
    if k > 0 {
      DriveOthers(pins, outs, vs, k - 1);
      assert outs[..k] == outs[..k - 1] + [outs[k - 1]];
    }
  }

  /** The level each mapped bulb of a custom gate's internal circuit
      shows. */
  function Bulbs(inner: Net, bulbs: seq<NodeId>): (vs: seq<LogicState>)
    requires Valid(inner)
    requires forall i | 0 <= i < |bulbs| :: bulbs[i] < |inner.nodes| && inner.nodes[bulbs[i]].gate.OutputBulb?
    ensures |vs| == |bulbs| && forall i | 0 <= i < |bulbs| :: vs[i] == BulbOut(inner, bulbs[i])
  {
    seq(|bulbs|, i requires 0 <= i < |bulbs| => BulbOut(inner, bulbs[i]))
  }

  /** The first `k` steps of the output copy of CustomGate.compute, on the
      whole arena: the first `k` external outputs of custom gate `n` take
      the levels of the bulbs mapped to them. */
  function ReadBulbs(net: Net, n: NodeId, k: nat): (r: Net)
    requires Valid(net) && n < |net.nodes| && net.nodes[n].gate.CustomGate?
    requires k <= |net.nodes[n].outputs| && k <= |net.nodes[n].gate.outputNodes|
    ensures Erase(r) == Erase(net) && Valid(r) && r.nodes == net.nodes && |r.pins| == |net.pins|
    ensures NodeOk(net.nodes[n]) && NodePins(net, n)
  {
    PinsOf(net, n);
    var x := net.nodes[n];
    assert NodeOk(x);
    var vs := Bulbs(x.gate.inner, x.gate.outputNodes);
    DriveShape(net.pins, x.outputs, vs, k);
    var r := net.(pins := Drive(net.pins, x.outputs, vs, k));
    assert Erase(r).pins == Erase(net).pins;
    ValidTransfer(net, r);
    r
  }

  /** After the output copy, external output `i` shows the level of bulb
      `i`, and the pins not among the first `k` outputs are untouched. */
  lemma ReadBulbsSet(net: Net, n: NodeId, k: nat)
    requires Valid(net) && n < |net.nodes| && net.nodes[n].gate.CustomGate?
    requires k <= |net.nodes[n].outputs| && k <= |net.nodes[n].gate.outputNodes|
    ensures NodeOk(net.nodes[n]) && NodePins(net, n)
    ensures forall i | 0 <= i < k ::
              ReadBulbs(net, n, k).pins[net.nodes[n].outputs[i]].value
                == BulbOut(net.nodes[n].gate.inner, net.nodes[n].gate.outputNodes[i])
    ensures forall q | 0 <= q < |net.pins| && q !in net.nodes[n].outputs[..k] :: ReadBulbs(net, n, k).pins[q] == net.pins[q]
  {
    PinsOf(net, n);
    var x := net.nodes[n];
    assert NodeOk(x);
    var vs := Bulbs(x.gate.inner, x.gate.outputNodes);
    assert NoDup(x.outputs);
    DriveSet(net.pins, x.outputs, vs, k);
    DriveOthers(net.pins, x.outputs, vs, k);
  }

  /** One more external output in `ReadBulbs`. */
  lemma ReadBulbsStep(net: Net, n: NodeId, k: nat)
    requires Valid(net) && n < |net.nodes| && net.nodes[n].gate.CustomGate?
    requires k < |net.nodes[n].outputs| && k < |net.nodes[n].gate.outputNodes|
    ensures NodePins(net, n)
    ensures ReadBulbs(net, n, k + 1) ==
            SetValue(ReadBulbs(net, n, k), net.nodes[n].outputs[k], BulbOut(net.nodes[n].gate.inner, net.nodes[n].gate.outputNodes[k]))
  {
    PinsOf(net, n);
    var x := net.nodes[n];
    assert NodeOk(x);
    var vs := Bulbs(x.gate.inner, x.gate.outputNodes);
    var d := Drive(net.pins, x.outputs, vs, k);
    assert ReadBulbs(net, n, k).pins == d;
    assert ReadBulbs(net, n, k + 1).pins == d[x.outputs[k] := d[x.outputs[k]].(value := vs[k])];
  }

  /** CustomGate.compute: copy the external inputs into the mapped
      switches, relax the internal circuit for at most 100 rounds, then
      drive each mapped external output from its bulb. */
  function FireCustom(net: Net, n: NodeId): (r: Net)
    requires Valid(net) && n < |net.nodes| && net.nodes[n].gate.CustomGate?
    ensures Erase(r) == Erase(net) && Valid(r)
    decreases Rank(net.nodes[n]), 0, 0
  {
    var x := net.nodes[n];
    var a := LoadSwitches(net, n, Min(|x.inputs|, |x.gate.inputNodes|));
    var g := a.nodes[n].gate;
    assert NodeOk(a.nodes[n]);
    var s := Settle(g.inner, g.level, MaxSteps);
    var b := WithInner(a, n, s);
    ValidTransfer(net, b);
    ReadBulbs(b, n, Min(|x.outputs|, |g.outputNodes|))
  }

  function Min(a: nat, b: nat): nat {
    if a <= b then a else b
  }

  /** The round limit of CustomGate.compute. */
  const MaxSteps: nat := 100

  /** The relaxation loop: up to `k` rounds, stopping after the first round
      in which no output pin changed. */
  function Settle(net: Net, h: nat, k: nat): (r: Net)
    requires Valid(net) && Under(net, h)
    ensures Erase(r) == Erase(net) && Valid(r) && Under(r, h)
    decreases h, 3, k
  {
    if k == 0 then net
    else
      var t := Round(net, h, 0);
      if t.1 then Settle(t.0, h, k - 1) else t.0
  }

  /** One relaxation round from node `i` on: each node in list order is
      computed, and each of its outputs whose value differs from before the
      compute is copied to all its peers.  The flag says whether any output
      changed. */
  function Round(net: Net, h: nat, i: nat): (r: (Net, bool))
    requires Valid(net) && Under(net, h) && i <= |net.nodes|
    ensures Erase(r.0) == Erase(net) && Valid(r.0) && Under(r.0, h)
    decreases h, 2, |net.nodes| - i
  {
    if i == |net.nodes| then (net, false)
    else
      PinsOf(net, i);
      var outs := net.nodes[i].outputs;
      var snap := Values(net, outs);
      var c := Fire(net, i);
      WiringOf(net, c);
      var d := Spread(c, outs, snap, |outs|);
      ValidTransfer(net, d.0);
      UnderTransfer(net, d.0, h);
      var t := Round(d.0, h, i + 1);
      (t.0, d.1 || t.1)
  }

  /** The propagation of one node's first `k` outputs after its compute:
      an output whose value differs from its snapshot sets every peer to
      its value, and raises the flag. */
  function Spread(net: Net, outs: seq<PinId>, snap: seq<LogicState>, k: nat): (r: (Net, bool))
    requires Linked(net.pins) && |snap| == |outs| && k <= |outs|
    requires forall j | 0 <= j < |outs| :: outs[j] < |net.pins|
    ensures Erase(r.0) == Erase(net) && Linked(r.0.pins) && r.0.nodes == net.nodes && |r.0.pins| == |net.pins|
    decreases k
  {
    if k == 0 then (net, false)
    else
      var m := Spread(net, outs, snap, k - 1);
      var p := outs[k - 1];
      if m.0.pins[p].value != snap[k - 1] then
        assert PeerOk(m.0.pins, p);
        var r := SetAll(m.0, m.0.pins[p].connections, m.0.pins[p].value);
        LinkedTransfer(m.0, r);
        (r, true)
      else m
  }

  // ---------------------------------------------------------------------
  // The compute methods

  /** AndGate.compute: the loop over the inputs may write a transient LOW
      on an UNDEFINED input; the final write replaces it by LOW when some
      input is LOW and by HIGH otherwise. */
  method ComputeAnd(net: Net, n: NodeId) returns (r: Net)
    requires Valid(net) && n < |net.nodes| && net.nodes[n].gate.AndGate?
    ensures NodeOk(net.nodes[n]) && NodePins(net, n) && |r.pins| == |net.pins|
    ensures r == Fire(net, n)
    ensures r == SetValue(net, net.nodes[n].outputs[0], r.pins[net.nodes[n].outputs[0]].value)
    ensures r.pins[net.nodes[n].outputs[0]].value == Low <==>
              exists i | 0 <= i < |net.nodes[n].inputs| :: net.pins[net.nodes[n].inputs[i]].value == Low
    ensures r.pins[net.nodes[n].outputs[0]].value != Undefined
  {
    PinsOf(net, n);
    var x := net.nodes[n];
    assert NodeOk(x);
    var out := x.outputs[0];
    var allHigh := true;
    r := net;
    for i := 0 to |x.inputs|
      invariant r.nodes == net.nodes && |r.pins| == |net.pins|
      invariant forall q | 0 <= q < |net.pins| && q != out :: r.pins[q] == net.pins[q]
      invariant r.pins[out] == net.pins[out].(value := r.pins[out].value)
      invariant allHigh <==> Low !in Values(net, x.inputs)[..i]
    {
      var v := r.pins[x.inputs[i]].value;
      if v == Undefined {
        r := SetValue(r, out, Low);
      }
      if v == Low {
        allHigh := false;
      }
      assert Values(net, x.inputs)[..i + 1] == Values(net, x.inputs)[..i] + [v];
    }
    assert Values(net, x.inputs)[..|x.inputs|] == Values(net, x.inputs);
    r := SetValue(r, out, if allHigh then High else Low);
    assert r.pins == net.pins[out := net.pins[out].(value := AndOf(Values(net, x.inputs)))];
  }

  /** OrGate.compute: an UNDEFINED input may write a transient LOW; the
      final write is HIGH when some input is HIGH and LOW otherwise. */
  method ComputeOr(net: Net, n: NodeId) returns (r: Net)
    requires Valid(net) && n < |net.nodes| && net.nodes[n].gate.OrGate?
    ensures NodeOk(net.nodes[n]) && NodePins(net, n) && |r.pins| == |net.pins|
    ensures r == Fire(net, n)
    ensures r == SetValue(net, net.nodes[n].outputs[0], r.pins[net.nodes[n].outputs[0]].value)
    ensures r.pins[net.nodes[n].outputs[0]].value == High <==>
              exists i | 0 <= i < |net.nodes[n].inputs| :: net.pins[net.nodes[n].inputs[i]].value == High
    ensures r.pins[net.nodes[n].outputs[0]].value != Undefined
  {
    PinsOf(net, n);
    var x := net.nodes[n];
    assert NodeOk(x);
    var out := x.outputs[0];
    var anyHigh := false;
    r := net;
    for i := 0 to |x.inputs|
      invariant r.nodes == net.nodes && |r.pins| == |net.pins|
      invariant forall q | 0 <= q < |net.pins| && q != out :: r.pins[q] == net.pins[q]
      invariant r.pins[out] == net.pins[out].(value := r.pins[out].value)
      invariant anyHigh <==> High in Values(net, x.inputs)[..i]
    {
      var v := r.pins[x.inputs[i]].value;
      if v == High {
        anyHigh := true;
      } else if v == Undefined {
        r := SetValue(r, out, Low);
      }
      assert Values(net, x.inputs)[..i + 1] == Values(net, x.inputs)[..i] + [v];
    }
    assert Values(net, x.inputs)[..|x.inputs|] == Values(net, x.inputs);
    r := SetValue(r, out, if anyHigh then High else Low);
    assert r.pins == net.pins[out := net.pins[out].(value := OrOf(Values(net, x.inputs)))];
  }

  /** NotGate.compute: HIGH gives LOW, LOW gives HIGH, UNDEFINED gives
      HIGH. */
  method ComputeNot(net: Net, n: NodeId) returns (r: Net)
    requires Valid(net) && n < |net.nodes| && net.nodes[n].gate.NotGate?
    ensures NodeOk(net.nodes[n]) && NodePins(net, n)
    ensures r == Fire(net, n)
    ensures r == SetValue(net, net.nodes[n].outputs[0], NotOf(net.pins[net.nodes[n].inputs[0]].value))
    ensures net.pins[net.nodes[n].inputs[0]].value == High ==> r.pins[net.nodes[n].outputs[0]].value == Low
    ensures net.pins[net.nodes[n].inputs[0]].value != High ==> r.pins[net.nodes[n].outputs[0]].value == High
  {
    PinsOf(net, n);
    var x := net.nodes[n];
    assert NodeOk(x);
    var v := net.pins[x.inputs[0]].value;
    if v == High {
      r := SetValue(net, x.outputs[0], Low);
    } else if v == Low {
      r := SetValue(net, x.outputs[0], High);
    } else {
      r := SetValue(net, x.outputs[0], High);
    }
  }

  /** InputSwitch.compute: the cached state is copied to the output. */
  method ComputeSwitch(net: Net, n: NodeId) returns (r: Net)
    requires Valid(net) && n < |net.nodes| && net.nodes[n].gate.InputSwitch?
    ensures NodeOk(net.nodes[n]) && NodePins(net, n)
    ensures r == Fire(net, n)
    ensures r == SetValue(net, net.nodes[n].outputs[0], net.nodes[n].gate.state)
  {
    PinsOf(net, n);
    var x := net.nodes[n];
    assert NodeOk(x);
    r := SetValue(net, x.outputs[0], x.gate.state);
  }

  /** OutputBulb.compute: `active` becomes whether the input is HIGH; no
      pin changes. */
  method ComputeBulb(net: Net, n: NodeId) returns (r: Net)
    requires Valid(net) && n < |net.nodes| && net.nodes[n].gate.OutputBulb?
    ensures NodeOk(net.nodes[n]) && NodePins(net, n)
    ensures r == Fire(net, n)
    ensures r.pins == net.pins && |r.nodes| == |net.nodes|
    ensures r.nodes[n] == net.nodes[n].(gate := OutputBulb(net.pins[net.nodes[n].inputs[0]].value == High))
    ensures forall m | 0 <= m < |net.nodes| && m != n :: r.nodes[m] == net.nodes[m]
  {
    PinsOf(net, n);
    var x := net.nodes[n];
    assert NodeOk(x);
    var active := net.pins[x.inputs[0]].value == High;
    r := net.(nodes := net.nodes[n := x.(gate := OutputBulb(active))]);
  }

  /** InputSwitch.toggle: LOW becomes HIGH and any other state LOW; the
      output pin is not touched until the next compute. */
  function Toggle(net: Net, n: NodeId): (r: Net)
    requires n < |net.nodes| && net.nodes[n].gate.InputSwitch?
    ensures r.pins == net.pins && |r.nodes| == |net.nodes| && Erase(r) == Erase(net)
    ensures r.nodes[n].gate.InputSwitch?
    ensures r.nodes[n].gate.state == High <==> net.nodes[n].gate.state == Low
    ensures r.nodes[n].gate.state != Undefined
    ensures r.nodes[n] == net.nodes[n].(gate := r.nodes[n].gate)
    ensures forall m | 0 <= m < |net.nodes| && m != n :: r.nodes[m] == net.nodes[m]
  {
    var x := net.nodes[n];
    var y := x.(gate := InputSwitch(Toggled(x.gate.state)));
    ReplaceNode(net, n, y);
    net.(nodes := net.nodes[n := y])
  }

  /** The loop over one output pin's connections: every peer is set to the
      pin's value, which the loop reads afresh each time (a pin is never
      its own peer, so it does not change). */
  method SetPeers(net: Net, p: PinId) returns (r: Net)
    requires p < |net.pins| && PeerOk(net.pins, p)
    ensures r == SetAll(net, net.pins[p].connections, net.pins[p].value)
  {
    var cs := net.pins[p].connections;
    r := net;
    for j := 0 to |cs|
      invariant forall c | c in cs[..j] :: c < |net.pins|
      invariant r == SetAll(net, cs[..j], net.pins[p].value)
    {
      assert cs[..j + 1] == cs[..j] + [cs[j]] && cs[..j + 1][..j] == cs[..j];
      assert cs[j] in cs;
      assert p !in cs[..j];
      r := SetValue(r, cs[j], r.pins[p].value);
    }
    assert cs[..|cs|] == cs;
  }

  /** Node.compute, dispatched on the gate variant. */
  method Compute(net: Net, n: NodeId) returns (r: Net)
    requires Valid(net) && n < |net.nodes|
    ensures r == Fire(net, n)
    decreases Rank(net.nodes[n]), 1, 0
  {
    match net.nodes[n].gate
    case AndGate => r := ComputeAnd(net, n);
    case OrGate => r := ComputeOr(net, n);
    case NotGate => r := ComputeNot(net, n);
    case InputSwitch(_) => r := ComputeSwitch(net, n);
    case OutputBulb(_) => r := ComputeBulb(net, n);
    case CustomGate(_, _, _, _, _) => r := ComputeCustom(net, n);
  }

  /** CustomGate.compute: the input copy, the relaxation of the internal
      circuit, and the output copy. */
  method ComputeCustom(net: Net, n: NodeId) returns (r: Net)
    requires Valid(net) && n < |net.nodes| && net.nodes[n].gate.CustomGate?
    ensures r == FireCustom(net, n)
    decreases Rank(net.nodes[n]), 0, 0
  {
    var a := CopyInputs(net, n);
    assert NodeOk(a.nodes[n]);
    var inner, rounds, settled, last := Relax(a.nodes[n].gate.inner, net.nodes[n].gate.level);
    var b := WithInner(a, n, inner);
    ValidTransfer(net, b);
    r := CopyOutputs(b, n);
  }

  /** The input copy of CustomGate.compute: for each external input `i`
      with `i < len(input_nodes)`, switch `i` takes the input's value. */
  method CopyInputs(net: Net, n: NodeId) returns (r: Net)
    requires Valid(net) && n < |net.nodes| && net.nodes[n].gate.CustomGate?
    ensures r == LoadSwitches(net, n, Min(|net.nodes[n].inputs|, |net.nodes[n].gate.inputNodes|))
  {
    PinsOf(net, n);
    var x := net.nodes[n];
    assert NodeOk(x);
    var g := x.gate;
    ghost var vs := Values(net, x.inputs);
    var nodes := g.inner.nodes;
    for i := 0 to |x.inputs|
      invariant nodes == Load(g.inner.nodes, g.inputNodes, vs, Min(i, |g.inputNodes|))
    {
      if i < |g.inputNodes| {
        var val := net.pins[x.inputs[i]].value;
        var s := g.inputNodes[i];
        nodes := nodes[s := nodes[s].(gate := InputSwitch(val))];
      }
    }
    LoadErase(g.inner, g.inputNodes, vs, Min(|x.inputs|, |g.inputNodes|));
    r := WithInner(net, n, g.inner.(nodes := nodes));
  }

  /** The output copy of CustomGate.compute: for each bulb `i` with
      `i < len(outputs)`, external output `i` becomes HIGH when the bulb's
      input is HIGH and LOW otherwise. */
  method CopyOutputs(net: Net, n: NodeId) returns (r: Net)
    requires Valid(net) && n < |net.nodes| && net.nodes[n].gate.CustomGate?
    ensures r == ReadBulbs(net, n, Min(|net.nodes[n].outputs|, |net.nodes[n].gate.outputNodes|))
  {
    var x := net.nodes[n];
    r := net;
    for i := 0 to |x.gate.outputNodes|
      invariant r == ReadBulbs(net, n, Min(i, |x.outputs|))
    {
      if i < |x.outputs| {
        r := CopyOutput(net, n, i, r);
      }
    }
  }

  /** One iteration of the loop of `CopyOutputs`: external output `i` is
      driven from its bulb. */
  method CopyOutput(net: Net, n: NodeId, i: nat, r0: Net) returns (r: Net)
    requires Valid(net) && n < |net.nodes| && net.nodes[n].gate.CustomGate?
    requires i < |net.nodes[n].outputs| && i < |net.nodes[n].gate.outputNodes|
    requires r0 == ReadBulbs(net, n, i)
    ensures r == ReadBulbs(net, n, i + 1)
  {
    PinsOf(net, n);
    var x := net.nodes[n];
    assert NodeOk(x);
    var inner := x.gate.inner;
    var bulb := x.gate.outputNodes[i];
    ReadBulbsStep(net, n, i);
    PinsOf(inner, bulb);
    assert NodeOk(inner.nodes[bulb]);
    if inner.pins[inner.nodes[bulb].inputs[0]].value == High {
      r := SetValue(r0, x.outputs[i], High);
    } else {
      r := SetValue(r0, x.outputs[i], Low);
    }
  }

  /** The relaxation loop of CustomGate.compute: it runs at least one and
      at most 100 rounds; it stops before the limit only after a round that
      changed no output, and the round it stopped after (`last` being the
      state before it) changed an output exactly when the limit was hit
      unsettled. */
  method Relax(net: Net, h: nat) returns (r: Net, rounds: nat, settled: bool, ghost last: Net)
    requires Valid(net) && Under(net, h)
    ensures r == Settle(net, h, MaxSteps)
    ensures 1 <= rounds <= MaxSteps
    ensures !settled ==> rounds == MaxSteps
    ensures Valid(last) && Under(last, h) && Round(last, h, 0) == (r, !settled)
    ensures rounds == 1 ==> last == net
    decreases h, 3, 0
  {
    r, rounds, settled, last := net, 0, false, net;
    while rounds < MaxSteps && !settled
      invariant 0 <= rounds <= MaxSteps && Valid(r) && Under(r, h)
      invariant Valid(last) && Under(last, h)
      invariant Settle(net, h, MaxSteps) == if settled then r else Settle(r, h, MaxSteps - rounds)
      invariant rounds == 0 ==> !settled && r == net && last == net
      invariant rounds >= 1 ==> Round(last, h, 0) == (r, !settled)
      invariant rounds == 1 ==> last == net
      decreases MaxSteps - rounds
    {
      var changes;
      last := r;
      r, changes := RelaxRound(r, h);
      rounds := rounds + 1;
      if !changes {
        settled := true;
      }
    }
  }

  /** One round of the relaxation loop over the internal circuit's nodes in
      list order. */
  method RelaxRound(net: Net, h: nat) returns (r: Net, changes: bool)
    requires Valid(net) && Under(net, h)
    ensures (r, changes) == Round(net, h, 0)
    decreases h, 2, 0
  {
    r, changes := net, false;
    ghost var goal := Round(net, h, 0);
    for i := 0 to |net.nodes|
      invariant |r.nodes| == |net.nodes| && Valid(r) && Under(r, h)
      invariant goal.0 == Round(r, h, i).0 && goal.1 == (changes || Round(r, h, i).1)
    {
      var d, ch := RelaxNode(r, h, i);
      changes := changes || ch;
      r := d;
    }
    assert Round(r, h, |r.nodes|) == (r, false);
  }

  /** One iteration of the loop of `RelaxRound`: node `i` is computed and
      its changed outputs are propagated. */
  method RelaxNode(net: Net, h: nat, i: nat) returns (r: Net, changes: bool)
    requires Valid(net) && Under(net, h) && i < |net.nodes|
    ensures |r.nodes| == |net.nodes| && Valid(r) && Under(r, h)
    ensures Round(net, h, i) == (Round(r, h, i + 1).0, changes || Round(r, h, i + 1).1)
    decreases h, 1, 1
  {
    PinsOf(net, i);
    var outs := net.nodes[i].outputs;
    var oldOuts := Values(net, outs);
    var c := Compute(net, i);
    WiringOf(net, c);
    r, changes := Propagate(c, outs, oldOuts);
    ValidTransfer(net, r);
    UnderTransfer(net, r, h);
  }

  /** The propagation step inside a relaxation round: each output whose
      value differs from its snapshot raises the flag and is copied to all
      its peers. */
  method Propagate(net: Net, outs: seq<PinId>, oldOuts: seq<LogicState>) returns (r: Net, changes: bool)
    requires Linked(net.pins) && |oldOuts| == |outs|
    requires forall j | 0 <= j < |outs| :: outs[j] < |net.pins|
    ensures (r, changes) == Spread(net, outs, oldOuts, |outs|)
  {
    r, changes := net, false;
    for k := 0 to |outs|
      invariant (r, changes) == Spread(net, outs, oldOuts, k)
    {
      var p := outs[k];
      if r.pins[p].value != oldOuts[k] {
        changes := true;
        assert PeerOk(r.pins, p);
        r := SetPeers(r, p);
      }
    }
  }

  // ---------------------------------------------------------------------
  // Properties of compute

  /** A compute writes only the node's own output pins and its own gate
      state. */
  lemma {:induction false} FireFrame(net: Net, n: NodeId)
    requires Valid(net) && n < |net.nodes|
    ensures |Fire(net, n).pins| == |net.pins| && |Fire(net, n).nodes| == |net.nodes|
    ensures forall q | 0 <= q < |net.pins| && q !in net.nodes[n].outputs :: Fire(net, n).pins[q] == net.pins[q]
    ensures forall m | 0 <= m < |net.nodes| && m != n :: Fire(net, n).nodes[m] == net.nodes[m]
  {
    var r := Fire(net, n);
    WiringOf(net, r);
    var x := net.nodes[n];
    if x.gate.CustomGate? {
      var a, s, b := FireParts(net, n);
      var k := Min(|x.outputs|, |x.gate.outputNodes|);
      ReadBulbsSet(b, n, k);
      forall q | 0 <= q < |net.pins| && q !in x.outputs ensures r.pins[q] == net.pins[q] {
        assert q !in x.outputs[..k];
      }
    }
  }

  /** A basic gate's compute is idempotent: its inputs are not among the
      pins it writes, so a second call writes the same values again. */
  lemma {:induction false} FireIdempotent(net: Net, n: NodeId)
    requires Valid(net) && n < |net.nodes| && !net.nodes[n].gate.CustomGate?
    ensures Fire(Fire(net, n), n) == Fire(net, n)
  {
    var r := Fire(net, n);
    PinsOf(net, n);
    FireFrame(net, n);
    WiringOf(net, r);
    var x := net.nodes[n];
    assert NodeOk(x);
    assert forall i | 0 <= i < |x.inputs| :: x.inputs[i] !in x.outputs;
    assert Values(r, x.inputs) == Values(net, x.inputs);
    var rr := Fire(r, n);
    assert rr.pins == r.pins;
    assert rr.nodes == r.nodes;
  }

  /** `b` holds every switch of `a` unchanged, state included. */
  ghost predicate SwitchesKept(a: Net, b: Net) {
    forall m | 0 <= m < |a.nodes| && a.nodes[m].gate.InputSwitch? :: m < |b.nodes| && b.nodes[m] == a.nodes[m]
  }

  /** No compute changes the state of a switch: a switch's compute only
      drives its output. */
  lemma {:induction false} FireKeepsSwitches(net: Net, n: NodeId)
    requires Valid(net) && n < |net.nodes|
    ensures SwitchesKept(net, Fire(net, n))
  {
    FireFrame(net, n);
    PinsOf(net, n);
    assert NodeOk(net.nodes[n]);
  }

  /** A relaxation round keeps the wiring and the state of every switch
      as well. */
  lemma {:induction false} RoundKeepsSwitches(net: Net, h: nat, i: nat)
    requires Valid(net) && Under(net, h) && i <= |net.nodes|
    ensures SwitchesKept(net, Round(net, h, i).0)
    decreases |net.nodes| - i
  {
    if i < |net.nodes| {
      PinsOf(net, i);
      var outs := net.nodes[i].outputs;
      var c := Fire(net, i);
      FireKeepsSwitches(net, i);
      WiringOf(net, c);
      var d := Spread(c, outs, Values(net, outs), |outs|);
      ValidTransfer(net, d.0);
      UnderTransfer(net, d.0, h);
      RoundKeepsSwitches(d.0, h, i + 1);
    }
  }

  /** So does the whole relaxation. */
  lemma {:induction false} SettleKeepsSwitches(net: Net, h: nat, k: nat)
    requires Valid(net) && Under(net, h)
    ensures SwitchesKept(net, Settle(net, h, k))
    decreases k
  {
    if k > 0 {
      RoundKeepsSwitches(net, h, 0);
      var t := Round(net, h, 0);
      if t.1 {
        SettleKeepsSwitches(t.0, h, k - 1);
      }
    }
  }

  /** What CustomGate.compute leaves behind: switch `i` of the internal
      circuit holds the value of external input `i` (for `i` below both
      counts), external output `i` is HIGH exactly when the input of bulb
      `i` of the relaxed internal circuit is HIGH and LOW otherwise (for
      `i` below both counts), the remaining outputs and every other pin
      are untouched, and the gate keeps its chip, depth and mappings. */
  lemma {:induction false} CustomCompute(net: Net, n: NodeId)
    requires Valid(net) && n < |net.nodes| && net.nodes[n].gate.CustomGate?
    ensures Fire(net, n).nodes[n].gate.CustomGate?
    ensures NodeOk(net.nodes[n]) && NodeOk(Fire(net, n).nodes[n]) && NodePins(net, n)
    ensures |Fire(net, n).pins| == |net.pins|
    ensures Fire(net, n).nodes[n] == net.nodes[n].(gate := net.nodes[n].gate.(inner := Fire(net, n).nodes[n].gate.inner))
    ensures forall i | 0 <= i < |net.nodes[n].inputs| && i < |net.nodes[n].gate.inputNodes| ::
              Fire(net, n).nodes[n].gate.inner.nodes[net.nodes[n].gate.inputNodes[i]].gate
                == InputSwitch(net.pins[net.nodes[n].inputs[i]].value)
    ensures forall i | 0 <= i < |net.nodes[n].outputs| && i < |net.nodes[n].gate.outputNodes| ::
              Fire(net, n).pins[net.nodes[n].outputs[i]].value
                == BulbOut(Fire(net, n).nodes[n].gate.inner, net.nodes[n].gate.outputNodes[i])
    ensures forall i | |net.nodes[n].gate.outputNodes| <= i < |net.nodes[n].outputs| ::
              Fire(net, n).pins[net.nodes[n].outputs[i]] == net.pins[net.nodes[n].outputs[i]]
    ensures forall q | 0 <= q < |net.pins| && q !in net.nodes[n].outputs :: Fire(net, n).pins[q] == net.pins[q]
  {
    var x := net.nodes[n];
    PinsOf(net, n);
    FireFrame(net, n);
    var a, t, b := FireParts(net, n);
    var r := Fire(net, n);
    var k := Min(|x.outputs|, |x.gate.outputNodes|);
    ReadBulbsSet(b, n, k);
    assert r.nodes == b.nodes;
    assert NodeOk(r.nodes[n]) by { ValidTransfer(net, r); }
    forall i | |x.gate.outputNodes| <= i < |x.outputs| ensures r.pins[x.outputs[i]] == net.pins[x.outputs[i]] {
      assert x.outputs[i] !in x.outputs[..k];
    }
    CustomSwitches(net, n);
  }

  /** The input half of `CustomCompute`: after CustomGate.compute, switch
      `i` of the internal circuit holds the value of external input `i`. */
  lemma CustomSwitches(net: Net, n: NodeId)
    requires Valid(net) && n < |net.nodes| && net.nodes[n].gate.CustomGate?
    ensures Fire(net, n).nodes[n].gate.CustomGate? && NodePins(net, n)
    ensures forall i | 0 <= i < |net.nodes[n].inputs| && i < |net.nodes[n].gate.inputNodes| ::
              net.nodes[n].gate.inputNodes[i] < |Fire(net, n).nodes[n].gate.inner.nodes|
              && Fire(net, n).nodes[n].gate.inner.nodes[net.nodes[n].gate.inputNodes[i]].gate
                   == InputSwitch(net.pins[net.nodes[n].inputs[i]].value)
  {
    var x := net.nodes[n];
    var k := Min(|x.inputs|, |x.gate.inputNodes|);
    var a, t, b := FireParts(net, n);
    SettleLoaded(x.gate.inner, a.nodes[n].gate.level, x.gate.inputNodes, Values(net, x.inputs), k);
  }

  /** Relaxing an internal circuit whose first `k` loaded switches hold
      `vs` leaves those switches holding `vs`. */
  lemma SettleLoaded(inner: Net, h: nat, ins: seq<NodeId>, vs: seq<LogicState>, k: nat)
    requires k <= |ins| && k <= |vs| && NoDup(ins)
    requires forall i | 0 <= i < k :: ins[i] < |inner.nodes|
    requires Valid(inner.(nodes := Load(inner.nodes, ins, vs, k)))
    requires Under(inner.(nodes := Load(inner.nodes, ins, vs, k)), h)
    ensures forall i | 0 <= i < k ::
              ins[i] < |Settle(inner.(nodes := Load(inner.nodes, ins, vs, k)), h, MaxSteps).nodes|
              && Settle(inner.(nodes := Load(inner.nodes, ins, vs, k)), h, MaxSteps).nodes[ins[i]].gate
                   == InputSwitch(vs[i])
  {
    var loaded := inner.(nodes := Load(inner.nodes, ins, vs, k));
    SettleKeepsSwitches(loaded, h, MaxSteps);
    LoadSet(inner.nodes, ins, vs, k);
  }

  /** The three stages of CustomGate.compute on custom gate `n`: the input
      copy `a`, the relaxed internal circuit `s`, and `b`, the arena with
      `s` in place, from which the output copy reads. */
  lemma FireParts(net: Net, n: NodeId) returns (a: Net, s: Net, b: Net)
    requires Valid(net) && n < |net.nodes| && net.nodes[n].gate.CustomGate?
    ensures NodeOk(net.nodes[n]) && NodePins(net, n)
    ensures a == LoadSwitches(net, n, Min(|net.nodes[n].inputs|, |net.nodes[n].gate.inputNodes|))
    ensures a.nodes[n].gate.inner
              == net.nodes[n].gate.inner.(nodes := Load(net.nodes[n].gate.inner.nodes, net.nodes[n].gate.inputNodes,
                                                        Values(net, net.nodes[n].inputs),
                                                        Min(|net.nodes[n].inputs|, |net.nodes[n].gate.inputNodes|)))
    ensures Valid(a.nodes[n].gate.inner) && Under(a.nodes[n].gate.inner, a.nodes[n].gate.level)
    ensures s == Settle(a.nodes[n].gate.inner, a.nodes[n].gate.level, MaxSteps)
    ensures Erase(b) == Erase(net) && Valid(b) && b.pins == net.pins && |b.nodes| == |net.nodes|
    ensures b.nodes[n] == net.nodes[n].(gate := net.nodes[n].gate.(inner := s))
    ensures forall m | 0 <= m < |net.nodes| && m != n :: b.nodes[m] == net.nodes[m]
    ensures Fire(net, n) == ReadBulbs(b, n, Min(|net.nodes[n].outputs|, |net.nodes[n].gate.outputNodes|))
  {
    var x := net.nodes[n];
    PinsOf(net, n);
    a := LoadSwitches(net, n, Min(|x.inputs|, |x.gate.inputNodes|));
    var g := a.nodes[n].gate;
    assert NodeOk(a.nodes[n]);
    s := Settle(g.inner, g.level, MaxSteps);
    b := WithInner(a, n, s);
    ValidTransfer(net, b);
    assert Fire(net, n) == FireCustom(net, n);
  }
}
