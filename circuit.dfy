/** The circuit container: an ordered list of the nodes that belong to the
    circuit, over the arena that holds every pin and node. */
module Circuits {
  import opened Netlist

  // ---------------------------------------------------------------------
  // Disconnecting every pin of a node

  /** `cs` with every element of `ps` dropped, order kept. */
  function Drop(cs: seq<nat>, ps: seq<nat>): (r: seq<nat>)
    ensures forall y :: y in r <==> y in cs && y !in ps
  {
    if cs == [] then [] else (if cs[0] in ps then [] else [cs[0]]) + Drop(cs[1..], ps)
  }

  /** Dropping one more element is dropping it from what is left. */
  lemma {:induction false} DropWithout(cs: seq<nat>, ps: seq<nat>, x: nat)
    ensures Without(Drop(cs, ps), x) == Drop(cs, ps + [x])
  {
    if cs != [] {
      var c, t := cs[0], cs[1..];
      DropWithout(t, ps, x);
      var d := Drop(t, ps);
      assert c in ps + [x] <==> c in ps || c == x;
      if c in ps {
        assert Drop(cs, ps) == d;
        assert Drop(cs, ps + [x]) == Drop(t, ps + [x]);
      } else {
        assert Drop(cs, ps) == [c] + d;
        assert ([c] + d)[0] == c && ([c] + d)[1..] == d;
        if c == x {
          assert Without([c] + d, x) == Without(d, x);
          assert Drop(cs, ps + [x]) == Drop(t, ps + [x]);
        } else {
          assert Without([c] + d, x) == [c] + Without(d, x);
          assert Drop(cs, ps + [x]) == [c] + Drop(t, ps + [x]);
        }
      }
    }
  }

  /** The arena after every pin of `ps` has been disconnected from all its
      peers: those pins have no connections left, every other pin has lost
      exactly the pins of `ps` from its list, in order, and nothing else
      changes. */
  function Detached(net: Net, ps: seq<PinId>): (r: Net)
    ensures |r.pins| == |net.pins| && r.nodes == net.nodes
  {
    Net(seq(|net.pins|, q requires 0 <= q < |net.pins| =>
              net.pins[q].(connections := if q in ps then [] else Drop(net.pins[q].connections, ps))),
        net.nodes)
  }

  /** Detaching no pins changes nothing. */
  lemma DetachedNone(net: Net)
    ensures Detached(net, []) == net
  {
    forall q | 0 <= q < |net.pins| ensures Drop(net.pins[q].connections, []) == net.pins[q].connections {
      DropNone(net.pins[q].connections);
    }
  }

  lemma {:induction false} DropNone(cs: seq<nat>)
    ensures Drop(cs, []) == cs
  {
    if cs != [] {
      DropNone(cs[1..]);
      assert cs == [cs[0]] + cs[1..];
    }
  }

  /** The inner loop of remove_node: pin `p` is disconnected from each pin
      of a copy of its connection list.  Afterwards `p` has no peers, every
      other pin has lost `p` from its list, and nothing else changes. */
  method DetachPin(net: Net, p: PinId) returns (r: Net)
    requires p < |net.pins| && Linked(net.pins)
    ensures Linked(r.pins) && |r.pins| == |net.pins| && r.nodes == net.nodes
    ensures Directed(net.pins) ==> Directed(r.pins)
    ensures r.pins[p] == net.pins[p].(connections := [])
    ensures forall q | 0 <= q < |net.pins| && q != p ::
              r.pins[q] == net.pins[q].(connections := Without(net.pins[q].connections, p))
  {
    var cs := net.pins[p].connections;
    assert PeerOk(net.pins, p);
    assert forall k | 0 <= k < |cs| :: cs[k] < |net.pins| by {
      forall k | 0 <= k < |cs| ensures cs[k] < |net.pins| { assert cs[k] in cs; }
    }
    assert cs[0..] == cs && cs[..0] == [];
    r := net;
    for j := 0 to |cs|
      invariant DetachSoFar(net, p, j, r)
    {
      r := DetachOne(net, p, j, r);
    }
    forall q | 0 <= q < |net.pins| && q != p && q !in cs
      ensures Without(net.pins[q].connections, p) == net.pins[q].connections
    {
      assert PeerOk(net.pins, q);
    }
  }

  /** The loop invariant of `DetachPin`: the first `j` peers of `p` are
      disconnected from it. */
  ghost predicate DetachSoFar(net: Net, p: PinId, j: nat, r: Net)
    requires p < |net.pins|
  {
    var cs := net.pins[p].connections;
    && j <= |cs| && (forall k | 0 <= k < |cs| :: cs[k] < |net.pins|)
    && Linked(r.pins) && |r.pins| == |net.pins| && r.nodes == net.nodes
    && (Directed(net.pins) ==> Directed(r.pins))
    && r.pins[p] == net.pins[p].(connections := cs[j..])
    && forall q | 0 <= q < |net.pins| && q != p ::
         r.pins[q] == net.pins[q].(connections := if q in cs[..j] then Without(net.pins[q].connections, p)
                                                  else net.pins[q].connections)
  }

  /** One pass of the inner loop of remove_node: pin `p` is disconnected
      from its peer number `j`. */
  method DetachOne(net: Net, p: PinId, j: nat, r0: Net) returns (r: Net)
    requires p < |net.pins| && Linked(net.pins) && DetachSoFar(net, p, j, r0)
    requires j < |net.pins[p].connections|
    ensures DetachSoFar(net, p, j + 1, r)
  {
    var cs := net.pins[p].connections;
    assert PeerOk(net.pins, p);
    var c := cs[j];
    assert cs[j..] == [c] + cs[j + 1..];
    assert c !in cs[j + 1..] && c !in cs[..j] by {
      forall k | j < k < |cs| ensures cs[k] != c { }
      forall k | 0 <= k < j ensures cs[k] != c { }
    }
    assert cs[..j + 1] == cs[..j] + [c];
    r := r0.(pins := Unlink(r0.pins, p, c));
  }

  /** One pass of the outer loop of remove_node moves from the arena with
      the first `i` pins detached to the one with the first `i + 1`. */
  lemma {:induction false} DetachStep(net0: Net, ps: seq<PinId>, i: nat, r: Net)
    requires NoDup(ps) && i < |ps| && ps[i] < |net0.pins|
    requires |r.pins| == |net0.pins| && r.nodes == net0.nodes
    requires r.pins[ps[i]] == Detached(net0, ps[..i]).pins[ps[i]].(connections := [])
    requires forall q | 0 <= q < |net0.pins| && q != ps[i] ::
               r.pins[q] == Detached(net0, ps[..i]).pins[q].(connections := Without(Detached(net0, ps[..i]).pins[q].connections, ps[i]))
    ensures r == Detached(net0, ps[..i + 1])
  {
    var p := ps[i];
    assert ps[..i + 1] == ps[..i] + [p];
    var d, e := Detached(net0, ps[..i]), Detached(net0, ps[..i + 1]);
    forall q | 0 <= q < |net0.pins| ensures r.pins[q] == e.pins[q] {
      if q != p && q !in ps[..i] {
        DropWithout(net0.pins[q].connections, ps[..i], p);
      }
    }
    assert r.pins == e.pins;
  }

  /** The outer loop of remove_node: each pin of `ps` in turn is detached
      from all its peers. */
  method DetachAll(net: Net, ps: seq<PinId>) returns (r: Net)
    requires Linked(net.pins) && NoDup(ps) && forall i | 0 <= i < |ps| :: ps[i] < |net.pins|
    ensures r == Detached(net, ps)
    ensures Linked(r.pins) && (Directed(net.pins) ==> Directed(r.pins))
  {
    DetachedNone(net);
    r := net;
    for i := 0 to |ps|
      invariant r == Detached(net, ps[..i])
      invariant Linked(r.pins) && (Directed(net.pins) ==> Directed(r.pins))
    {
      var d := DetachPin(r, ps[i]);
      DetachStep(net, ps, i, d);
      r := d;
    }
    assert ps[..|ps|] == ps;
  }

  /** The pins of node `n`, inputs first. */
  function PinsOfNode(net: Net, n: NodeId): (r: seq<PinId>)
    requires n < |net.nodes|
    ensures |r| == |net.nodes[n].inputs| + |net.nodes[n].outputs|
    ensures forall p :: p in r <==> p in net.nodes[n].inputs || p in net.nodes[n].outputs
  {
    net.nodes[n].inputs + net.nodes[n].outputs
  }

  /** A node's pins exist and are distinct. */
  lemma {:induction false} PinsOfNodeOk(net: Net, n: NodeId)
    requires Owned(net) && n < |net.nodes|
    ensures NoDup(PinsOfNode(net, n))
    ensures forall i | 0 <= i < |PinsOfNode(net, n)| :: PinsOfNode(net, n)[i] < |net.pins|
  {
    PinsOf(net, n);
    var x := net.nodes[n];
    var ps := PinsOfNode(net, n);
    forall i | 0 <= i < |ps| ensures ps[i] < |net.pins| && net.pins[ps[i]].index == (if i < |x.inputs| then i else i - |x.inputs|)
      ensures net.pins[ps[i]].kind == (if i < |x.inputs| then Input else Output)
    {
      if i < |x.inputs| { assert ps[i] == x.inputs[i]; } else { assert ps[i] == x.outputs[i - |x.inputs|]; }
    }
  }

  /** After remove_node, no pin of the node has a connection and no other
      pin lists one of them; links between other pins are kept, values are
      kept. */
  lemma {:induction false} DetachedMeaning(net: Net, n: NodeId)
    requires n < |net.nodes|
    ensures forall p | 0 <= p < |net.pins| && p in PinsOfNode(net, n) ::
              Detached(net, PinsOfNode(net, n)).pins[p].connections == []
    ensures forall q, y | 0 <= q < |net.pins| && q !in PinsOfNode(net, n) ::
              y in Detached(net, PinsOfNode(net, n)).pins[q].connections <==>
              y in net.pins[q].connections && y !in PinsOfNode(net, n)
    ensures forall q | 0 <= q < |net.pins| ::
              Detached(net, PinsOfNode(net, n)).pins[q].value == net.pins[q].value
  {
  }

  /** The wiring invariants survive a change of connection lists that keeps
      them symmetric. */
  lemma {:induction false} RewiredValid(a: Net, b: Net)
    requires Valid(a) && Linked(b.pins) && |a.pins| == |b.pins| && a.nodes == b.nodes
    requires forall q | 0 <= q < |a.pins| :: b.pins[q] == a.pins[q].(connections := b.pins[q].connections)
    ensures Valid(b)
  {
    forall p | 0 <= p < |b.pins| ensures PinHome(b, p) { assert PinHome(a, p); }
    forall n, k, i | 0 <= n < |b.nodes| && 0 <= i < |Side(b.nodes[n], k)| ensures Slot(b, n, k, i) {
      assert Slot(a, n, k, i);
    }
  }

  /** The position of the first occurrence of `x` in `s`. */
  function FirstIndex(s: seq<NodeId>, x: NodeId): (k: nat)
    requires x in s
    ensures k < |s| && s[k] == x && x !in s[..k]
  {
    if s[0] == x then 0
    else
      var k := FirstIndex(s[1..], x);
      assert s[..k + 1] == [s[0]] + s[1..][..k];
      k + 1
  }

  /** list.remove on the node list takes out the first occurrence and keeps
      the order of the rest. */
  lemma {:induction false} RemoveFirstSplit(s: seq<NodeId>, x: NodeId)
    requires x in s
    ensures RemoveFirst(s, x) == s[..FirstIndex(s, x)] + s[FirstIndex(s, x) + 1..]
  {
    if s[0] != x {
      RemoveFirstSplit(s[1..], x);
      var k := FirstIndex(s[1..], x);
      assert s[..k + 1] == [s[0]] + s[1..][..k];
      assert s[k + 2..] == s[1..][k + 1..];
    }
  }

  // ---------------------------------------------------------------------
  // The container

  class Circuit {
    /** Every pin and node the program has created. */
    var net: Net
    /** The nodes that belong to the circuit, in insertion order. */
    var nodes: seq<NodeId>
    /** The wire list; the core only ever clears it. */
    var wires: seq<(PinId, PinId)>

    /** The arena is well formed, every connection joins an input to an
        output (the rule the editor enforces when a wire is drawn), and the
        listed nodes exist. */
    ghost predicate Inv()
      reads this
    {
      && Valid(net)
      && Directed(net.pins)
      && forall i | 0 <= i < |nodes| :: nodes[i] < |net.nodes|
    }

    /** Circuit.__init__: no nodes, no wires. */
    constructor(net0: Net)
      requires Valid(net0) && Directed(net0.pins)
      ensures Inv() && net == net0 && nodes == [] && wires == []
    {
      net := net0;
      nodes := [];
      wires := [];
    }

    /** add_node: append, with no duplicate check. */
    method AddNode(n: NodeId)
      requires Inv() && n < |net.nodes|
      modifies this
      ensures Inv() && nodes == old(nodes) + [n] && net == old(net) && wires == old(wires)
    {
      nodes := nodes + [n];
    }

    /** connect: Pin.connect on the source pin. */
    method Connect(source: PinId, target: PinId)
      requires Inv() && source < |net.pins| && target < |net.pins|
      requires net.pins[source].kind != net.pins[target].kind
      modifies this
      ensures Inv() && net == old(net).(pins := Link(old(net).pins, source, target))
      ensures nodes == old(nodes) && wires == old(wires)
      ensures target in net.pins[source].connections && source in net.pins[target].connections
    {
      var r := net.(pins := Link(net.pins, source, target));
      RewiredValid(net, r);
      net := r;
    }

    /** disconnect: Pin.disconnect on the source pin. */
    method Disconnect(source: PinId, target: PinId)
      requires Inv() && source < |net.pins| && target < |net.pins|
      modifies this
      ensures Inv() && net == old(net).(pins := Unlink(old(net).pins, source, target))
      ensures nodes == old(nodes) && wires == old(wires)
      ensures target !in net.pins[source].connections && source !in net.pins[target].connections
    {
      var r := net.(pins := Unlink(net.pins, source, target));
      RewiredValid(net, r);
      net := r;
    }

    /** clear: both lists emptied; no pin is disconnected. */
    method Clear()
      modifies this
      ensures nodes == [] && wires == [] && net == old(net)
      ensures old(Inv()) ==> Inv()
    {
      nodes := [];
      wires := [];
    }

    /** remove_node: when the node is in the circuit, every one of its pins
        is disconnected from each peer (over a copy of its connection list),
        then its first occurrence leaves the list; otherwise nothing
        happens. */
    method RemoveNode(n: NodeId)
      requires Inv() && n < |net.nodes|
      modifies this
      ensures Inv() && wires == old(wires)
      ensures n !in old(nodes) ==> nodes == old(nodes) && net == old(net)
      ensures n in old(nodes) ==>
                nodes == RemoveFirst(old(nodes), n) && net == Detached(old(net), PinsOfNode(old(net), n))
    {
      if n in nodes {
        PinsOfNodeOk(net, n);
        var r := DetachAll(net, PinsOfNode(net, n));
        RewiredValid(net, r);
        net := r;
        nodes := RemoveFirst(nodes, n);
        RemoveFirstSplit(old(nodes), n);
      }
    }
  }
}
