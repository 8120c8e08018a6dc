/** The schema mapping between a circuit and its saved document
    (CircuitSerializer).

    `Serialize` reads a circuit and writes one record per node, in circuit
    order, and one record per wire, found from the connections of input
    pins and deduplicated by unordered pin pair.  `Deserialize` clears a
    circuit and refills it: one freshly constructed node per record whose
    type tag it knows, then one connection per wire whose node ids and pin
    positions resolve; anything else is skipped.  A custom gate's internal
    circuit is loaded by the same mapping (`NewCustomGate`), recursively,
    from a library of documents indexed by chip name. */
module Serializer {
  import opened Netlist
  import opened Gates
  import opened Circuits

  // ---------------------------------------------------------------------
  // Documents

  /** The "type" field: the class name of a node ("AndGate", "OrGate",
      "NotGate", "InputSwitch", "OutputBulb", "CustomGate") or any other
      string. */
  datatype Kind = AndKind | OrKind | NotKind | SwitchKind | BulbKind | CustomKind | OtherKind(text: string)

  /** An entry of the "nodes" list.  `id` stands for the node's uuid (the
      arena index plays that part: it is unique per node); a missing "name"
      or "source_chip_name" key is `None`.  Positions are not modelled. */
  datatype NodeRecord = NodeRecord(id: nat, kind: Kind, name: Option<string>, inputs: nat, chip: Option<string>)

  /** An entry of the "wires" list: the output end (`from`) and the input
      end (`to`), each as a node id and a position in that node's pin list.
      Positions are Python list indices and may be negative. */
  datatype WireRecord = WireRecord(fromNode: nat, fromPin: int, toNode: nat, toPin: int)

  /** A document; `inputNames` and `outputNames` are the keys a custom gate
      reads its pin counts from (empty when the keys are absent). */
  datatype Document = Document(nodes: seq<NodeRecord>, wires: seq<WireRecord>,
                               inputNames: seq<string>, outputNames: seq<string>)

  /** The chip library: the document saved under each chip name. */
  type Library = map<string, Document>

  /** The class name of a gate variant, as the "type" field holds it. */
  function KindOf(g: Gate): (k: Kind)
    ensures !k.OtherKind?
  {
    match g
    case AndGate => AndKind
    case OrGate => OrKind
    case NotGate => NotKind
    case InputSwitch(_) => SwitchKind
    case OutputBulb(_) => BulbKind
    case CustomGate(_, _, _, _, _) => CustomKind
  }

  // ---------------------------------------------------------------------
  // Arenas that only grow

  /** `b` extends `a` by fresh nodes and fresh unconnected pins; nothing of
      `a` changes. */
  ghost predicate Extends(a: Net, b: Net) {
    && |a.pins| <= |b.pins| && b.pins[..|a.pins|] == a.pins
    && (forall q | |a.pins| <= q < |b.pins| :: b.pins[q].connections == [])
    && |a.nodes| <= |b.nodes| && b.nodes[..|a.nodes|] == a.nodes
  }

  lemma ExtendsTrans(a: Net, b: Net, c: Net)
    requires Extends(a, b) && Extends(b, c)
    ensures Extends(a, c)
  {
    assert c.pins[..|a.pins|] == c.pins[..|b.pins|][..|a.pins|];
    assert c.nodes[..|a.nodes|] == c.nodes[..|b.nodes|][..|a.nodes|];
    forall q | |a.pins| <= q < |c.pins| ensures c.pins[q].connections == [] {
      if q < |b.pins| { assert c.pins[q] == c.pins[..|b.pins|][q]; }
    }
  }

  /** Fresh pins have no connections, so the direction invariant carries
      over. */
  lemma {:induction false} ExtendsDirected(a: Net, b: Net)
    requires Extends(a, b) && Directed(a.pins)
    ensures Directed(b.pins)
  {
    forall p | 0 <= p < |b.pins| ensures DirOk(b.pins, p) {
      if p < |a.pins| {
        assert b.pins[p] == b.pins[..|a.pins|][p];
        assert DirOk(a.pins, p);
        forall c | c in b.pins[p].connections ensures c < |b.pins| && b.pins[c].kind != b.pins[p].kind {
          assert b.pins[c] == b.pins[..|a.pins|][c];
        }
      }
    }
  }

  /** Nesting depth bounds carry over to the old nodes of an extension. */
  lemma {:induction false} ExtendsUnder(a: Net, b: Net, h: nat)
    requires Extends(a, b) && Under(a, h)
    requires forall n | |a.nodes| <= n < |b.nodes| && b.nodes[n].gate.CustomGate? :: b.nodes[n].gate.level < h
    ensures Under(b, h)
  {
    forall n | 0 <= n < |b.nodes| && b.nodes[n].gate.CustomGate? ensures b.nodes[n].gate.level < h {
      if n < |a.nodes| { assert b.nodes[n] == b.nodes[..|a.nodes|][n]; }
    }
  }

  /** The same for an extension by one node. */
  lemma AddedUnder(a: Net, b: Net, h: nat)
    requires Extends(a, b) && Under(a, h) && |b.nodes| == |a.nodes| + 1
    requires b.nodes[|a.nodes|].gate.CustomGate? ==> b.nodes[|a.nodes|].gate.level < h
    ensures Under(b, h)
  {
    ExtendsUnder(a, b, h);
  }

  /** `node.name = ...`: only the name of node `n` changes. */
  function Renamed(net: Net, n: NodeId, name: string): (r: Net)
    requires n < |net.nodes|
    ensures r.pins == net.pins && |r.nodes| == |net.nodes|
    ensures r.nodes[n] == net.nodes[n].(name := name)
    ensures forall m | 0 <= m < |net.nodes| && m != n :: r.nodes[m] == net.nodes[m]
  {
    net.(nodes := net.nodes[n := net.nodes[n].(name := name)])
  }

  /** A name is not part of the wiring invariants. */
  lemma RenamedValid(net: Net, n: NodeId, name: string)
    requires n < |net.nodes| && Valid(net)
    ensures Valid(Renamed(net, n, name))
  {
    var r := Renamed(net, n, name);
    forall p | 0 <= p < |r.pins| ensures PinHome(r, p) { assert PinHome(net, p); }
    forall m, k, i | 0 <= m < |r.nodes| && 0 <= i < |Side(r.nodes[m], k)| ensures Slot(r, m, k, i) {
      assert Slot(net, m, k, i);
    }
    assert NodeOk(net.nodes[n]);
  }

  /** Renaming a node added after `a` keeps `b` an extension of `a`. */
  lemma RenamedExtends(a: Net, b: Net, n: NodeId, name: string)
    requires Extends(a, b) && |a.nodes| <= n < |b.nodes|
    ensures Extends(a, Renamed(b, n, name))
    ensures forall m | 0 <= m < |b.nodes| :: Renamed(b, n, name).nodes[m].gate == b.nodes[m].gate
  {
    var r := Renamed(b, n, name);
    assert r.nodes[..|a.nodes|] == b.nodes[..|a.nodes|];
  }

  // ---------------------------------------------------------------------
  // The internal switches and bulbs of a custom gate, sorted by name

  /** Python's `<=` on str: code point by code point, a proper prefix
      first. */
  predicate NameLe(a: string, b: string)
    decreases |a|
  {
    |a| == 0 || (|b| > 0 && (a[0] < b[0] || (a[0] == b[0] && NameLe(a[1..], b[1..]))))
  }

  lemma {:induction false} NameLeTotal(a: string, b: string)
    ensures NameLe(a, b) || NameLe(b, a)
    decreases |a|
  {
    if |a| > 0 && |b| > 0 && a[0] == b[0] {
      NameLeTotal(a[1..], b[1..]);
    }
  }

  lemma {:induction false} NameLeTrans(a: string, b: string, c: string)
    requires NameLe(a, b) && NameLe(b, c)
    ensures NameLe(a, c)
    decreases |a|
  {
    if |a| > 0 && a[0] == b[0] && b[0] == c[0] {
      NameLeTrans(a[1..], b[1..], c[1..]);
    }
  }

  /** The `ids` whose node is a bulb (`bulbs`) or a switch (otherwise), in
      their order: the list comprehensions over the internal circuit. */
  function Selected(nodes: seq<Node>, ids: seq<NodeId>, bulbs: bool): (r: seq<NodeId>)
    requires forall i | 0 <= i < |ids| :: ids[i] < |nodes|
    ensures forall y :: y in r <==> y in ids && y < |nodes| && (if bulbs then nodes[y].gate.OutputBulb? else nodes[y].gate.InputSwitch?)
    ensures forall i | 0 <= i < |r| :: r[i] < |nodes|
    ensures NoDup(ids) ==> NoDup(r)
    decreases |ids|
  {
    if ids == [] then []
    else
      var init, last := ids[..|ids| - 1], ids[|ids| - 1];
      assert ids == init + [last];
      var s := Selected(nodes, init, bulbs);
      var keep := if bulbs then nodes[last].gate.OutputBulb? else nodes[last].gate.InputSwitch?;
      assert NoDup(ids) ==> NoDup(if keep then s + [last] else s) by {
        if NoDup(ids) {
          assert NoDup(init) by {
            forall i, j | 0 <= i < j < |init| ensures init[i] != init[j] { assert ids[i] != ids[j]; }
          }
          assert last !in init by {
            forall i | 0 <= i < |init| ensures init[i] != last { assert ids[i] != ids[|ids| - 1]; }
          }
          if keep { AppendNoDup(s, last); }
        }
      }
      if keep then s + [last] else s
  }

  /** The names along `s` never decrease. */
  ghost predicate ByName(nodes: seq<Node>, s: seq<NodeId>)
    requires forall i | 0 <= i < |s| :: s[i] < |nodes|
  {
    forall i, j | 0 <= i < j < |s| :: NameLe(nodes[s[i]].name, nodes[s[j]].name)
  }

  /** Insertion of `x` after every entry of `s` whose name is not greater
      than its own (so equal names keep their order). */
  function Insert(nodes: seq<Node>, s: seq<NodeId>, x: NodeId): (r: seq<NodeId>)
    requires x < |nodes| && forall i | 0 <= i < |s| :: s[i] < |nodes|
    ensures multiset(r) == multiset(s) + multiset{x}
    ensures |r| == |s| + 1 && forall i | 0 <= i < |r| :: r[i] == x || r[i] in s
    decreases |s|
  {
    if s == [] || NameLe(nodes[s[|s| - 1]].name, nodes[x].name) then s + [x]
    else
      var init, last := s[..|s| - 1], s[|s| - 1];
      assert s == init + [last];
      var t := Insert(nodes, init, x);
      assert forall i | 0 <= i < |t| :: t[i] == x || t[i] in s by {
        forall i | 0 <= i < |t| ensures t[i] == x || t[i] in s {
          if t[i] != x { assert t[i] in init; }
        }
      }
      t + [last]
  }

  /** `list.sort(key=lambda n: n.name)`, as an insertion sort (stable, like
      Python's). */
  function SortByName(nodes: seq<Node>, ids: seq<NodeId>): (r: seq<NodeId>)
    requires forall i | 0 <= i < |ids| :: ids[i] < |nodes|
    ensures multiset(r) == multiset(ids)
    ensures |r| == |ids| && forall i | 0 <= i < |r| :: r[i] < |nodes|
    decreases |ids|
  {
    if ids == [] then []
    else
      var init, last := ids[..|ids| - 1], ids[|ids| - 1];
      assert ids == init + [last];
      var s := SortByName(nodes, init);
      var r := Insert(nodes, s, last);
      assert forall i | 0 <= i < |r| :: r[i] < |nodes| by {
        forall i | 0 <= i < |r| ensures r[i] < |nodes| {
          if r[i] != last {
            assert r[i] in s;
            var j :| 0 <= j < |s| && s[j] == r[i];
          }
        }
      }
      r
  }

  /** Inserting into a list in name order keeps it in name order. */
  lemma {:induction false} InsertByName(nodes: seq<Node>, s: seq<NodeId>, x: NodeId)
    requires x < |nodes| && forall i | 0 <= i < |s| :: s[i] < |nodes|
    requires ByName(nodes, s)
    ensures ByName(nodes, Insert(nodes, s, x))
    decreases |s|
  {
    var r := Insert(nodes, s, x);
    if s == [] {
    } else if NameLe(nodes[s[|s| - 1]].name, nodes[x].name) {
      assert r == s + [x];
      forall i, j | 0 <= i < j < |r| ensures NameLe(nodes[r[i]].name, nodes[r[j]].name) {
        if j == |s| && i < |s| - 1 {
          NameLeTrans(nodes[s[i]].name, nodes[s[|s| - 1]].name, nodes[x].name);
        }
      }
    } else {
      var init, last := s[..|s| - 1], s[|s| - 1];
      assert s == init + [last];
      assert ByName(nodes, init) by {
        forall i, j | 0 <= i < j < |init| ensures NameLe(nodes[init[i]].name, nodes[init[j]].name) {
          assert init[i] == s[i] && init[j] == s[j];
        }
      }
      InsertByName(nodes, init, x);
      var t := Insert(nodes, init, x);
      assert r == t + [last];
      NameLeTotal(nodes[x].name, nodes[last].name);
      forall i | 0 <= i < |t| ensures NameLe(nodes[t[i]].name, nodes[last].name) {
        if t[i] != x {
          var k :| 0 <= k < |init| && init[k] == t[i];
          assert s[k] == t[i];
        }
      }
      forall i, j | 0 <= i < j < |r| ensures NameLe(nodes[r[i]].name, nodes[r[j]].name) {
        assert r[i] == t[i];
        if j < |t| { assert r[j] == t[j]; }
      }
    }
  }

  /** The sort puts the names in order. */
  lemma {:induction false} SortedByName(nodes: seq<Node>, ids: seq<NodeId>)
    requires forall i | 0 <= i < |ids| :: ids[i] < |nodes|
    ensures ByName(nodes, SortByName(nodes, ids))
    decreases |ids|
  {
    if ids != [] {
      var init := ids[..|ids| - 1];
      SortedByName(nodes, init);
      InsertByName(nodes, SortByName(nodes, init), ids[|ids| - 1]);
    }
  }

  /** A rearrangement of a duplicate-free list is duplicate-free. */
  lemma {:induction false} PermutationNoDup(a: seq<NodeId>, b: seq<NodeId>)
    requires multiset(a) == multiset(b) && NoDup(a)
    ensures NoDup(b)
  {
    forall i, j | 0 <= i < j < |b| ensures b[i] != b[j] {
      if b[i] == b[j] {
        var x := b[i];
        assert multiset(b)[x] >= 2 by {
          assert b == b[..j] + [b[j]] + b[j + 1..];
          assert b[..j] == b[..i] + [b[i]] + b[i + 1..j];
        }
        Once(a, x);
        assert false;
      }
    }
  }

  /** In a duplicate-free list every element occurs at most once. */
  lemma {:induction false} Once(a: seq<NodeId>, x: NodeId)
    requires NoDup(a)
    ensures multiset(a)[x] <= 1
    decreases |a|
  {
    if a != [] {
      assert a == [a[0]] + a[1..];
      assert NoDup(a[1..]) by {
        forall i, j | 0 <= i < j < |a[1..]| ensures a[1..][i] != a[1..][j] { assert a[i + 1] != a[j + 1]; }
      }
      Once(a[1..], x);
      if a[0] == x {
        assert x !in a[1..] by {
          forall i | 0 <= i < |a[1..]| ensures a[1..][i] != x { assert a[i + 1] != a[0]; }
        }
      }
    }
  }

  // ---------------------------------------------------------------------
  // Node construction by type tag

  /** The chip a "CustomGate" record loads: "source_chip_name", else
      "name"; absent and empty both mean none (Python tests `if chip_name`). */
  function ChipOf(r: NodeRecord): string {
    if r.chip.Some? then r.chip.value else if r.name.Some? then r.name.value else ""
  }

  /** The record yields a node: its tag is one of the five basic classes,
      or it names a chip of the library and loading may still nest. */
  predicate Builds(r: NodeRecord, lib: Library, depth: nat) {
    || (!r.kind.OtherKind? && !r.kind.CustomKind?)
    || (r.kind.CustomKind? && ChipOf(r) != "" && ChipOf(r) in lib && depth > 0)
  }

  /** A node made by `Stock` extends the arena and carries the gate it was
      given. */
  lemma StockExtends(net: Net, name: string, g: Gate, ins: nat, outs: nat)
    ensures Extends(net, Stock(net, name, g, ins, outs).0)
    ensures Stock(net, name, g, ins, outs).0.nodes[|net.nodes|].gate == g
  {
  }

  /** The constructor of one of the five basic classes. */
  function Basic(net: Net, kind: Kind): (o: (Net, NodeId))
    requires !kind.OtherKind? && !kind.CustomKind?
    ensures o.1 == |net.nodes| && |o.0.nodes| == |net.nodes| + 1
    ensures KindOf(o.0.nodes[o.1].gate) == kind
  {
    match kind
    case AndKind => NewAnd(net)
    case OrKind => NewOr(net)
    case NotKind => NewNot(net)
    case BulbKind => NewBulb(net)
    case SwitchKind => NewSwitch(net)
  }

  /** A basic constructor only adds a node and its fresh pins, and keeps a
      well-formed arena well formed. */
  lemma BasicKeeps(net: Net, kind: Kind)
    requires !kind.OtherKind? && !kind.CustomKind?
    ensures Extends(net, Basic(net, kind).0)
    ensures Valid(net) ==> Valid(Basic(net, kind).0)
  {
    match kind
    case AndKind => StockExtends(net, "AND", AndGate, 2, 1);
    case OrKind => StockExtends(net, "OR", OrGate, 2, 1);
    case NotKind => StockExtends(net, "NOT", NotGate, 1, 1);
    case BulbKind => StockExtends(net, "Output", OutputBulb(false), 1, 0);
    case SwitchKind =>
      var o := NewSwitch(net);
      assert o.0.pins[..|net.pins|] == net.pins;
  }

  /** The constructor a record's tag selects, run on the arena. */
  function Constructed(net: Net, r: NodeRecord, lib: Library, depth: nat): (o: (Net, NodeId))
    requires Builds(r, lib, depth)
    ensures o.1 == |net.nodes| && |o.0.nodes| == |net.nodes| + 1
    ensures KindOf(o.0.nodes[o.1].gate) == r.kind
    ensures r.kind.CustomKind? ==> o.0.nodes[o.1].gate.level == depth && o.0.nodes[o.1].gate.chip == ChipOf(r)
    decreases depth, 1
  {
    if r.kind.CustomKind? then NewCustomGate(net, ChipOf(r), lib[ChipOf(r)], lib, depth)
    else Basic(net, r.kind)
  }

  /** One pass of the node loop of deserialize: the node the record's tag
      selects, renamed from the record when it has a name; `None` when the
      record is skipped. */
  function Made(net: Net, r: NodeRecord, lib: Library, depth: nat): (o: Option<(Net, NodeId)>)
    ensures o.Some? <==> Builds(r, lib, depth)
    ensures o.Some? ==> o.value.1 == |net.nodes| && |o.value.0.nodes| == |net.nodes| + 1
    ensures o.Some? ==> KindOf(o.value.0.nodes[o.value.1].gate) == r.kind
    ensures o.Some? && r.name.Some? ==> o.value.0.nodes[o.value.1].name == r.name.value
    ensures o.Some? && r.kind.CustomKind? ==> o.value.0.nodes[o.value.1].gate.chip == ChipOf(r)
    decreases depth, 2
  {
    if !Builds(r, lib, depth) then None
    else
      var (a, n) := Constructed(net, r, lib, depth);
      Some((Renamed(a, n, if r.name.Some? then r.name.value else a.nodes[n].name), n))
  }

  /** The node loop of deserialize after the records `recs`: the arena, the
      nodes added to the circuit (in order) and the id map. */
  function Placed(net: Net, recs: seq<NodeRecord>, lib: Library, depth: nat): (r: (Net, seq<NodeId>, map<nat, NodeId>))
    ensures |net.nodes| <= |r.0.nodes| && r.1 == Ids(|net.nodes|, |r.0.nodes| - |net.nodes|)
    decreases depth, 3, |recs|
  {
    if recs == [] then (net, [], map[])
    else
      var (a, ns, ids) := Placed(net, recs[..|recs| - 1], lib, depth);
      var last := recs[|recs| - 1];
      match Made(a, last, lib, depth)
      case None => (a, ns, ids)
      case Some((b, n)) => (b, ns + [n], ids[last.id := n])
  }

  // ---------------------------------------------------------------------
  // Wire restoration

  /** `s[i]` for a Python index: a negative one counts from the end; one
      out of range raises IndexError (`None`). */
  function At(s: seq<PinId>, i: int): (r: Option<PinId>)
    ensures r.Some? <==> -|s| <= i < |s|
    ensures 0 <= i < |s| ==> r == Some(s[i])
    ensures r.Some? ==> r.value in s
  {
    if 0 <= i < |s| then Some(s[i])
    else if -|s| <= i < 0 then Some(s[|s| + i])
    else None
  }

  /** An index and the same index counted from the end pick the same
      entry. */
  lemma AtWraps(s: seq<PinId>, i: nat)
    requires i < |s|
    ensures At(s, i - |s|) == At(s, i) == Some(s[i])
  {
  }

  /** The two pins a wire record resolves to, output first; `None` when
      either node id is unknown or either position is out of range.  The
      arena bounds it also tests always hold in a well-formed arena
      (`EndsMeaning`). */
  function Ends(net: Net, w: WireRecord, ids: map<nat, NodeId>): (e: Option<(PinId, PinId)>)
    ensures e.Some? ==> e.value.0 < |net.pins| && e.value.1 < |net.pins|
  {
    if w.fromNode in ids && w.toNode in ids && ids[w.fromNode] < |net.nodes| && ids[w.toNode] < |net.nodes| then
      var fp := At(net.nodes[ids[w.fromNode]].outputs, w.fromPin);
      var tp := At(net.nodes[ids[w.toNode]].inputs, w.toPin);
      if fp.Some? && tp.Some? && fp.value < |net.pins| && tp.value < |net.pins| then Some((fp.value, tp.value))
      else None
    else None
  }

  /** In a well-formed arena whose id map names its nodes, a wire record
      resolves exactly when both ids are known and both positions are in
      range, to an output pin of the `from` node and an input pin of the
      `to` node. */
  lemma EndsMeaning(net: Net, w: WireRecord, ids: map<nat, NodeId>)
    requires Owned(net) && forall k | k in ids :: ids[k] < |net.nodes|
    ensures var e := Ends(net, w, ids);
            && (e.None? <==> || w.fromNode !in ids || w.toNode !in ids
                             || At(net.nodes[ids[w.fromNode]].outputs, w.fromPin).None?
                             || At(net.nodes[ids[w.toNode]].inputs, w.toPin).None?)
            && (e.Some? ==> && e.value.0 == At(net.nodes[ids[w.fromNode]].outputs, w.fromPin).value
                            && e.value.1 == At(net.nodes[ids[w.toNode]].inputs, w.toPin).value
                            && net.pins[e.value.0].node == ids[w.fromNode] && net.pins[e.value.0].kind == Output
                            && net.pins[e.value.1].node == ids[w.toNode] && net.pins[e.value.1].kind == Input)
  {
    if w.fromNode in ids && w.toNode in ids {
      PinsOf(net, ids[w.fromNode]);
      PinsOf(net, ids[w.toNode]);
    }
  }

  /** One pass of the wire loop of deserialize: `circuit.connect` on the
      resolved pins, or nothing. */
  function Wired(net: Net, w: WireRecord, ids: map<nat, NodeId>): (r: Net)
    ensures r.nodes == net.nodes && |r.pins| == |net.pins|
    ensures forall q | 0 <= q < |net.pins| :: r.pins[q] == net.pins[q].(connections := r.pins[q].connections)
  {
    match Ends(net, w, ids)
    case None => net
    case Some((a, b)) => net.(pins := Link(net.pins, a, b))
  }

  /** A wire joins an output pin to an input pin, so the arena stays well
      formed and directed; an unresolved record changes nothing. */
  lemma WiredKeeps(net: Net, w: WireRecord, ids: map<nat, NodeId>)
    requires Valid(net) && forall k | k in ids :: ids[k] < |net.nodes|
    ensures Valid(Wired(net, w, ids))
    ensures Directed(net.pins) ==> Directed(Wired(net, w, ids).pins)
    ensures Ends(net, w, ids).None? ==> Wired(net, w, ids) == net
  {
    EndsMeaning(net, w, ids);
    if Ends(net, w, ids).Some? {
      RewiredValid(net, Wired(net, w, ids));
    }
  }

  /** The wire loop of deserialize after the records `ws`. */
  function Connected(net: Net, ws: seq<WireRecord>, ids: map<nat, NodeId>): (r: Net)
    ensures r.nodes == net.nodes && |r.pins| == |net.pins|
    ensures forall q | 0 <= q < |net.pins| :: r.pins[q] == net.pins[q].(connections := r.pins[q].connections)
    decreases |ws|
  {
    if ws == [] then net
    else Wired(Connected(net, ws[..|ws| - 1], ids), ws[|ws| - 1], ids)
  }

  lemma {:induction false} ConnectedKeeps(net: Net, ws: seq<WireRecord>, ids: map<nat, NodeId>)
    requires Valid(net) && forall k | k in ids :: ids[k] < |net.nodes|
    ensures Valid(Connected(net, ws, ids))
    ensures Directed(net.pins) ==> Directed(Connected(net, ws, ids).pins)
    decreases |ws|
  {
    if ws != [] {
      var init := ws[..|ws| - 1];
      ConnectedKeeps(net, init, ids);
      WiredKeeps(Connected(net, init, ids), ws[|ws| - 1], ids);
    }
  }

  /** What deserialize leaves: the arena and the circuit's node list. */
  function Restored(net: Net, doc: Document, lib: Library, depth: nat): (r: (Net, seq<NodeId>))
    ensures |net.nodes| <= |r.0.nodes| && r.1 == Ids(|net.nodes|, |r.0.nodes| - |net.nodes|)
    decreases depth, 4
  {
    var (a, ns, ids) := Placed(net, doc.nodes, lib, depth);
    (Connected(a, doc.wires, ids), ns)
  }

  // ---------------------------------------------------------------------
  // CustomGate.__init__

  /** `input_nodes` (or, for `bulbs`, `output_nodes`): the switches (or
      bulbs) among the internal circuit's nodes `all`, sorted by name.  They
      are exactly the selected nodes, in name order, and each once when
      `all` has no repeats. */
  function Mapped(nodes: seq<Node>, all: seq<NodeId>, bulbs: bool): (r: seq<NodeId>)
    requires forall i | 0 <= i < |all| :: all[i] < |nodes|
    ensures forall i | 0 <= i < |r| :: r[i] < |nodes|
    ensures multiset(r) == multiset(Selected(nodes, all, bulbs)) && ByName(nodes, r)
    ensures NoDup(all) ==> NoDup(r)
    ensures forall i | 0 <= i < |r| :: if bulbs then nodes[r[i]].gate.OutputBulb? else nodes[r[i]].gate.InputSwitch?
  {
    var s := Selected(nodes, all, bulbs);
    var r := SortByName(nodes, s);
    assert NoDup(all) ==> NoDup(r) by {
      if NoDup(all) { PermutationNoDup(s, r); }
    }
    SortedByName(nodes, s);
    assert forall i | 0 <= i < |r| :: r[i] in multiset(s);
    r
  }

  /** A custom gate loaded from chip `chip`'s document: one input pin per
      input name and one output pin per output name; the internal circuit
      restored from the document one nesting level down; its switches and
      bulbs, each sorted by name, as the pin mappings. */
  function NewCustomGate(net: Net, chip: string, doc: Document, lib: Library, depth: nat): (r: (Net, NodeId))
    requires depth > 0
    ensures r.1 == |net.nodes| && |r.0.nodes| == |net.nodes| + 1
    ensures r.0.nodes[r.1].gate.CustomGate? && r.0.nodes[r.1].gate.level == depth && r.0.nodes[r.1].gate.chip == chip
    decreases depth, 0
  {
    var (inner, all) := Restored(EmptyNet, doc, lib, depth - 1);
    var g := CustomGate(depth, chip, inner, Mapped(inner.nodes, all, false), Mapped(inner.nodes, all, true));
    Stock(net, chip, g, |doc.inputNames|, |doc.outputNames|)
  }

  // ---------------------------------------------------------------------
  // The arena only grows while nodes are placed

  /** A constructed node is appended with fresh pins; a custom gate is
      loaded at the current depth, so depth bounds carry over. */
  lemma ConstructedExtends(net: Net, r: NodeRecord, lib: Library, depth: nat)
    requires Builds(r, lib, depth)
    ensures Extends(net, Constructed(net, r, lib, depth).0)
    ensures Under(net, depth + 1) ==> Under(Constructed(net, r, lib, depth).0, depth + 1)
  {
    var o := Constructed(net, r, lib, depth);
    if r.kind.CustomKind? {
      var doc := lib[ChipOf(r)];
      var (inner, all) := Restored(EmptyNet, doc, lib, depth - 1);
      var g := CustomGate(depth, ChipOf(r), inner, Mapped(inner.nodes, all, false), Mapped(inner.nodes, all, true));
      StockExtends(net, ChipOf(r), g, |doc.inputNames|, |doc.outputNames|);
    } else {
      BasicKeeps(net, r.kind);
    }
    if Under(net, depth + 1) { AddedUnder(net, o.0, depth + 1); }
  }

  lemma MadeExtends(net: Net, r: NodeRecord, lib: Library, depth: nat)
    requires Builds(r, lib, depth)
    ensures Extends(net, Made(net, r, lib, depth).value.0)
    ensures Under(net, depth + 1) ==> Under(Made(net, r, lib, depth).value.0, depth + 1)
  {
    var (a, n) := Constructed(net, r, lib, depth);
    ConstructedExtends(net, r, lib, depth);
    var name := if r.name.Some? then r.name.value else a.nodes[n].name;
    RenamedExtends(net, a, n, name);
    if Under(net, depth + 1) {
      AddedUnder(net, Renamed(a, n, name), depth + 1);
    }
  }

  /** Placing nodes only appends; the id map names placed nodes only. */
  lemma {:induction false} PlacedExtends(net: Net, recs: seq<NodeRecord>, lib: Library, depth: nat)
    ensures Extends(net, Placed(net, recs, lib, depth).0)
    ensures forall k | k in Placed(net, recs, lib, depth).2 ::
              |net.nodes| <= Placed(net, recs, lib, depth).2[k] < |Placed(net, recs, lib, depth).0.nodes|
    ensures Under(net, depth + 1) ==> Under(Placed(net, recs, lib, depth).0, depth + 1)
    decreases |recs|
  {
    if recs == [] {
      assert net.pins[..|net.pins|] == net.pins && net.nodes[..|net.nodes|] == net.nodes;
    } else {
      var init, last := recs[..|recs| - 1], recs[|recs| - 1];
      PlacedExtends(net, init, lib, depth);
      var a := Placed(net, init, lib, depth).0;
      if Builds(last, lib, depth) {
        MadeExtends(a, last, lib, depth);
        ExtendsTrans(net, a, Made(a, last, lib, depth).value.0);
      }
    }
  }

  /** Restoring a document appends the placed nodes and only adds wires. */
  lemma RestoredExtends(net: Net, doc: Document, lib: Library, depth: nat)
    ensures Restored(net, doc, lib, depth).0.nodes[..|net.nodes|] == net.nodes
    ensures Under(net, depth + 1) ==> Under(Restored(net, doc, lib, depth).0, depth + 1)
  {
    PlacedExtends(net, doc.nodes, lib, depth);
  }

  // ---------------------------------------------------------------------
  // Loading keeps the arena well formed

  /** A custom gate built on a well-formed internal arena holding only
      gates below its level keeps the arena well formed: its mappings name
      distinct switches and bulbs of that arena. */
  lemma CustomBuilt(net: Net, chip: string, inner: Net, all: seq<NodeId>, depth: nat, ins: nat, outs: nat)
    requires Valid(net) && Valid(inner) && Under(inner, depth)
    requires NoDup(all) && forall i | 0 <= i < |all| :: all[i] < |inner.nodes|
    ensures Valid(Stock(net, chip, CustomGate(depth, chip, inner, Mapped(inner.nodes, all, false), Mapped(inner.nodes, all, true)), ins, outs).0)
  {
    var g := CustomGate(depth, chip, inner, Mapped(inner.nodes, all, false), Mapped(inner.nodes, all, true));
    assert NodeOk(Stock(net, chip, g, ins, outs).0.nodes[|net.nodes|]);
    StockValid(net, chip, g, ins, outs);
  }

  /** The nodes a document restores into an empty arena are all of that
      arena's nodes, each once. */
  lemma InnerIds(doc: Document, lib: Library, depth: nat)
    ensures var (inner, all) := Restored(EmptyNet, doc, lib, depth);
            NoDup(all) && forall i | 0 <= i < |all| :: all[i] < |inner.nodes|
  {
    var (inner, all) := Restored(EmptyNet, doc, lib, depth);
    assert all == Ids(0, |inner.nodes|);
    assert NoDup(all);
  }

  /** A loaded custom gate keeps the arena well formed. */
  lemma {:induction false} CustomValid(net: Net, chip: string, doc: Document, lib: Library, depth: nat)
    requires Valid(net) && depth > 0
    ensures Valid(NewCustomGate(net, chip, doc, lib, depth).0)
    decreases depth, 0
  {
    var (inner, all) := Restored(EmptyNet, doc, lib, depth - 1);
    RestoredValid(EmptyNet, doc, lib, depth - 1);
    RestoredExtends(EmptyNet, doc, lib, depth - 1);
    InnerIds(doc, lib, depth - 1);
    CustomBuilt(net, chip, inner, all, depth, |doc.inputNames|, |doc.outputNames|);
  }

  /** `s` lists every switch (or, for `bulbs`, every bulb) of `nodes`, each
      once and nothing else, in name order. */
  ghost predicate SortedSelection(nodes: seq<Node>, s: seq<NodeId>, bulbs: bool) {
    && (forall i | 0 <= i < |s| :: s[i] < |nodes|)
    && ByName(nodes, s)
    && NoDup(s)
    && forall y: NodeId :: y in s <==> y < |nodes| && (if bulbs then nodes[y].gate.OutputBulb? else nodes[y].gate.InputSwitch?)
  }

  /** Mapping all the nodes of an arena selects every switch (bulb) of it,
      sorted by name. */
  lemma MappedSelection(nodes: seq<Node>, all: seq<NodeId>, bulbs: bool)
    requires all == Ids(0, |nodes|)
    ensures SortedSelection(nodes, Mapped(nodes, all, bulbs), bulbs)
  {
    assert NoDup(all);
    forall y: NodeId ensures y in Mapped(nodes, all, bulbs) <==> y < |nodes| && (if bulbs then nodes[y].gate.OutputBulb? else nodes[y].gate.InputSwitch?) {
      MappedHas(nodes, all, bulbs, y);
    }
  }

  /** One id at a time: an id is mapped exactly when it is a switch (bulb)
      of the arena. */
  lemma MappedHas(nodes: seq<Node>, all: seq<NodeId>, bulbs: bool, y: NodeId)
    requires all == Ids(0, |nodes|)
    ensures y in Mapped(nodes, all, bulbs) <==> y < |nodes| && (if bulbs then nodes[y].gate.OutputBulb? else nodes[y].gate.InputSwitch?)
  {
    var r := Mapped(nodes, all, bulbs);
    var s := Selected(nodes, all, bulbs);
    if y < |nodes| { assert all[y] == y; }
    assert y in r <==> y in multiset(r);
    assert y in s <==> y in multiset(s);
  }

  /** CustomGate.__init__: the gate is named after its chip, has one input
      pin per input name and one output pin per output name, owns the
      circuit its document restores, and maps its inputs (outputs) to all
      the switches (bulbs) of that circuit, each once, sorted by name. */
  lemma NewCustomGateShape(net: Net, chip: string, doc: Document, lib: Library, depth: nat)
    requires depth > 0
    ensures var (b, n) := NewCustomGate(net, chip, doc, lib, depth);
            && b.nodes[n].name == chip
            && |b.nodes[n].inputs| == |doc.inputNames| && |b.nodes[n].outputs| == |doc.outputNames|
            && b.nodes[n].gate.inner == Restored(EmptyNet, doc, lib, depth - 1).0
            && SortedSelection(b.nodes[n].gate.inner.nodes, b.nodes[n].gate.inputNodes, false)
            && SortedSelection(b.nodes[n].gate.inner.nodes, b.nodes[n].gate.outputNodes, true)
  {
    var (inner, all) := Restored(EmptyNet, doc, lib, depth - 1);
    MappedSelection(inner.nodes, all, false);
    MappedSelection(inner.nodes, all, true);
  }

  lemma {:induction false} ConstructedValid(net: Net, r: NodeRecord, lib: Library, depth: nat)
    requires Valid(net) && Builds(r, lib, depth)
    ensures Valid(Constructed(net, r, lib, depth).0)
    decreases depth, 1
  {
    if r.kind.CustomKind? {
      CustomValid(net, ChipOf(r), lib[ChipOf(r)], lib, depth);
    } else {
      BasicKeeps(net, r.kind);
    }
  }

  lemma {:induction false} MadeValid(net: Net, r: NodeRecord, lib: Library, depth: nat)
    requires Valid(net) && Builds(r, lib, depth)
    ensures Valid(Made(net, r, lib, depth).value.0)
    decreases depth, 2
  {
    var (a, n) := Constructed(net, r, lib, depth);
    ConstructedValid(net, r, lib, depth);
    RenamedValid(a, n, if r.name.Some? then r.name.value else a.nodes[n].name);
  }

  lemma {:induction false} PlacedValid(net: Net, recs: seq<NodeRecord>, lib: Library, depth: nat)
    requires Valid(net)
    ensures Valid(Placed(net, recs, lib, depth).0)
    decreases depth, 3, |recs|
  {
    if recs != [] {
      var init, last := recs[..|recs| - 1], recs[|recs| - 1];
      PlacedValid(net, init, lib, depth);
      if Builds(last, lib, depth) {
        MadeValid(Placed(net, init, lib, depth).0, last, lib, depth);
      }
    }
  }

  /** Deserializing into a well-formed arena leaves it well formed, and
      directed when it was. */
  lemma {:induction false} RestoredValid(net: Net, doc: Document, lib: Library, depth: nat)
    requires Valid(net)
    ensures Valid(Restored(net, doc, lib, depth).0)
    ensures Directed(net.pins) ==> Directed(Restored(net, doc, lib, depth).0.pins)
    decreases depth, 4
  {
    var (a, ns, ids) := Placed(net, doc.nodes, lib, depth);
    PlacedValid(net, doc.nodes, lib, depth);
    PlacedExtends(net, doc.nodes, lib, depth);
    if Directed(net.pins) { ExtendsDirected(net, a); }
    ConnectedKeeps(a, doc.wires, ids);
  }

  // ---------------------------------------------------------------------
  // serialize: the node list

  /** The entry serialize writes for node `n`: its id, class name, name and
      input count, and for a custom gate the chip it was loaded from. */
  function NodeEntry(net: Net, n: NodeId): NodeRecord
    requires n < |net.nodes|
  {
    var x := net.nodes[n];
    NodeRecord(n, KindOf(x.gate), Some(x.name), |x.inputs|, if x.gate.CustomGate? then Some(x.gate.chip) else None)
  }

  /** The node list of the document: one entry per circuit node, in order. */
  function Entries(net: Net, nodes: seq<NodeId>): (r: seq<NodeRecord>)
    requires forall i | 0 <= i < |nodes| :: nodes[i] < |net.nodes|
    ensures |r| == |nodes| && forall i | 0 <= i < |r| :: r[i] == NodeEntry(net, nodes[i])
  {
    seq(|nodes|, i requires 0 <= i < |nodes| => NodeEntry(net, nodes[i]))
  }

  /** Loading a written entry back builds a node of the same class with the
      same name (and, for a custom gate, from the same chip), provided the
      chip is in the library and nesting may go one level deeper. */
  lemma EntryRebuilds(net: Net, n: NodeId, target: Net, lib: Library, depth: nat)
    requires n < |net.nodes|
    requires net.nodes[n].gate.CustomGate? ==> net.nodes[n].gate.chip != "" && net.nodes[n].gate.chip in lib && depth > 0
    ensures var o := Made(target, NodeEntry(net, n), lib, depth);
            && o.Some?
            && KindOf(o.value.0.nodes[o.value.1].gate) == KindOf(net.nodes[n].gate)
            && o.value.0.nodes[o.value.1].name == net.nodes[n].name
            && (net.nodes[n].gate.CustomGate? ==> o.value.0.nodes[o.value.1].gate.chip == net.nodes[n].gate.chip)
  {
    var r := NodeEntry(net, n);
    assert Builds(r, lib, depth);
  }

  // ---------------------------------------------------------------------
  // serialize: the wire list

  /** The key a wire is deduplicated by: the pin pair in ascending order,
      so that both directions of a connection have the same key. */
  function Key(p: (PinId, PinId)): (k: (PinId, PinId))
    ensures k.0 <= k.1 && (k == p || k == (p.1, p.0))
  {
    if p.0 <= p.1 then p else (p.1, p.0)
  }

  /** The (input pin, peer) pairs the wire loop visits for input pin `p`. */
  function PinPairs(p: PinId, cs: seq<PinId>): (r: seq<(PinId, PinId)>)
    ensures |r| == |cs| && forall i | 0 <= i < |r| :: r[i] == (p, cs[i])
  {
    seq(|cs|, i requires 0 <= i < |cs| => (p, cs[i]))
  }

  /** The pairs visited for the input pins `ins` of one node, in order. */
  function InputPairs(pins: seq<Pin>, ins: seq<PinId>): seq<(PinId, PinId)>
    requires forall i | 0 <= i < |ins| :: ins[i] < |pins|
    decreases |ins|
  {
    if ins == [] then []
    else
      var p := ins[|ins| - 1];
      InputPairs(pins, ins[..|ins| - 1]) + PinPairs(p, pins[p].connections)
  }

  /** Every input pin of every node exists. */
  ghost predicate InputsExist(net: Net) {
    forall n, i | 0 <= n < |net.nodes| && 0 <= i < |net.nodes[n].inputs| :: net.nodes[n].inputs[i] < |net.pins|
  }

  /** The pairs visited for the circuit nodes `nodes`, in order. */
  function Candidates(net: Net, nodes: seq<NodeId>): seq<(PinId, PinId)>
    requires InputsExist(net) && forall i | 0 <= i < |nodes| :: nodes[i] < |net.nodes|
    decreases |nodes|
  {
    if nodes == [] then []
    else
      var n := nodes[|nodes| - 1];
      assert forall i | 0 <= i < |net.nodes[n].inputs| :: net.nodes[n].inputs[i] < |net.pins|;
      Candidates(net, nodes[..|nodes| - 1]) + InputPairs(net.pins, net.nodes[n].inputs)
  }

  /** The state of the wire loop: the keys seen and the pairs written, each
      as (input pin, peer). */
  datatype Seen = Seen(visited: set<(PinId, PinId)>, emitted: seq<(PinId, PinId)>)

  /** One visit: a pair whose key is new is written and its key recorded. */
  function Visit(s: Seen, q: (PinId, PinId)): Seen {
    if Key(q) in s.visited then s else Seen(s.visited + {Key(q)}, s.emitted + [q])
  }

  /** The wire loop from state `s` over the pairs `qs`. */
  function Scan(s: Seen, qs: seq<(PinId, PinId)>): Seen
    decreases |qs|
  {
    if qs == [] then s else Visit(Scan(s, qs[..|qs| - 1]), qs[|qs| - 1])
  }

  /** Visiting two runs of pairs one after the other is visiting the whole
      run. */
  lemma {:induction false} ScanAppend(s: Seen, a: seq<(PinId, PinId)>, b: seq<(PinId, PinId)>)
    ensures Scan(s, a + b) == Scan(Scan(s, a), b)
    decreases |b|
  {
    if b == [] {
      assert a + b == a;
    } else {
      var init := b[..|b| - 1];
      ScanAppend(s, a, init);
      assert (a + b)[..|a + b| - 1] == a + init;
    }
  }

  /** The keys of the pairs written. */
  function KeysOf(e: seq<(PinId, PinId)>): set<(PinId, PinId)>
    decreases |e|
  {
    if e == [] then {} else KeysOf(e[..|e| - 1]) + {Key(e[|e| - 1])}
  }

  /** A key is recorded exactly when some written pair has it. */
  lemma {:induction false} KeysOfMeaning(e: seq<(PinId, PinId)>, k: (PinId, PinId))
    ensures k in KeysOf(e) <==> exists j | 0 <= j < |e| :: Key(e[j]) == k
    decreases |e|
  {
    if e != [] {
      var init := e[..|e| - 1];
      KeysOfMeaning(init, k);
      if k in KeysOf(init) {
        var j :| 0 <= j < |init| && Key(init[j]) == k;
        assert Key(e[j]) == k;
      }
      if exists j | 0 <= j < |e| :: Key(e[j]) == k {
        var j :| 0 <= j < |e| && Key(e[j]) == k;
        if j < |init| { assert Key(init[j]) == k; }
      }
    }
  }

  /** The recorded keys are those of the written pairs, and no two written
      pairs share a key. */
  ghost predicate Coherent(s: Seen) {
    && s.visited == KeysOf(s.emitted)
    && forall i, j | 0 <= i < j < |s.emitted| :: Key(s.emitted[i]) != Key(s.emitted[j])
  }

  /** What the wire loop promises: it stays coherent, writes only visited
      pairs (after the ones already written), and records the key of every
      pair it visits. */
  lemma {:induction false} ScanKeeps(s: Seen, qs: seq<(PinId, PinId)>)
    requires Coherent(s)
    ensures var r := Scan(s, qs);
            && Coherent(r)
            && |s.emitted| <= |r.emitted| && r.emitted[..|s.emitted|] == s.emitted
            && (forall j | |s.emitted| <= j < |r.emitted| :: r.emitted[j] in qs)
            && (forall i | 0 <= i < |qs| :: Key(qs[i]) in r.visited)
            && s.visited <= r.visited
    decreases |qs|
  {
    if qs != [] {
      var init, q := qs[..|qs| - 1], qs[|qs| - 1];
      ScanKeeps(s, init);
      var t := Scan(s, init);
      var r := Visit(t, q);
      VisitKeeps(t, q);
      assert r.emitted[..|s.emitted|] == t.emitted[..|s.emitted|];
      forall j | |s.emitted| <= j < |r.emitted| ensures r.emitted[j] in qs {
        if j < |t.emitted| {
          assert r.emitted[j] == t.emitted[j];
          assert t.emitted[j] in init;
        }
      }
      forall i | 0 <= i < |qs| ensures Key(qs[i]) in r.visited {
        if i < |init| { assert Key(init[i]) in t.visited; }
      }
    }
  }

  /** One visit keeps the state coherent, extends the written pairs by at
      most the visited one, and records its key. */
  lemma VisitKeeps(t: Seen, q: (PinId, PinId))
    requires Coherent(t)
    ensures var r := Visit(t, q);
            && Coherent(r)
            && (r.emitted == t.emitted || r.emitted == t.emitted + [q])
            && Key(q) in r.visited && t.visited <= r.visited
  {
    var r := Visit(t, q);
    if Key(q) !in t.visited {
      forall i, j | 0 <= i < j < |r.emitted| ensures Key(r.emitted[i]) != Key(r.emitted[j]) {
        if j == |t.emitted| {
          assert r.emitted[i] == t.emitted[i];
          KeysOfMeaning(t.emitted, Key(q));
        } else {
          assert r.emitted[i] == t.emitted[i] && r.emitted[j] == t.emitted[j];
        }
      }
      assert r.emitted[..|r.emitted| - 1] == t.emitted;
    }
  }

  /** The record written for the pair (input pin `p`, peer `c`): from the
      peer's node and position to the input pin's. */
  function WireEntry(pins: seq<Pin>, q: (PinId, PinId)): WireRecord
    requires q.0 < |pins| && q.1 < |pins|
  {
    WireRecord(pins[q.1].node, pins[q.1].index, pins[q.0].node, pins[q.0].index)
  }

  /** The records of the written pairs. */
  function Records(pins: seq<Pin>, e: seq<(PinId, PinId)>): (r: seq<WireRecord>)
    requires forall j | 0 <= j < |e| :: e[j].0 < |pins| && e[j].1 < |pins|
    ensures |r| == |e| && forall j | 0 <= j < |e| :: r[j] == WireEntry(pins, e[j])
  {
    seq(|e|, j requires 0 <= j < |e| => WireEntry(pins, e[j]))
  }

  /** The written pairs name existing pins. */
  ghost predicate Ranged(pins: seq<Pin>, e: seq<(PinId, PinId)>) {
    forall j | 0 <= j < |e| :: e[j].0 < |pins| && e[j].1 < |pins|
  }

  lemma OwnedInputs(net: Net)
    requires Owned(net)
    ensures InputsExist(net)
  {
    forall n, i | 0 <= n < |net.nodes| && 0 <= i < |net.nodes[n].inputs| ensures net.nodes[n].inputs[i] < |net.pins| {
      assert Slot(net, n, Input, i);
    }
  }

  /** A pair is visited for pins `ins` exactly when its first pin is one of
      them and its second a peer of the first. */
  lemma {:induction false} InputPairsMeaning(pins: seq<Pin>, ins: seq<PinId>, q: (PinId, PinId))
    requires forall i | 0 <= i < |ins| :: ins[i] < |pins|
    ensures q in InputPairs(pins, ins) <==> q.0 in ins && q.0 < |pins| && q.1 in pins[q.0].connections
    decreases |ins|
  {
    if ins != [] {
      var init, p := ins[..|ins| - 1], ins[|ins| - 1];
      assert ins == init + [p];
      InputPairsMeaning(pins, init, q);
      var cs := pins[p].connections;
      assert q in PinPairs(p, cs) <==> q.0 == p && q.1 in cs by {
        if q.0 == p && q.1 in cs {
          var k :| 0 <= k < |cs| && cs[k] == q.1;
          assert PinPairs(p, cs)[k] == q;
        }
      }
    }
  }

  /** A pair is visited for the nodes `nodes` exactly when its first pin is
      an input pin listed by one of them and its second a peer of the
      first. */
  lemma {:induction false} CandidatesMeaning(net: Net, nodes: seq<NodeId>, q: (PinId, PinId))
    requires InputsExist(net) && forall i | 0 <= i < |nodes| :: nodes[i] < |net.nodes|
    ensures q in Candidates(net, nodes) <==>
              exists i | 0 <= i < |nodes| :: q.0 in net.nodes[nodes[i]].inputs && q.0 < |net.pins| && q.1 in net.pins[q.0].connections
    decreases |nodes|
  {
    if nodes != [] {
      var init, n := nodes[..|nodes| - 1], nodes[|nodes| - 1];
      CandidatesMeaning(net, init, q);
      InputPairsMeaning(net.pins, net.nodes[n].inputs, q);
      if exists i | 0 <= i < |init| :: q.0 in net.nodes[init[i]].inputs && q.0 < |net.pins| && q.1 in net.pins[q.0].connections {
        var i :| 0 <= i < |init| && q.0 in net.nodes[init[i]].inputs && q.0 < |net.pins| && q.1 in net.pins[q.0].connections;
        assert nodes[i] == init[i];
      }
      if exists i | 0 <= i < |nodes| :: q.0 in net.nodes[nodes[i]].inputs && q.0 < |net.pins| && q.1 in net.pins[q.0].connections {
        var i :| 0 <= i < |nodes| && q.0 in net.nodes[nodes[i]].inputs && q.0 < |net.pins| && q.1 in net.pins[q.0].connections;
        if i < |init| { assert init[i] == nodes[i]; }
      }
    }
  }

  /** In a well-formed arena the visited pairs are the connections of the
      input pins of circuit nodes. */
  lemma CandidatesOwned(net: Net, nodes: seq<NodeId>, q: (PinId, PinId))
    requires Owned(net) && forall i | 0 <= i < |nodes| :: nodes[i] < |net.nodes|
    ensures InputsExist(net)
    ensures q in Candidates(net, nodes) <==>
              q.0 < |net.pins| && net.pins[q.0].kind == Input && net.pins[q.0].node in nodes && q.1 in net.pins[q.0].connections
  {
    OwnedInputs(net);
    CandidatesMeaning(net, nodes, q);
    if q in Candidates(net, nodes) {
      var i :| 0 <= i < |nodes| && q.0 in net.nodes[nodes[i]].inputs && q.0 < |net.pins| && q.1 in net.pins[q.0].connections;
      PinsOf(net, nodes[i]);
      var k :| 0 <= k < |net.nodes[nodes[i]].inputs| && net.nodes[nodes[i]].inputs[k] == q.0;
    }
    if q.0 < |net.pins| && net.pins[q.0].kind == Input && net.pins[q.0].node in nodes && q.1 in net.pins[q.0].connections {
      assert PinHome(net, q.0);
      var i :| 0 <= i < |nodes| && nodes[i] == net.pins[q.0].node;
      assert q.0 in net.nodes[nodes[i]].inputs;
    }
  }

  /** The pairs the wire loop writes for the circuit nodes `nodes`. */
  function Written(net: Net, nodes: seq<NodeId>): (e: seq<(PinId, PinId)>)
    requires Valid(net) && forall i | 0 <= i < |nodes| :: nodes[i] < |net.nodes|
    ensures InputsExist(net) && Ranged(net.pins, e)
  {
    OwnedInputs(net);
    var qs := Candidates(net, nodes);
    var e := Scan(Seen({}, []), qs).emitted;
    ScanKeeps(Seen({}, []), qs);
    assert Ranged(net.pins, e) by {
      forall j | 0 <= j < |e| ensures e[j].0 < |net.pins| && e[j].1 < |net.pins| {
        CandidatesOwned(net, nodes, e[j]);
        assert PeerOk(net.pins, e[j].0);
      }
    }
    e
  }

  /** Every written pair is a connection of an input pin of a circuit
      node. */
  lemma WrittenSound(net: Net, nodes: seq<NodeId>)
    requires Valid(net) && forall i | 0 <= i < |nodes| :: nodes[i] < |net.nodes|
    ensures var e := Written(net, nodes);
            forall j | 0 <= j < |e| ::
              net.pins[e[j].0].kind == Input && net.pins[e[j].0].node in nodes && e[j].1 in net.pins[e[j].0].connections
  {
    OwnedInputs(net);
    var qs := Candidates(net, nodes);
    var e := Written(net, nodes);
    ScanKeeps(Seen({}, []), qs);
    forall j | 0 <= j < |e|
      ensures net.pins[e[j].0].kind == Input && net.pins[e[j].0].node in nodes && e[j].1 in net.pins[e[j].0].connections
    {
      CandidatesOwned(net, nodes, e[j]);
    }
  }

  /** Every connection of an input pin of a circuit node is written, in its
      own direction (input pin first): the reverse pair is never visited,
      since only input pins are scanned and every connection joins an input
      to an output. */
  lemma WrittenComplete(net: Net, nodes: seq<NodeId>, p: PinId, c: PinId)
    requires Valid(net) && Directed(net.pins) && forall i | 0 <= i < |nodes| :: nodes[i] < |net.nodes|
    requires p < |net.pins| && net.pins[p].kind == Input && net.pins[p].node in nodes && c in net.pins[p].connections
    ensures (p, c) in Written(net, nodes)
  {
    OwnedInputs(net);
    var qs := Candidates(net, nodes);
    var e := Written(net, nodes);
    ScanKeeps(Seen({}, []), qs);
    CandidatesOwned(net, nodes, (p, c));
    var i :| 0 <= i < |qs| && qs[i] == (p, c);
    assert Key((p, c)) in KeysOf(e);
    KeysOfMeaning(e, Key((p, c)));
    var j :| 0 <= j < |e| && Key(e[j]) == Key((p, c));
    assert e[j] == (p, c) by {
      CandidatesOwned(net, nodes, e[j]);
      assert DirOk(net.pins, p);
    }
  }

  /** No pair is written twice. */
  lemma WrittenOnce(net: Net, nodes: seq<NodeId>)
    requires Valid(net) && forall i | 0 <= i < |nodes| :: nodes[i] < |net.nodes|
    ensures var e := Written(net, nodes); forall i, j | 0 <= i < j < |e| :: e[i] != e[j]
  {
    OwnedInputs(net);
    ScanKeeps(Seen({}, []), Candidates(net, nodes));
  }

  /** What serialize's wire list holds, for a well-formed directed arena:
      one record per connection of an input pin of a circuit node, and
      nothing else. */
  lemma SerializedWires(net: Net, nodes: seq<NodeId>)
    requires Valid(net) && Directed(net.pins) && forall i | 0 <= i < |nodes| :: nodes[i] < |net.nodes|
    ensures var e := Written(net, nodes);
            && (forall j | 0 <= j < |e| ::
                  net.pins[e[j].0].kind == Input && net.pins[e[j].0].node in nodes && e[j].1 in net.pins[e[j].0].connections)
            && (forall p, c | 0 <= p < |net.pins| && net.pins[p].kind == Input && net.pins[p].node in nodes && c in net.pins[p].connections ::
                  (p, c) in e)
            && (forall i, j | 0 <= i < j < |e| :: e[i] != e[j])
  {
    WrittenSound(net, nodes);
    WrittenOnce(net, nodes);
    forall p, c | 0 <= p < |net.pins| && net.pins[p].kind == Input && net.pins[p].node in nodes && c in net.pins[p].connections
      ensures (p, c) in Written(net, nodes)
    {
      WrittenComplete(net, nodes, p, c);
    }
  }

  /** The innermost loop of serialize: the peers of input pin `p`. */
  method ScanPin(pins: seq<Pin>, p: PinId, visited: set<(PinId, PinId)>, wires: seq<WireRecord>, ghost s: Seen)
      returns (visited': set<(PinId, PinId)>, wires': seq<WireRecord>, ghost s': Seen)
    requires p < |pins| && forall j | 0 <= j < |pins[p].connections| :: pins[p].connections[j] < |pins|
    requires visited == s.visited && Ranged(pins, s.emitted) && wires == Records(pins, s.emitted)
    ensures s' == Scan(s, PinPairs(p, pins[p].connections))
    ensures visited' == s'.visited && Ranged(pins, s'.emitted) && wires' == Records(pins, s'.emitted)
  {
    var cs := pins[p].connections;
    ghost var qs := PinPairs(p, cs);
    visited', wires', s' := visited, wires, s;
    var k := 0;
    while k < |cs|
      invariant 0 <= k <= |cs|
      invariant s' == Scan(s, qs[..k])
      invariant visited' == s'.visited && Ranged(pins, s'.emitted) && wires' == Records(pins, s'.emitted)
    {
      var key := Key((p, cs[k]));
      if key !in visited' {
        visited' := visited' + {key};
        wires' := wires' + [WireEntry(pins, (p, cs[k]))];
      }
      assert qs[..k + 1][..k] == qs[..k];
      s' := Visit(s', (p, cs[k]));
      k := k + 1;
    }
    assert qs[..k] == qs;
  }


  /** Every peer of a pin in a symmetric wiring is a pin. */
  lemma PeersRanged(pins: seq<Pin>, p: PinId)
    requires p < |pins| && Linked(pins)
    ensures forall k | 0 <= k < |pins[p].connections| :: pins[p].connections[k] < |pins|
  {
    assert PeerOk(pins, p);
    forall k | 0 <= k < |pins[p].connections| ensures pins[p].connections[k] < |pins| {
      assert pins[p].connections[k] in pins[p].connections;
    }
  }

  /** The pairs of one more input pin follow those of the pins before it. */
  lemma InputPairsNext(pins: seq<Pin>, ins: seq<PinId>, j: nat)
    requires j < |ins| && forall i | 0 <= i < |ins| :: ins[i] < |pins|
    ensures InputPairs(pins, ins[..j + 1]) == InputPairs(pins, ins[..j]) + PinPairs(ins[j], pins[ins[j]].connections)
  {
    assert ins[..j + 1][..j] == ins[..j];
  }
  /** The middle loop of serialize: the input pins of node `n`. */
  method ScanNode(net: Net, n: NodeId, visited: set<(PinId, PinId)>, wires: seq<WireRecord>, ghost s: Seen)
      returns (visited': set<(PinId, PinId)>, wires': seq<WireRecord>, ghost s': Seen)
    requires Valid(net) && n < |net.nodes|
    requires visited == s.visited && Ranged(net.pins, s.emitted) && wires == Records(net.pins, s.emitted)
    ensures InputsExist(net)
    ensures s' == Scan(s, InputPairs(net.pins, net.nodes[n].inputs))
    ensures visited' == s'.visited && Ranged(net.pins, s'.emitted) && wires' == Records(net.pins, s'.emitted)
  {
    OwnedInputs(net);
    var ins := net.nodes[n].inputs;
    visited', wires', s' := visited, wires, s;
    var j := 0;
    while j < |ins|
      invariant 0 <= j <= |ins|
      invariant s' == Scan(s, InputPairs(net.pins, ins[..j]))
      invariant visited' == s'.visited && Ranged(net.pins, s'.emitted) && wires' == Records(net.pins, s'.emitted)
    {
      var p := ins[j];
      PeersRanged(net.pins, p);
      InputPairsNext(net.pins, ins, j);
      ScanAppend(s, InputPairs(net.pins, ins[..j]), PinPairs(p, net.pins[p].connections));
      visited', wires', s' := ScanPin(net.pins, p, visited', wires', s');
      j := j + 1;
    }
    assert ins[..j] == ins;
  }

  /** serialize, positions aside: one entry per circuit node in order, then
      the wire list the scan of the input pins writes (`SerializedWires`
      says what it holds); no pin names. */
  method Serialize(c: Circuit) returns (doc: Document)
    requires c.Inv()
    ensures doc.nodes == Entries(c.net, c.nodes)
    ensures doc.wires == Records(c.net.pins, Written(c.net, c.nodes))
    ensures doc.inputNames == [] && doc.outputNames == []
  {
    var entries: seq<NodeRecord> := [];
    var i := 0;
    while i < |c.nodes|
      invariant 0 <= i <= |c.nodes|
      invariant entries == Entries(c.net, c.nodes[..i])
    {
      entries := entries + [NodeEntry(c.net, c.nodes[i])];
      i := i + 1;
    }
    assert c.nodes[..i] == c.nodes;
    OwnedInputs(c.net);
    var visited: set<(PinId, PinId)> := {};
    var wires: seq<WireRecord> := [];
    ghost var s := Seen({}, []);
    i := 0;
    while i < |c.nodes|
      invariant 0 <= i <= |c.nodes|
      invariant s == Scan(Seen({}, []), Candidates(c.net, c.nodes[..i]))
      invariant visited == s.visited && Ranged(c.net.pins, s.emitted) && wires == Records(c.net.pins, s.emitted)
    {
      var n := c.nodes[i];
      assert c.nodes[..i + 1][..i] == c.nodes[..i];
      ScanAppend(Seen({}, []), Candidates(c.net, c.nodes[..i]), InputPairs(c.net.pins, c.net.nodes[n].inputs));
      visited, wires, s := ScanNode(c.net, n, visited, wires, s);
      i := i + 1;
    }
    assert c.nodes[..i] == c.nodes;
    doc := Document(entries, wires, [], []);
  }

  // ---------------------------------------------------------------------
  // deserialize

  /** One pass of the node loop of deserialize: the node the record
      selects, if any, joins the arena and the circuit and is recorded
      under the record's id. */
  method PlaceNode(c: Circuit, r: NodeRecord, lib: Library, depth: nat, ids: map<nat, NodeId>)
      returns (ids': map<nat, NodeId>)
    requires c.Inv()
    modifies c
    ensures c.Inv() && c.wires == old(c.wires)
    ensures Made(old(c.net), r, lib, depth).None? ==> c.net == old(c.net) && c.nodes == old(c.nodes) && ids' == ids
    ensures Made(old(c.net), r, lib, depth).Some? ==>
              var (b, n) := Made(old(c.net), r, lib, depth).value;
              c.net == b && c.nodes == old(c.nodes) + [n] && ids' == ids[r.id := n]
  {
    ids' := ids;
    var m := Made(c.net, r, lib, depth);
    if m.Some? {
      var (b, n) := m.value;
      MadeValid(c.net, r, lib, depth);
      MadeExtends(c.net, r, lib, depth);
      ExtendsDirected(c.net, b);
      c.net := b;
      c.AddNode(n);
      ids' := ids[r.id := n];
    }
  }

  /** One pass of the wire loop of deserialize: `circuit.connect` on the
      pins the record resolves to, if it resolves. */
  method ConnectWire(c: Circuit, w: WireRecord, ids: map<nat, NodeId>)
    requires c.Inv() && forall k | k in ids :: ids[k] < |c.net.nodes|
    modifies c
    ensures c.Inv() && c.net == Wired(old(c.net), w, ids) && c.nodes == old(c.nodes) && c.wires == old(c.wires)
  {
    var e := Ends(c.net, w, ids);
    if e.Some? {
      EndsMeaning(c.net, w, ids);
      c.Connect(e.value.0, e.value.1);
    }
  }

  /** One more record: the node loop after `recs[..i + 1]` is one pass of
      it after `recs[..i]`. */
  lemma PlacedStep(net: Net, recs: seq<NodeRecord>, i: nat, lib: Library, depth: nat)
    requires i < |recs|
    ensures var p, q := Placed(net, recs[..i], lib, depth), Placed(net, recs[..i + 1], lib, depth);
            var m := Made(p.0, recs[i], lib, depth);
            && (m.None? ==> q == p)
            && (m.Some? ==> q == (m.value.0, p.1 + [m.value.1], p.2[recs[i].id := m.value.1]))
  {
    assert recs[..i + 1][..i] == recs[..i];
  }

  /** The node loop of deserialize, on a cleared circuit. */
  method PlaceNodes(c: Circuit, recs: seq<NodeRecord>, lib: Library, depth: nat) returns (ids: map<nat, NodeId>)
    requires c.Inv() && c.nodes == [] && c.wires == []
    modifies c
    ensures c.Inv() && c.wires == []
    ensures (c.net, c.nodes, ids) == Placed(old(c.net), recs, lib, depth)
  {
    ids := map[];
    ghost var net0 := c.net;
    var i := 0;
    while i < |recs|
      invariant 0 <= i <= |recs|
      invariant c.Inv() && c.wires == []
      invariant (c.net, c.nodes, ids) == Placed(net0, recs[..i], lib, depth)
    {
      PlacedStep(net0, recs, i, lib, depth);
      ids := PlaceNode(c, recs[i], lib, depth, ids);
      i := i + 1;
    }
    assert recs[..i] == recs;
  }

  /** The wire loop of deserialize. */
  method ConnectWires(c: Circuit, ws: seq<WireRecord>, ids: map<nat, NodeId>)
    requires c.Inv() && forall k | k in ids :: ids[k] < |c.net.nodes|
    modifies c
    ensures c.Inv() && c.net == Connected(old(c.net), ws, ids) && c.nodes == old(c.nodes) && c.wires == old(c.wires)
  {
    var j := 0;
    while j < |ws|
      invariant 0 <= j <= |ws|
      invariant c.Inv() && c.nodes == old(c.nodes) && c.wires == old(c.wires)
      invariant c.net == Connected(old(c.net), ws[..j], ids)
    {
      assert ws[..j + 1][..j] == ws[..j];
      ConnectWire(c, ws[j], ids);
      j := j + 1;
    }
    assert ws[..j] == ws;
  }

  /** deserialize, scene aside: the circuit is cleared, then one node is
      added per record `Made` accepts, in order, and recorded under the
      record's id; then `circuit.connect` is called once per wire record
      that resolves (`Ends`). */
  method Deserialize(doc: Document, c: Circuit, lib: Library, depth: nat)
    requires c.Inv()
    modifies c
    ensures c.Inv() && c.wires == []
    ensures (c.net, c.nodes) == Restored(old(c.net), doc, lib, depth)
  {
    c.Clear();
    var ids := PlaceNodes(c, doc.nodes, lib, depth);
    PlacedExtends(old(c.net), doc.nodes, lib, depth);
    ConnectWires(c, doc.wires, ids);
  }

  // ---------------------------------------------------------------------
  // What the node loop keeps

  /** The records the node loop accepts, in order. */
  function Accepted(recs: seq<NodeRecord>, lib: Library, depth: nat): (acc: seq<NodeRecord>)
    ensures forall j | 0 <= j < |acc| :: Builds(acc[j], lib, depth)
    decreases |recs|
  {
    if recs == [] then []
    else
      var init, last := recs[..|recs| - 1], recs[|recs| - 1];
      Accepted(init, lib, depth) + (if Builds(last, lib, depth) then [last] else [])
  }

  /** The node loop adds one node per accepted record, in order, of the
      record's class and with the record's name when it has one. */
  lemma {:induction false} PlacedKept(net: Net, recs: seq<NodeRecord>, lib: Library, depth: nat)
    ensures var (b, ns, _) := Placed(net, recs, lib, depth);
            var acc := Accepted(recs, lib, depth);
            && |ns| == |acc| && (forall j | 0 <= j < |ns| :: ns[j] < |b.nodes|)
            && (forall j | 0 <= j < |acc| :: KindOf(b.nodes[ns[j]].gate) == acc[j].kind)
            && (forall j | 0 <= j < |acc| && acc[j].name.Some? :: b.nodes[ns[j]].name == acc[j].name.value)
    decreases |recs|
  {
    if recs != [] {
      var init, last := recs[..|recs| - 1], recs[|recs| - 1];
      PlacedKept(net, init, lib, depth);
      var (a, ns, ids) := Placed(net, init, lib, depth);
      var acc := Accepted(init, lib, depth);
      if Builds(last, lib, depth) {
        var (b, n) := Made(a, last, lib, depth).value;
        MadeExtends(a, last, lib, depth);
        var ns', acc' := ns + [n], acc + [last];
        forall j | 0 <= j < |acc'| ensures KindOf(b.nodes[ns'[j]].gate) == acc'[j].kind
          && (acc'[j].name.Some? ==> b.nodes[ns'[j]].name == acc'[j].name.value)
        {
          if j < |acc| {
            assert ns'[j] == ns[j] && acc'[j] == acc[j];
            assert b.nodes[ns[j]] == b.nodes[..|a.nodes|][ns[j]];
          }
        }
      }
    }
  }

  /** The id map against the accepted records and the nodes made from
      them: every record's id is a key, and each key maps to the node made
      from the last record carrying it. */
  ghost predicate IdsOk(acc: seq<NodeRecord>, ns: seq<NodeId>, ids: map<nat, NodeId>) {
    && |ns| == |acc|
    && (forall j | 0 <= j < |acc| :: acc[j].id in ids)
    && (forall k | k in ids :: exists j | 0 <= j < |acc| :: LastWith(acc, k, j) && ids[k] == ns[j])
  }

  /** Recording one more node keeps the id map right: the new record is
      the last one with its id. */
  lemma IdsStep(acc: seq<NodeRecord>, ns: seq<NodeId>, ids: map<nat, NodeId>, r: NodeRecord, n: NodeId)
    requires IdsOk(acc, ns, ids)
    ensures IdsOk(acc + [r], ns + [n], ids[r.id := n])
  {
    var ns', ids', acc' := ns + [n], ids[r.id := n], acc + [r];
    forall j | 0 <= j < |acc'| ensures acc'[j].id in ids' {
      if j < |acc| { assert acc'[j] == acc[j]; }
    }
    forall k | k in ids' ensures exists j | 0 <= j < |acc'| :: LastWith(acc', k, j) && ids'[k] == ns'[j] {
      if k == r.id {
        assert LastWith(acc', k, |acc|) && ids'[k] == ns'[|acc|];
      } else {
        var j :| 0 <= j < |acc| && LastWith(acc, k, j) && ids[k] == ns[j];
        assert acc'[j] == acc[j] && ns'[j] == ns[j];
        assert LastWith(acc', k, j);
      }
    }
  }

  /** The id map after the node loop. */
  lemma {:induction false} PlacedIds(net: Net, recs: seq<NodeRecord>, lib: Library, depth: nat)
    ensures IdsOk(Accepted(recs, lib, depth), Placed(net, recs, lib, depth).1, Placed(net, recs, lib, depth).2)
    decreases |recs|
  {
    if recs == [] {
      assert IdsOk([], [], map[]);
    } else {
      var init, last := recs[..|recs| - 1], recs[|recs| - 1];
      PlacedIds(net, init, lib, depth);
      var (a, ns, ids) := Placed(net, init, lib, depth);
      var acc := Accepted(init, lib, depth);
      if Builds(last, lib, depth) {
        var n := Made(a, last, lib, depth).value.1;
        assert Placed(net, recs, lib, depth).1 == ns + [n] && Placed(net, recs, lib, depth).2 == ids[last.id := n];
        assert Accepted(recs, lib, depth) == acc + [last];
        IdsStep(acc, ns, ids, last, n);
      } else {
        assert Placed(net, recs, lib, depth).1 == ns && Placed(net, recs, lib, depth).2 == ids;
        assert Accepted(recs, lib, depth) == acc;
      }
    }
  }

  /** Record `j` is the last one with id `k`. */
  ghost predicate LastWith(acc: seq<NodeRecord>, k: nat, j: nat) {
    j < |acc| && acc[j].id == k && forall j' | j < j' < |acc| :: acc[j'].id != k
  }

  /** Round trip of the node list: loading the entries serialize writes for
      a circuit builds, in order, one node per circuit node, of the same
      class and with the same name, provided every custom gate's chip is in
      the library and nesting may go one level deeper. */
  lemma RoundTripNodes(net: Net, nodes: seq<NodeId>, target: Net, wires: seq<WireRecord>, lib: Library, depth: nat)
    requires forall i | 0 <= i < |nodes| :: nodes[i] < |net.nodes|
    requires forall i | 0 <= i < |nodes| && net.nodes[nodes[i]].gate.CustomGate? ::
               net.nodes[nodes[i]].gate.chip != "" && net.nodes[nodes[i]].gate.chip in lib && depth > 0
    ensures var (b, ns) := Restored(target, Document(Entries(net, nodes), wires, [], []), lib, depth);
            && |ns| == |nodes|
            && forall j | 0 <= j < |nodes| ::
                 && ns[j] < |b.nodes|
                 && KindOf(b.nodes[ns[j]].gate) == KindOf(net.nodes[nodes[j]].gate)
                 && b.nodes[ns[j]].name == net.nodes[nodes[j]].name
  {
    var recs := Entries(net, nodes);
    AllAccepted(recs, lib, depth);
    PlacedKept(target, recs, lib, depth);
  }

  /** When every record builds, the node loop accepts all of them. */
  lemma {:induction false} AllAccepted(recs: seq<NodeRecord>, lib: Library, depth: nat)
    requires forall j | 0 <= j < |recs| :: Builds(recs[j], lib, depth)
    ensures Accepted(recs, lib, depth) == recs
    decreases |recs|
  {
    if recs != [] {
      AllAccepted(recs[..|recs| - 1], lib, depth);
    }
  }
}
