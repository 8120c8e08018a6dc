/** The discrete-event engine: a priority queue of node updates ordered by
    (time, sequence number), a simulation clock and a sequence counter.
    One pass of the run loop is the method `Engine.Step`. */
module Engine {
  import opened Netlist
  import opened Gates
  import opened Circuits

  /** A queue entry: the time it is due, the sequence number it was given,
      and the node to compute. */
  datatype Event = Event(time: nat, sequence: nat, node: NodeId)

  /** The queue's order: tuples compare by time, then by sequence number
      (the node is never compared, since sequence numbers are unique). */
  predicate Precedes(a: Event, b: Event) {
    a.time < b.time || (a.time == b.time && a.sequence <= b.sequence)
  }

  function Max(a: nat, b: nat): nat {
    if a >= b then a else b
  }

  /** The position of the entry a priority queue hands out first. */
  function Earliest(q: seq<Event>): (m: nat)
    requires q != []
    ensures m < |q| && forall i | 0 <= i < |q| :: Precedes(q[m], q[i])
    decreases |q|
  {
    if |q| == 1 then 0
    else
      var m := Earliest(q[1..]);
      assert forall i | 1 <= i < |q| :: q[i] == q[1..][i - 1];
      if Precedes(q[0], q[m + 1]) then 0 else m + 1
  }

  /** The queue with entry `m` taken out, the others in their order. */
  function Remove(q: seq<Event>, m: nat): (r: seq<Event>)
    requires m < |q|
    ensures |r| == |q| - 1
    ensures forall i | 0 <= i < |r| :: r[i] == if i < m then q[i] else q[i + 1]
  {
    seq(|q| - 1, i requires 0 <= i < |q| - 1 => if i < m then q[i] else q[i + 1])
  }

  /** Sequence numbers are unique, so at most one entry is least. */
  lemma {:induction false} EarliestUnique(q: seq<Event>, i: nat)
    requires q != [] && i < |q| && forall j | 0 <= j < |q| :: Precedes(q[i], q[j])
    requires Increasing(q)
    ensures i == Earliest(q)
  {
    var m := Earliest(q);
    assert Precedes(q[i], q[m]) && Precedes(q[m], q[i]);
    assert q[i].sequence == q[m].sequence;
  }

  /** Entries due at the same time leave in the order they were queued: an
      entry that is due no later than another and was queued before it
      precedes it. */
  lemma {:induction false} SameTimeFifo(q: seq<Event>, j: nat, k: nat)
    requires j < k < |q| && q[j].time == q[k].time
    requires Increasing(q)
    ensures Earliest(q) != k
  {
    var m := Earliest(q);
    assert Precedes(q[m], q[j]) && q[j].sequence < q[k].sequence;
  }

  // ---------------------------------------------------------------------
  // What one pass of the run loop queues

  /** The nodes of the input pins among `cs`, in list order: the peers of a
      changed output that get a new event. */
  function InputPeers(net: Net, cs: seq<PinId>): (r: seq<NodeId>)
    ensures |r| <= |cs|
    decreases |cs|
  {
    if cs == [] then []
    else
      var c := cs[|cs| - 1];
      InputPeers(net, cs[..|cs| - 1]) + (if c < |net.pins| && net.pins[c].kind == Input then [net.pins[c].node] else [])
  }

  /** One more pin in the list. */
  lemma InputPeersSnoc(net: Net, cs: seq<PinId>, c: PinId)
    ensures InputPeers(net, cs + [c]) ==
            InputPeers(net, cs) + (if c < |net.pins| && net.pins[c].kind == Input then [net.pins[c].node] else [])
  {
    assert (cs + [c])[..|cs|] == cs;
  }

  /** Every queued node owns an input pin among `cs`, and every input pin
      among `cs` has its node queued. */
  lemma {:induction false} InputPeersMeaning(net: Net, cs: seq<PinId>)
    requires forall c | c in cs :: c < |net.pins|
    ensures forall w | w in InputPeers(net, cs) ::
              exists c | c in cs :: net.pins[c].kind == Input && net.pins[c].node == w
    ensures forall c | c in cs && net.pins[c].kind == Input :: net.pins[c].node in InputPeers(net, cs)
    decreases |cs|
  {
    if cs != [] {
      var init, last := cs[..|cs| - 1], cs[|cs| - 1];
      assert cs == init + [last];
      assert forall q :: q in cs <==> q in init || q == last;
      InputPeersMeaning(net, init);
    }
  }

  /** The nodes queued for the first `k` outputs of the node just
      computed, in the order of the pass: an output whose value differs
      from its snapshot queues the nodes of its input peers.  `Spread`
      gives the pin values the pass has reached. */
  function Wake(net: Net, outs: seq<PinId>, snap: seq<LogicState>, k: nat): (r: seq<NodeId>)
    requires Linked(net.pins) && |snap| == |outs| && k <= |outs|
    requires forall j | 0 <= j < |outs| :: outs[j] < |net.pins|
    decreases k
  {
    if k == 0 then []
    else
      var m := Spread(net, outs, snap, k - 1).0;
      var p := outs[k - 1];
      WiringOf(net, m);
      assert PeerOk(m.pins, p);
      Wake(net, outs, snap, k - 1) + (if m.pins[p].value != snap[k - 1] then InputPeers(m, m.pins[p].connections) else [])
  }

  /** The events `queue_update(node, delay)` calls make for `nodes`, one
      after another, with the counter at `from`: due at `at`, numbered
      from + 1, from + 2, ... */
  function Scheduled(nodes: seq<NodeId>, at: nat, from: nat): (r: seq<Event>)
    ensures |r| == |nodes|
    decreases |nodes|
  {
    if nodes == [] then [] else [Event(at, from + 1, nodes[0])] + Scheduled(nodes[1..], at, from + 1)
  }

  /** Entry `i` of `Scheduled` is due at `at`, numbered from + i + 1. */
  lemma {:induction false} ScheduledAt(nodes: seq<NodeId>, at: nat, from: nat)
    ensures forall i | 0 <= i < |nodes| :: Scheduled(nodes, at, from)[i] == Event(at, from + i + 1, nodes[i])
    decreases |nodes|
  {
    if nodes != [] {
      ScheduledAt(nodes[1..], at, from + 1);
    }
  }

  /** Queuing two lists one after the other. */
  lemma {:induction false} ScheduledAppend(a: seq<NodeId>, b: seq<NodeId>, at: nat, from: nat)
    ensures Scheduled(a + b, at, from) == Scheduled(a, at, from) + Scheduled(b, at, from + |a|)
  {
    ScheduledAt(a + b, at, from);
    ScheduledAt(a, at, from);
    ScheduledAt(b, at, from + |a|);
    assert forall j | 0 <= j < |a + b| :: Scheduled(a + b, at, from)[j] == (Scheduled(a, at, from) + Scheduled(b, at, from + |a|))[j];
  }

  /** Queuing more events after those already queued. */
  lemma ScheduledMore(done: seq<NodeId>, more: seq<NodeId>, events: seq<Event>, evs: seq<Event>, at: nat, from: nat, sequence: nat)
    requires events == Scheduled(done, at, from) && sequence == from + |done|
    requires evs == Scheduled(more, at, sequence)
    ensures events + evs == Scheduled(done + more, at, from)
  {
    ScheduledAppend(done, more, at, from);
  }

  /** A list of events that agrees with `Scheduled` entry by entry is the
      one it gives. */
  lemma {:induction false} ScheduledIs(nodes: seq<NodeId>, at: nat, from: nat, events: seq<Event>)
    requires |events| == |nodes|
    requires forall i | 0 <= i < |events| :: events[i] == Event(at, from + i + 1, nodes[i])
    ensures events == Scheduled(nodes, at, from)
  {
    ScheduledAt(nodes, at, from);
  }

  /** A node whose outputs all keep their snapshot values neither changes
      a peer nor queues anything. */
  lemma {:induction false} QuietStep(net: Net, outs: seq<PinId>, snap: seq<LogicState>, k: nat)
    requires Linked(net.pins) && |snap| == |outs| && k <= |outs|
    requires forall j | 0 <= j < |outs| :: outs[j] < |net.pins| && net.pins[outs[j]].value == snap[j]
    ensures Spread(net, outs, snap, k) == (net, false)
    ensures Wake(net, outs, snap, k) == []
    decreases k
  {
    if k > 0 {
      QuietStep(net, outs, snap, k - 1);
    }
  }

  /** The nodes of the input peers of the first `k` outputs, output by
      output: every node a pass over those outputs can queue. */
  function FedBy(net: Net, outs: seq<PinId>, k: nat): (r: seq<NodeId>)
    requires k <= |outs| && forall j | 0 <= j < |outs| :: outs[j] < |net.pins|
    decreases k
  {
    if k == 0 then [] else FedBy(net, outs, k - 1) + InputPeers(net, net.pins[outs[k - 1]].connections)
  }

  /** A node in `InputPeers` comes with the input pin of the list that
      put it there. */
  lemma {:induction false} InputPeersWitness(net: Net, cs: seq<PinId>, w: NodeId) returns (c: PinId)
    requires w in InputPeers(net, cs)
    ensures c in cs && c < |net.pins| && net.pins[c].kind == Input && net.pins[c].node == w
    decreases |cs|
  {
    var init, last := cs[..|cs| - 1], cs[|cs| - 1];
    assert cs == init + [last];
    if w in InputPeers(net, init) {
      c := InputPeersWitness(net, init, w);
    } else {
      c := last;
    }
  }

  /** A node in `FedBy` comes with the output and the input peer that put
      it there. */
  lemma {:induction false} FedByWitness(net: Net, outs: seq<PinId>, k: nat, w: NodeId) returns (j: nat, c: PinId)
    requires k <= |outs| && forall j | 0 <= j < |outs| :: outs[j] < |net.pins|
    requires w in FedBy(net, outs, k)
    ensures j < k && c in net.pins[outs[j]].connections
    ensures c < |net.pins| && net.pins[c].kind == Input && net.pins[c].node == w
    decreases k
  {
    if w in FedBy(net, outs, k - 1) {
      j, c := FedByWitness(net, outs, k - 1, w);
    } else {
      j := k - 1;
      c := InputPeersWitness(net, net.pins[outs[j]].connections, w);
    }
  }

  /** Each node of `FedBy` owns an input pin that is a peer of one of the
      first `k` outputs. */
  lemma FedByMeaning(net: Net, outs: seq<PinId>, k: nat)
    requires k <= |outs| && forall j | 0 <= j < |outs| :: outs[j] < |net.pins|
    ensures forall w | w in FedBy(net, outs, k) ::
              exists j, c | 0 <= j < k && c in net.pins[outs[j]].connections ::
                c < |net.pins| && net.pins[c].kind == Input && net.pins[c].node == w
  {
    forall w | w in FedBy(net, outs, k)
      ensures exists j, c | 0 <= j < k && c in net.pins[outs[j]].connections ::
                c < |net.pins| && net.pins[c].kind == Input && net.pins[c].node == w
    {
      var j, c := FedByWitness(net, outs, k, w);
    }
  }

  /** Pins that agree on everything but their values give the same input
      peers. */
  lemma {:induction false} InputPeersWiring(a: Net, b: Net, cs: seq<PinId>)
    requires |a.pins| == |b.pins|
    requires forall q | 0 <= q < |a.pins| :: a.pins[q].(value := Undefined) == b.pins[q].(value := Undefined)
    ensures InputPeers(a, cs) == InputPeers(b, cs)
    decreases |cs|
  {
    if cs != [] {
      var c := cs[|cs| - 1];
      InputPeersWiring(a, b, cs[..|cs| - 1]);
      if c < |a.pins| {
        assert a.pins[c].(value := Undefined) == b.pins[c].(value := Undefined);
      }
    }
  }

  /** Every node the pass queues is in `FedBy` (peers and kinds are those
      before the pass, since propagation changes only values). */
  lemma {:induction false} WakeFromPeers(net: Net, outs: seq<PinId>, snap: seq<LogicState>, k: nat)
    requires Linked(net.pins) && |snap| == |outs| && k <= |outs|
    requires forall j | 0 <= j < |outs| :: outs[j] < |net.pins|
    ensures forall w | w in Wake(net, outs, snap, k) :: w in FedBy(net, outs, k)
    decreases k
  {
    if k > 0 {
      var i := k - 1;
      WakeFromPeers(net, outs, snap, i);
      var prev := Wake(net, outs, snap, i);
      var m := Spread(net, outs, snap, i).0;
      var p := outs[i];
      NotifyStep(net, outs, snap, i);
      WiringPins(net, m);
      var cs := net.pins[p].connections;
      assert m.pins[p].connections == cs;
      InputPeersWiring(m, net, cs);
      var added := if m.pins[p].value != snap[i] then InputPeers(net, cs) else [];
      assert Wake(net, outs, snap, k) == prev + added;
      assert FedBy(net, outs, k) == FedBy(net, outs, i) + InputPeers(net, cs);
    }
  }

  /** The arena after one pass of the run loop on node `n`: the node is
      computed, then each output whose value differs from its value before
      the compute is copied to all its peers. */
  function Propagated(net: Net, n: NodeId): (r: Net)
    requires Valid(net) && n < |net.nodes|
    ensures Erase(r) == Erase(net) && Valid(r) && |r.nodes| == |net.nodes|
    ensures Directed(net.pins) ==> Directed(r.pins)
  {
    PinsOf(net, n);
    var outs := net.nodes[n].outputs;
    var c := Fire(net, n);
    WiringOf(net, c);
    var r := Spread(c, outs, Values(net, outs), |outs|).0;
    ValidTransfer(net, r);
    assert Directed(net.pins) ==> Directed(r.pins) by {
      if Directed(net.pins) { DirectedTransfer(net, r); }
    }
    r
  }

  /** The nodes queued by one pass of the run loop on node `n`, in the
      order of the pass.  Each is fed by an output of `n` (see
      `WokenFromPeers`). */
  function Woken(net: Net, n: NodeId): (r: seq<NodeId>)
    requires Valid(net) && n < |net.nodes|
    ensures NodePins(net, n)
    ensures forall w | w in r :: w < |net.nodes|
    ensures forall w | w in r :: w in FedBy(net, net.nodes[n].outputs, |net.nodes[n].outputs|)
  {
    PinsOf(net, n);
    var outs := net.nodes[n].outputs;
    var c := Fire(net, n);
    WiringPins(net, c);
    var r := Wake(c, outs, Values(net, outs), |outs|);
    WakeFromPeers(c, outs, Values(net, outs), |outs|);
    FedByWiring(c, net, outs, |outs|);
    FedByNodes(net, outs, |outs|);
    r
  }

  /** Every node a pass on `n` queues owns an input pin wired to an output
      of `n`. */
  lemma WokenFromPeers(net: Net, n: NodeId)
    requires Valid(net) && n < |net.nodes|
    ensures NodePins(net, n)
    ensures forall w | w in Woken(net, n) ::
              exists j, c | 0 <= j < |net.nodes[n].outputs| && c in net.pins[net.nodes[n].outputs[j]].connections ::
                c < |net.pins| && net.pins[c].kind == Input && net.pins[c].node == w
  {
    PinsOf(net, n);
    FedByMeaning(net, net.nodes[n].outputs, |net.nodes[n].outputs|);
  }

  /** Every node of `FedBy` is a node of the arena. */
  lemma FedByNodes(net: Net, outs: seq<PinId>, k: nat)
    requires Owned(net) && k <= |outs| && forall j | 0 <= j < |outs| :: outs[j] < |net.pins|
    ensures forall w | w in FedBy(net, outs, k) :: w < |net.nodes|
  {
    forall w | w in FedBy(net, outs, k) ensures w < |net.nodes| {
      var j, d := FedByWitness(net, outs, k, w);
      assert PinHome(net, d);
    }
  }

  /** Arenas with the same wiring feed the same nodes. */
  lemma {:induction false} FedByWiring(a: Net, b: Net, outs: seq<PinId>, k: nat)
    requires |a.pins| == |b.pins| && k <= |outs| && forall j | 0 <= j < |outs| :: outs[j] < |a.pins|
    requires forall q | 0 <= q < |a.pins| :: a.pins[q].(value := Undefined) == b.pins[q].(value := Undefined)
    ensures FedBy(a, outs, k) == FedBy(b, outs, k)
    decreases k
  {
    if k > 0 {
      FedByWiring(a, b, outs, k - 1);
      var p := outs[k - 1];
      assert a.pins[p].(value := Undefined) == b.pins[p].(value := Undefined);
      InputPeersWiring(a, b, a.pins[p].connections);
    }
  }

  /** Running a node whose compute changes none of its outputs queues
      nothing and leaves the arena as the compute left it. */
  lemma QuietPass(net: Net, n: NodeId)
    requires Valid(net) && n < |net.nodes|
    requires NodePins(net, n) && |Fire(net, n).pins| == |net.pins|
    requires forall j | 0 <= j < |net.nodes[n].outputs| ::
               Fire(net, n).pins[net.nodes[n].outputs[j]].value == net.pins[net.nodes[n].outputs[j]].value
    ensures Propagated(net, n) == Fire(net, n) && Woken(net, n) == []
  {
    PinsOf(net, n);
    var outs := net.nodes[n].outputs;
    var c := Fire(net, n);
    WiringOf(net, c);
    QuietStep(c, outs, Values(net, outs), |outs|);
  }

  /** The peers of one changed output: each is set to the output's value,
      and each that is an input pin has its node queued, due at `at`. */
  method Fan(net: Net, p: PinId, at: nat, sequence0: nat) returns (r: Net, events: seq<Event>, sequence: nat)
    requires p < |net.pins| && PeerOk(net.pins, p)
    ensures r == SetAll(net, net.pins[p].connections, net.pins[p].value)
    ensures events == Scheduled(InputPeers(net, net.pins[p].connections), at, sequence0)
    ensures sequence == sequence0 + |events|
  {
    var cs := net.pins[p].connections;
    r, events, sequence := net, [], sequence0;
    ghost var woken: seq<NodeId> := [];
    for j := 0 to |cs|
      invariant FanSoFar(net, p, at, sequence0, j, r, events, sequence, woken)
    {
      r, events, sequence, woken := FanOne(net, p, at, sequence0, j, r, events, sequence, woken);
    }
    assert cs[..|cs|] == cs;
    ScheduledIs(woken, at, sequence0, events);
  }

  /** The loop invariant of `Fan` after the first `j` peers: they hold the
      pin's value, and the inputs among them, in order, are `woken`, each
      with one event numbered on from `sequence0`. */
  ghost predicate FanSoFar(net: Net, p: PinId, at: nat, sequence0: nat, j: nat,
                           r: Net, events: seq<Event>, sequence: nat, woken: seq<NodeId>)
    requires p < |net.pins| && PeerOk(net.pins, p)
  {
    && j <= |net.pins[p].connections|
    && (forall d | d in net.pins[p].connections[..j] :: d < |net.pins|)
    && r == SetAll(net, net.pins[p].connections[..j], net.pins[p].value)
    && woken == InputPeers(net, net.pins[p].connections[..j])
    && |events| == |woken| && sequence == sequence0 + |events|
    && (forall i | 0 <= i < |events| :: events[i] == Event(at, sequence0 + i + 1, woken[i]))
  }

  /** One iteration of the loop of `Fan`: peer `j` takes the value and, if
      it is an input, its node is scheduled. */
  method FanOne(net: Net, p: PinId, at: nat, sequence0: nat, j: nat,
                r0: Net, events0: seq<Event>, sequence1: nat, ghost woken0: seq<NodeId>)
    returns (r: Net, events: seq<Event>, sequence: nat, ghost woken: seq<NodeId>)
    requires p < |net.pins| && PeerOk(net.pins, p) && j < |net.pins[p].connections|
    requires FanSoFar(net, p, at, sequence0, j, r0, events0, sequence1, woken0)
    ensures FanSoFar(net, p, at, sequence0, j + 1, r, events, sequence, woken)
  {
    var cs := net.pins[p].connections;
    var done := cs[..j];
    var c := cs[j];
    assert cs[..j + 1] == done + [c];
    assert c < |net.pins| && c != p by { assert c in cs; }
    var v := r0.pins[p].value;
    assert v == net.pins[p].value by { assert p !in done; }
    r := SetValue(r0, c, v);
    assert r == SetAll(net, done + [c], v) && r.pins[c].kind == net.pins[c].kind && r.pins[c].node == net.pins[c].node by {
      assert (done + [c])[..|done|] == done;
    }
    InputPeersSnoc(net, done, c);
    events, sequence, woken := events0, sequence1, woken0;
    if r.pins[c].kind == Input {
      woken := woken + [r.pins[c].node];
      sequence := sequence + 1;
      events := events + [Event(at, sequence, r.pins[c].node)];
    }
    assert woken == InputPeers(net, cs[..j + 1]);
    assert forall i | 0 <= i < |events| :: events[i] == Event(at, sequence0 + i + 1, woken[i]);
  }

  /** The propagation part of a pass of the run loop, after the node's
      compute: each output whose value differs from its snapshot is fanned
      out to its peers, with delay 1 after `now`. */
  method Notify(net: Net, outs: seq<PinId>, snap: seq<LogicState>, now: nat, sequence0: nat)
    returns (r: Net, events: seq<Event>, sequence: nat)
    requires Linked(net.pins) && |snap| == |outs|
    requires forall j | 0 <= j < |outs| :: outs[j] < |net.pins|
    ensures r == Spread(net, outs, snap, |outs|).0
    ensures events == Scheduled(Wake(net, outs, snap, |outs|), now + 1, sequence0)
    ensures sequence == sequence0 + |events|
  {
    r, events, sequence := net, [], sequence0;
    for k := 0 to |outs|
      invariant r == Spread(net, outs, snap, k).0
      invariant events == Scheduled(Wake(net, outs, snap, k), now + 1, sequence0)
      invariant sequence == sequence0 + |events|
    {
      r, events, sequence := NotifyOne(net, outs, snap, k, now, sequence0, r, events, sequence);
    }
  }

  /** One iteration of the loop of `Notify`: output `outs[k]` is compared
      with its snapshot and, if it changed, fanned out. */
  method NotifyOne(net: Net, outs: seq<PinId>, snap: seq<LogicState>, k: nat, now: nat, sequence0: nat,
                   r0: Net, events0: seq<Event>, sequence1: nat)
    returns (r: Net, events: seq<Event>, sequence: nat)
    requires Linked(net.pins) && |snap| == |outs| && k < |outs|
    requires forall j | 0 <= j < |outs| :: outs[j] < |net.pins|
    requires r0 == Spread(net, outs, snap, k).0
    requires events0 == Scheduled(Wake(net, outs, snap, k), now + 1, sequence0)
    requires sequence1 == sequence0 + |events0|
    ensures r == Spread(net, outs, snap, k + 1).0
    ensures events == Scheduled(Wake(net, outs, snap, k + 1), now + 1, sequence0)
    ensures sequence == sequence0 + |events|
  {
    var p := outs[k];
    NotifyStep(net, outs, snap, k);
    r, events, sequence := r0, events0, sequence1;
    if r0.pins[p].value != snap[k] {
      var d, evs, sq := Fan(r0, p, now + 1, sequence1);
      ScheduledMore(Wake(net, outs, snap, k), InputPeers(r0, r0.pins[p].connections), events0, evs, now + 1, sequence0, sequence1);
      r, events, sequence := d, events0 + evs, sq;
    }
  }

  /** One more output in `Spread` and `Wake`. */
  lemma NotifyStep(net: Net, outs: seq<PinId>, snap: seq<LogicState>, k: nat)
    requires Linked(net.pins) && |snap| == |outs| && k < |outs|
    requires forall j | 0 <= j < |outs| :: outs[j] < |net.pins|
    ensures var m := Spread(net, outs, snap, k).0;
            && outs[k] < |m.pins| && PeerOk(m.pins, outs[k])
            && (m.pins[outs[k]].value != snap[k] ==>
                  && Spread(net, outs, snap, k + 1).0 == SetAll(m, m.pins[outs[k]].connections, m.pins[outs[k]].value)
                  && Wake(net, outs, snap, k + 1) == Wake(net, outs, snap, k) + InputPeers(m, m.pins[outs[k]].connections))
            && (m.pins[outs[k]].value == snap[k] ==>
                  Spread(net, outs, snap, k + 1).0 == m && Wake(net, outs, snap, k + 1) == Wake(net, outs, snap, k))
  {
    var m := Spread(net, outs, snap, k).0;
    WiringOf(net, m);
    assert PeerOk(m.pins, outs[k]);
  }

  /** One pass of the run loop on node `n` with the clock at `now`: the
      outputs are snapshot, the node is computed, and the changed outputs
      are propagated. */
  method Pass(net: Net, n: NodeId, now: nat, sequence0: nat) returns (r: Net, events: seq<Event>, sequence: nat)
    requires Valid(net) && n < |net.nodes|
    ensures r == Propagated(net, n)
    ensures events == Scheduled(Woken(net, n), now + 1, sequence0)
    ensures sequence == sequence0 + |events|
  {
    PinsOf(net, n);
    var outs := net.nodes[n].outputs;
    var snap := Values(net, outs);
    var c := Compute(net, n);
    WiringOf(net, c);
    r, events, sequence := Notify(c, outs, snap, now, sequence0);
  }

  // ---------------------------------------------------------------------
  // The engine

  /** Each pending event names one of `count` nodes, is due no earlier than
      the clock `time` and has a number between 1 and the counter
      `sequence`. */
  ghost predicate Fits(q: seq<Event>, time: nat, sequence: nat, count: nat)
  {
    forall i | 0 <= i < |q| :: q[i].node < count && time <= q[i].time && 1 <= q[i].sequence <= sequence
  }

  /** The numbers grow along the queue. */
  ghost predicate Increasing(q: seq<Event>)
  {
    forall i, j | 0 <= i < j < |q| :: q[i].sequence < q[j].sequence
  }

  /** Taking out an entry that precedes every other leaves the rest due
      no earlier than its time. */
  lemma RemoveFits(q: seq<Event>, m: nat, time: nat, sequence: nat, count: nat)
    requires m < |q| && Fits(q, time, sequence, count)
    requires forall i | 0 <= i < |q| :: Precedes(q[m], q[i])
    ensures Fits(Remove(q, m), q[m].time, sequence, count)
  {
    var rest := Remove(q, m);
    forall i | 0 <= i < |rest| ensures q[m].time <= rest[i].time {
      assert Precedes(q[m], q[if i < m then i else i + 1]);
    }
  }

  /** Taking out an entry keeps the others' numbers in order. */
  lemma RemoveIncreasing(q: seq<Event>, m: nat)
    requires m < |q| && Increasing(q)
    ensures Increasing(Remove(q, m))
  {
    var rest := Remove(q, m);
    forall i, j | 0 <= i < j < |rest| ensures rest[i].sequence < rest[j].sequence {
      assert rest[i] == q[if i < m then i else i + 1];
      assert rest[j] == q[if j < m then j else j + 1];
    }
  }

  /** Newly queued events are due at `at` and numbered up to the new
      counter. */
  lemma ScheduledFits(woken: seq<NodeId>, time: nat, at: nat, sequence: nat, count: nat)
    requires time <= at && forall w | w in woken :: w < count
    ensures Fits(Scheduled(woken, at, sequence), time, sequence + |woken|, count)
  {
    ScheduledAt(woken, at, sequence);
    forall i | 0 <= i < |woken| ensures woken[i] < count {
      assert woken[i] in woken;
    }
  }

  /** Newly queued events are numbered in order, after the old counter. */
  lemma ScheduledIncreasing(woken: seq<NodeId>, at: nat, sequence: nat)
    ensures Increasing(Scheduled(woken, at, sequence))
    ensures forall i | 0 <= i < |woken| :: sequence < Scheduled(woken, at, sequence)[i].sequence
  {
    ScheduledAt(woken, at, sequence);
  }

  /** Two queues that fit a clock and counter make one; the first may have
      a smaller counter. */
  lemma AppendFits(a: seq<Event>, b: seq<Event>, time: nat, s1: nat, s2: nat, count: nat)
    requires Fits(a, time, s1, count) && Fits(b, time, s2, count) && s1 <= s2
    ensures Fits(a + b, time, s2, count)
  {
  }

  /** Two numbered queues, the second numbered after the first, make one. */
  lemma AppendIncreasing(a: seq<Event>, b: seq<Event>, s: nat)
    requires Increasing(a) && Increasing(b)
    requires forall i | 0 <= i < |a| :: a[i].sequence <= s
    requires forall i | 0 <= i < |b| :: s < b[i].sequence
    ensures Increasing(a + b)
  {
    var all := a + b;
    forall i, j | 0 <= i < j < |all| ensures all[i].sequence < all[j].sequence {
      if j < |a| {
        assert all[i] == a[i] && all[j] == a[j];
      } else if i < |a| {
        assert all[i] == a[i] && all[j] == b[j - |a|];
      } else {
        assert all[i] == b[i - |a|] && all[j] == b[j - |a|];
      }
    }
  }

  /** What one pass of the run loop leaves, on values: the event handed
      out (if any), the arena, the queue, the clock and the counter.  With
      an empty queue nothing changes; otherwise the earliest event leaves
      the queue, the clock moves to its time if that is later, the node's
      pass runs and the nodes it wakes are queued one tick later, numbered
      on from the counter. */
  function Advanced(net: Net, q: seq<Event>, time: nat, sequence: nat): (Option<Event>, Net, seq<Event>, nat, nat)
    requires Valid(net) && Fits(q, time, sequence, |net.nodes|)
  {
    if q == [] then (None, net, q, time, sequence)
    else
      var m := Earliest(q);
      var e := q[m];
      var woken := Woken(net, e.node);
      (Some(e), Propagated(net, e.node), Remove(q, m) + Scheduled(woken, e.time + 1, sequence),
       Max(time, e.time), sequence + |woken|)
  }

  /** A pass keeps the arena well formed and directed, and the queue
      fitting the new clock and counter and in order; the clock moves to
      the time of the event handed out, which is never earlier than it
      was. */
  lemma AdvancedKeeps(net: Net, q: seq<Event>, time: nat, sequence: nat)
    requires Valid(net) && Directed(net.pins)
    requires Fits(q, time, sequence, |net.nodes|) && Increasing(q)
    ensures var (fired, r, next, clock, counter) := Advanced(net, q, time, sequence);
            && Valid(r) && Directed(r.pins) && |r.nodes| == |net.nodes|
            && Fits(next, clock, counter, |net.nodes|) && Increasing(next)
            && time <= clock
            && (q != [] ==> fired == Some(q[Earliest(q)]) && clock == q[Earliest(q)].time)
  {
    if q != [] {
      var m := Earliest(q);
      var a := Advanced(net, q, time, sequence);
      assert a.1 == Propagated(net, q[m].node);
      var woken := Woken(net, q[m].node);
      var rest, added := Remove(q, m), Scheduled(woken, q[m].time + 1, sequence);
      assert a.2 == rest + added && a.3 == q[m].time && a.4 == sequence + |woken|;
      assert Fits(a.2, a.3, a.4, |net.nodes|) && Increasing(a.2) by {
        StepFits(q, m, time, sequence, |net.nodes|, woken, rest, added);
        StepIncreasing(q, m, time, sequence, |net.nodes|, woken, rest, added);
      }
    }
  }

  /** Taking out the entry the queue hands out (it precedes every other)
      and queuing the woken nodes one tick after it leaves every pending
      event fitting the clock at the entry's time and the counter moved on
      by the number of woken nodes. */
  lemma StepFits(q: seq<Event>, m: nat, time: nat, sequence: nat, count: nat, woken: seq<NodeId>,
                 rest: seq<Event>, added: seq<Event>)
    requires m < |q| && Fits(q, time, sequence, count)
    requires forall i | 0 <= i < |q| :: Precedes(q[m], q[i])
    requires forall w | w in woken :: w < count
    requires rest == Remove(q, m) && added == Scheduled(woken, q[m].time + 1, sequence)
    ensures Fits(rest + added, q[m].time, sequence + |woken|, count)
  {
    var at := q[m].time;
    RemoveFits(q, m, time, sequence, count);
    ScheduledFits(woken, at, at + 1, sequence, count);
    AppendFits(rest, added, at, sequence, sequence + |woken|, count);
  }

  /** The same step keeps the numbers growing along the queue. */
  lemma StepIncreasing(q: seq<Event>, m: nat, time: nat, sequence: nat, count: nat, woken: seq<NodeId>,
                       rest: seq<Event>, added: seq<Event>)
    requires m < |q| && Fits(q, time, sequence, count) && Increasing(q)
    requires forall i | 0 <= i < |q| :: Precedes(q[m], q[i])
    requires rest == Remove(q, m) && added == Scheduled(woken, q[m].time + 1, sequence)
    ensures Increasing(rest + added)
  {
    RemoveIncreasing(q, m);
    ScheduledIncreasing(woken, q[m].time + 1, sequence);
    RemoveFits(q, m, time, sequence, count);
    AppendIncreasing(rest, added, sequence);
  }

  /** One pass of the run loop on values.  `Engine.Step` applies it to
      the engine's fields. */
  method Advance(net: Net, q: seq<Event>, time: nat, sequence: nat)
    returns (fired: Option<Event>, r: Net, next: seq<Event>, clock: nat, counter: nat)
    requires Valid(net) && Fits(q, time, sequence, |net.nodes|)
    ensures (fired, r, next, clock, counter) == Advanced(net, q, time, sequence)
  {
    if q == [] {
      return None, net, q, time, sequence;
    }
    var m := Earliest(q);
    var e := q[m];
    fired := Some(e);
    clock := Max(time, e.time);
    var events;
    r, events, counter := Pass(net, e.node, e.time, sequence);
    next := Remove(q, m) + events;
  }

  class Engine {
    /** The circuit whose arena the engine computes on. */
    const circuit: Circuit
    /** The pending events, in the order they were queued. */
    var queue: seq<Event>
    /** simulation_time. */
    var time: nat
    /** The number of events queued so far. */
    var sequence: nat

    /** The circuit is well formed and the queue is in order for the clock
        and the counter. */
    ghost predicate Inv()
      reads this, circuit
    {
      circuit.Inv() && Fits(queue, time, sequence, |circuit.net.nodes|) && Increasing(queue)
    }

    /** SimulationEngine.__init__: an empty queue, clock and counter at 0. */
    constructor(c: Circuit)
      requires c.Inv()
      ensures Inv() && circuit == c && queue == [] && time == 0 && sequence == 0
    {
      circuit := c;
      queue := [];
      time := 0;
      sequence := 0;
    }

    /** queue_update: the counter moves on by one and the node is queued
        for `delay` after the clock with the new number. */
    method QueueUpdate(node: NodeId, delay: nat)
      requires Inv() && node < |circuit.net.nodes|
      modifies this
      ensures Inv()
      ensures sequence == old(sequence) + 1 && time == old(time)
      ensures queue == old(queue) + [Event(time + delay, sequence, node)]
    {
      sequence := sequence + 1;
      queue := queue + [Event(time + delay, sequence, node)];
    }

    /** trigger_update: queue_update with no delay. */
    method TriggerUpdate(node: NodeId)
      requires Inv() && node < |circuit.net.nodes|
      modifies this
      ensures Inv()
      ensures sequence == old(sequence) + 1 && time == old(time)
      ensures queue == old(queue) + [Event(time, sequence, node)]
    {
      QueueUpdate(node, 0);
    }

    /** One pass of the run loop.  With an empty queue nothing happens.
        Otherwise the least event by (time, sequence) leaves the queue, the
        clock moves to its time if that is later (it always is at least
        the clock), the node is computed and its changed outputs are
        propagated, the nodes of input peers being queued with delay 1. */
    method Step() returns (fired: Option<Event>)
      requires Inv()
      modifies this, circuit
      ensures Inv()
      ensures circuit.nodes == old(circuit.nodes) && circuit.wires == old(circuit.wires)
      ensures (fired, circuit.net, queue, time, sequence)
              == Advanced(old(circuit.net), old(queue), old(time), old(sequence))
    {
      AdvancedKeeps(circuit.net, queue, time, sequence);
      var r, next, clock, counter;
      fired, r, next, clock, counter := Advance(circuit.net, queue, time, sequence);
      circuit.net := r;
      queue, time, sequence := next, clock, counter;
    }
  }
}
