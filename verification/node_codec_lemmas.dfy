/**
 * What the node-table codec guarantees: the round trip for graphs whose every record
 * resolves, the placeholder behaviour, and the misalignment an unresolved record causes.
 */
module NodeCodecLemmas {

  import opened Wrappers
  import opened Graph
  import opened Codec
  import opened NodeCodec
  import Seqs

  // ---------------------------------------------------------------------------
  // Conditions under which a graph survives save and load

  /** A node `load` recreates: a registered builtin with the same port counts, or a
      call or boundary node of the first function carrying its definition's name. */
  predicate Resolvable(reg: Registry, fns: seq<FunctionDef>, n: Node)
  {
    match n.kind
    case Builtin(id, ins, outs) => id in reg && reg[id] == Template(ins, outs)
    case Call(fn) => FirstNamed(fns, fn.name, FnName) == Some(fn)
    case FnInputs(fn) => FirstNamed(fns, fn.name, FnName) == Some(fn)
    case FnOutputs(fn) => FirstNamed(fns, fn.name, FnName) == Some(fn)
    case StructInit(_) => false
    case StructCreate(_) => false
  }

  /** The node widgets of a canonical arena: identities equal positions, every node
      resolves and has one wire list per input, every wire names an existing slot and
      output. A freshly loaded graph is in this form. */
  predicate NodesCanonical(reg: Registry, fns: seq<FunctionDef>, nodes: seq<Widget>)
  {
    && (forall i :: 0 <= i < |nodes| ==> nodes[i].NodeW? && nodes[i].id == i)
    && (forall i :: 0 <= i < |nodes| ==> Resolvable(reg, fns, nodes[i].node))
    && (forall i :: 0 <= i < |nodes| ==> |nodes[i].inputs| == InputCount(nodes[i].node))
    && WiresValid(nodes)
  }

  predicate WireValid(nodes: seq<Widget>, w: Wire)
  {
    w.source < |nodes| && nodes[w.source].NodeW? && 0 <= w.output < OutputCount(nodes[w.source].node)
  }

  predicate WiresValid(nodes: seq<Widget>)
  {
    forall i, k, m ::
      0 <= i < |nodes| && nodes[i].NodeW? && 0 <= k < |nodes[i].inputs| && 0 <= m < |nodes[i].inputs[k]|
      ==> WireValid(nodes, nodes[i].inputs[k][m])
  }

  // ---------------------------------------------------------------------------
  // The kind byte

  /** The record header `save` writes resolves back to the same node (before its
      payload is read). */
  lemma NodeKindRoundTrip(reg: Registry, fns: seq<FunctionDef>, n: Node)
    requires Resolvable(reg, fns, n)
    ensures ResolveNode(BaseName(n), KindByte(n), reg, fns) == Some(n.(data := DefaultData))
  {
  }

  /** Files older than version 1 carry no kind byte: nothing is read and the kind is 0. */
  lemma OldFilesHaveNoKindByte(ts: seq<Token>, version: int)
    requires version < 1
    ensures ReadKind(ts, version) == Ok((0, ts))
  {
  }

  /** Kind bytes outside 0 to 3, and names that match nothing, give a placeholder. */
  lemma UnknownKindIsPlaceholder(id: string, kind: int, reg: Registry, fns: seq<FunctionDef>)
    ensures (kind < 0 || kind > 3) ==> ResolveNode(id, kind, reg, fns).None?
    ensures kind == 0 ==> (ResolveNode(id, kind, reg, fns).None? <==> id !in reg)
    ensures 1 <= kind <= 3 ==> (ResolveNode(id, kind, reg, fns).None? <==> FirstNamed(fns, id, FnName).None?)
  {
  }

  // ---------------------------------------------------------------------------
  // Wire records

  lemma IndexOfCanonical(nodes: seq<Widget>, s: nat)
    requires forall i :: 0 <= i < |nodes| ==> nodes[i].id == i
    requires s < |nodes|
    ensures Seqs.IndexOf(Ids(nodes), s) == s
  {
    var ids := Ids(nodes);
    assert ids[s] == s;
    var i := Seqs.IndexOf(ids, s);
    assert ids[i] == s;
  }

  /** One relay point read ahead of the rest. */
  lemma ReadRelaysStep(r: Point, tail: seq<Token>, count: int, acc: seq<Point>)
    requires count > 0
    ensures ReadRelays([TDouble(r.x), TDouble(r.y)] + tail, count, acc) == ReadRelays(tail, count - 1, acc + [r])
  {
    var ts := [TDouble(r.x), TDouble(r.y)] + tail;
    assert ts[0] == TDouble(r.x) && ts[1..] == [TDouble(r.y)] + tail;
    Cons(TDouble(r.y), tail);
  }

  lemma {:induction false} RelaysRoundTrip(rs: seq<Point>, rest: seq<Token>, acc: seq<Point>)
    ensures ReadRelays(EncodeRelays(rs) + rest, |rs|, acc) == Ok((acc + rs, rest))
    decreases rs
  {
    if rs == [] {
      assert acc + rs == acc && EncodeRelays(rs) + rest == rest;
    } else {
      var tail := EncodeRelays(rs[1..]) + rest;
      Seqs.AppendAssoc([TDouble(rs[0].x), TDouble(rs[0].y)], EncodeRelays(rs[1..]), rest);
      ReadRelaysStep(rs[0], tail, |rs|, acc);
      RelaysRoundTrip(rs[1..], rest, acc + [rs[0]]);
      Seqs.AppendHeadTail(acc, rs);
    }
  }

  lemma WireRoundTrip(nodes: seq<Widget>, w: Wire, rest: seq<Token>, consumer: nat, input: nat)
    requires forall i :: 0 <= i < |nodes| ==> nodes[i].id == i
    requires w.source < |nodes|
    ensures ReadWire(EncodeWire(nodes, w) + rest, consumer, input)
         == Ok((Pending(consumer, input, w.source, w.output, w.relays), rest))
  {
    IndexOfCanonical(nodes, w.source);
    var body := EncodeRelays(w.relays) + rest;
    var ts := EncodeWire(nodes, w) + rest;
    assert ts == [TInt(w.source)] + ([TInt(w.output)] + ([TInt(|w.relays|)] + body));
    Cons(TInt(w.source), [TInt(w.output)] + ([TInt(|w.relays|)] + body));
    Cons(TInt(w.output), [TInt(|w.relays|)] + body);
    Cons(TInt(|w.relays|), body);
    RelaysRoundTrip(w.relays, rest, []);
    assert [] + w.relays == w.relays;
  }

  /** The deferred connections one input's wires produce, in order. */
  function PendWires(consumer: nat, input: nat, ws: seq<Wire>): seq<Pending>
  {
    if ws == [] then []
    else [Pending(consumer, input, ws[0].source, ws[0].output, ws[0].relays)] + PendWires(consumer, input, ws[1..])
  }

  /** The deferred connections of the inputs numbered from `input` on. */
  function PendInputs(consumer: nat, input: nat, ins: seq<seq<Wire>>): seq<Pending>
    decreases ins
  {
    if ins == [] then [] else PendWires(consumer, input, ins[0]) + PendInputs(consumer, input + 1, ins[1..])
  }

  /** The deferred connections of the node records from slot `slot` on. */
  function PendNodes(slot: nat, ns: seq<Widget>): seq<Pending>
    requires AllNodes(ns)
    decreases ns
  {
    if ns == [] then [] else PendInputs(slot, 0, ns[0].inputs) + PendNodes(slot + 1, ns[1..])
  }

  /** One wire record read ahead of the rest of the input's wires. */
  lemma ReadWiresStep(ts: seq<Token>, count: int, consumer: nat, input: nat, pend: seq<Pending>)
    requires count > 0 && ReadWire(ts, consumer, input).Ok?
    ensures var p := ReadWire(ts, consumer, input).value;
            ReadWires(ts, count, consumer, input, pend) == ReadWires(p.1, count - 1, consumer, input, pend + [p.0])
  {
  }

  lemma {:induction false} WiresRoundTrip(nodes: seq<Widget>, ws: seq<Wire>, rest: seq<Token>,
                                          consumer: nat, input: nat, pend: seq<Pending>)
    requires forall i :: 0 <= i < |nodes| ==> nodes[i].id == i
    requires forall m :: 0 <= m < |ws| ==> ws[m].source < |nodes|
    ensures ReadWires(EncodeWires(nodes, ws) + rest, |ws|, consumer, input, pend)
         == Ok((pend + PendWires(consumer, input, ws), rest))
    decreases ws
  {
    if ws == [] {
      assert pend + PendWires(consumer, input, ws) == pend && EncodeWires(nodes, ws) + rest == rest;
    } else {
      var tail := EncodeWires(nodes, ws[1..]) + rest;
      Seqs.AppendAssoc(EncodeWire(nodes, ws[0]), EncodeWires(nodes, ws[1..]), rest);
      assert ws[0].source < |nodes|;
      WireRoundTrip(nodes, ws[0], tail, consumer, input);
      var p := Pending(consumer, input, ws[0].source, ws[0].output, ws[0].relays);
      ReadWiresStep(EncodeWire(nodes, ws[0]) + tail, |ws|, consumer, input, pend);
      assert forall m :: 0 <= m < |ws[1..]| ==> ws[1..][m].source < |nodes| by {
        forall m | 0 <= m < |ws[1..]| ensures ws[1..][m].source < |nodes| {
          assert ws[1..][m] == ws[m + 1];
        }
      }
      WiresRoundTrip(nodes, ws[1..], rest, consumer, input, pend + [p]);
      assert PendWires(consumer, input, ws) == [p] + PendWires(consumer, input, ws[1..]);
      Seqs.AppendAssoc(pend, [p], PendWires(consumer, input, ws[1..]));
    }
  }

  /** One input record: its wire count, then its wires. */
  lemma InputStep(nodes: seq<Widget>, ws: seq<Wire>, tail: seq<Token>, count: int,
                  consumer: nat, input: nat, pend: seq<Pending>)
    requires forall i :: 0 <= i < |nodes| ==> nodes[i].id == i
    requires forall m :: 0 <= m < |ws| ==> ws[m].source < |nodes|
    requires count > 0
    ensures ReadInputs(EncodeInput(nodes, ws) + tail, count, consumer, input, pend)
         == ReadInputs(tail, count - 1, consumer, input + 1, pend + PendWires(consumer, input, ws))
  {
    var wires := EncodeWires(nodes, ws) + tail;
    assert EncodeInput(nodes, ws) + tail == [TInt(|ws|)] + wires;
    Cons(TInt(|ws|), wires);
    WiresRoundTrip(nodes, ws, tail, consumer, input, pend);
  }

  lemma SourcesSplit(nodes: seq<Widget>, ins: seq<seq<Wire>>)
    requires ins != []
    requires forall k, m :: 0 <= k < |ins| && 0 <= m < |ins[k]| ==> ins[k][m].source < |nodes|
    ensures forall m :: 0 <= m < |ins[0]| ==> ins[0][m].source < |nodes|
    ensures forall k, m :: 0 <= k < |ins[1..]| && 0 <= m < |ins[1..][k]| ==> ins[1..][k][m].source < |nodes|
  {
    forall k, m | 0 <= k < |ins[1..]| && 0 <= m < |ins[1..][k]| ensures ins[1..][k][m].source < |nodes| {
      assert ins[1..][k] == ins[k + 1];
    }
  }

  lemma {:induction false} InputsRoundTrip(nodes: seq<Widget>, ins: seq<seq<Wire>>, rest: seq<Token>,
                                           consumer: nat, input: nat, pend: seq<Pending>)
    requires forall i :: 0 <= i < |nodes| ==> nodes[i].id == i
    requires forall k, m :: 0 <= k < |ins| && 0 <= m < |ins[k]| ==> ins[k][m].source < |nodes|
    ensures ReadInputs(EncodeInputs(nodes, ins) + rest, |ins|, consumer, input, pend)
         == Ok((pend + PendInputs(consumer, input, ins), rest))
    decreases ins
  {
    if ins == [] {
      assert pend + PendInputs(consumer, input, ins) == pend && EncodeInputs(nodes, ins) + rest == rest;
    } else {
      var tail := EncodeInputs(nodes, ins[1..]) + rest;
      Seqs.AppendAssoc(EncodeInput(nodes, ins[0]), EncodeInputs(nodes, ins[1..]), rest);
      SourcesSplit(nodes, ins);
      InputStep(nodes, ins[0], tail, |ins|, consumer, input, pend);
      var p := pend + PendWires(consumer, input, ins[0]);
      InputsRoundTrip(nodes, ins[1..], rest, consumer, input + 1, p);
      Seqs.AppendAssoc(pend, PendWires(consumer, input, ins[0]), PendInputs(consumer, input + 1, ins[1..]));
    }
  }

  // ---------------------------------------------------------------------------
  // Node records

  /** A node widget as its record reads back: everything but the wires, which the
      deferred pass adds. */
  function Stripped(w: Widget): Widget
    requires w.NodeW?
  {
    w.(inputs := Unwired(InputCount(w.node)))
  }

  function Strips(ns: seq<Widget>): (r: seq<Slot>)
    requires AllNodes(ns)
    ensures |r| == |ns| && forall i :: 0 <= i < |ns| ==> r[i] == Some(Stripped(ns[i]))
  {
    if ns == [] then [] else [Some(Stripped(ns[0]))] + Strips(ns[1..])
  }

  lemma SnocThenAppend<T>(a: seq<T>, x: T, b: seq<T>)
    ensures (a + [x]) + b == a + ([x] + b)
  {
  }

  /** A node record's wires all name slots of the arena. */
  predicate SourcesInRange(nodes: seq<Widget>, w: Widget)
    requires w.NodeW?
  {
    forall k, m :: 0 <= k < |w.inputs| && 0 <= m < |w.inputs[k]| ==> w.inputs[k][m].source < |nodes|
  }

  lemma NodeBodyRoundTrip(nodes: seq<Widget>, w: Widget, tail: seq<Token>, slot: nat, pend: seq<Pending>)
    requires forall i :: 0 <= i < |nodes| ==> nodes[i].id == i
    requires w.NodeW? && w.id == slot && |w.inputs| == InputCount(w.node) && SourcesInRange(nodes, w)
    ensures ReadNodeBody([TData(w.node.data), TDouble(w.origin.x), TDouble(w.origin.y), TInt(|w.inputs|)]
                           + EncodeInputs(nodes, w.inputs) + tail, w.node.(data := DefaultData), slot, pend)
         == Ok(((Stripped(w), pend + PendInputs(slot, 0, w.inputs)), tail))
  {
    var wires := EncodeInputs(nodes, w.inputs) + tail;
    var t3 := [TInt(|w.inputs|)] + wires;
    var t2 := [TDouble(w.origin.y)] + t3;
    var t1 := [TDouble(w.origin.x)] + t2;
    assert [TData(w.node.data), TDouble(w.origin.x), TDouble(w.origin.y), TInt(|w.inputs|)]
           + EncodeInputs(nodes, w.inputs) + tail == [TData(w.node.data)] + t1;
    Cons(TData(w.node.data), t1);
    Cons(TDouble(w.origin.x), t2);
    Cons(TDouble(w.origin.y), t3);
    Cons(TInt(|w.inputs|), wires);
    InputsRoundTrip(nodes, w.inputs, tail, slot, 0, pend);
  }

  /** One resolved node record reads back as its stripped widget in the next slot, and
      queues its wires. */
  lemma NodeRecordRoundTrip(nodes: seq<Widget>, reg: Registry, fns: seq<FunctionDef>, w: Widget,
                            tail: seq<Token>, count: int, version: int, slots: seq<Slot>, pend: seq<Pending>)
    requires forall i :: 0 <= i < |nodes| ==> nodes[i].id == i
    requires w.NodeW? && w.id == |slots| && |w.inputs| == InputCount(w.node) && SourcesInRange(nodes, w)
    requires Resolvable(reg, fns, w.node)
    requires count > 0 && version >= 1
    ensures ReadNodes(EncodeNode(nodes, w) + tail, count, version, reg, fns, slots, pend)
         == ReadNodes(tail, count - 1, version, reg, fns, slots + [Some(Stripped(w))],
                      pend + PendInputs(|slots|, 0, w.inputs))
  {
    var body := [TData(w.node.data), TDouble(w.origin.x), TDouble(w.origin.y), TInt(|w.inputs|)]
                + EncodeInputs(nodes, w.inputs) + tail;
    assert EncodeNode(nodes, w) + tail == [TStr(BaseName(w.node))] + ([TByte(KindByte(w.node))] + body);
    Cons(TStr(BaseName(w.node)), [TByte(KindByte(w.node))] + body);
    Cons(TByte(KindByte(w.node)), body);
    NodeKindRoundTrip(reg, fns, w.node);
    NodeBodyRoundTrip(nodes, w, tail, |slots|, pend);
  }

  lemma {:induction false} NodesRoundTrip(nodes: seq<Widget>, reg: Registry, fns: seq<FunctionDef>, ns: seq<Widget>,
                                          rest: seq<Token>, version: int, slots: seq<Slot>, pend: seq<Pending>)
    requires forall i :: 0 <= i < |nodes| ==> nodes[i].id == i
    requires AllNodes(ns) && version >= 1
    requires forall i :: 0 <= i < |ns| ==> ns[i].id == |slots| + i
    requires forall i :: 0 <= i < |ns| ==> |ns[i].inputs| == InputCount(ns[i].node)
    requires forall i :: 0 <= i < |ns| ==> SourcesInRange(nodes, ns[i]) && Resolvable(reg, fns, ns[i].node)
    ensures ReadNodes(EncodeNodes(nodes, ns) + rest, |ns|, version, reg, fns, slots, pend)
         == Ok(((slots + Strips(ns), pend + PendNodes(|slots|, ns)), rest))
    decreases ns
  {
    if ns == [] {
      assert slots + Strips(ns) == slots && pend + PendNodes(|slots|, ns) == pend;
      assert EncodeNodes(nodes, ns) + rest == rest;
    } else {
      EncodeNodesCons(nodes, ns);
      var tail := EncodeNodes(nodes, ns[1..]) + rest;
      Seqs.AppendAssoc(EncodeNode(nodes, ns[0]), EncodeNodes(nodes, ns[1..]), rest);
      assert ns[0].id == |slots| && |ns[0].inputs| == InputCount(ns[0].node);
      assert SourcesInRange(nodes, ns[0]) && Resolvable(reg, fns, ns[0].node);
      NodeRecordRoundTrip(nodes, reg, fns, ns[0], tail, |ns|, version, slots, pend);
      var slots' := slots + [Some(Stripped(ns[0]))];
      var pend' := pend + PendInputs(|slots|, 0, ns[0].inputs);
      assert forall i :: 0 <= i < |ns[1..]| ==> ns[1..][i] == ns[i + 1];
      NodesRoundTrip(nodes, reg, fns, ns[1..], rest, version, slots', pend');
      SnocThenAppend(slots, Some(Stripped(ns[0])), Strips(ns[1..]));
      assert PendNodes(|slots|, ns) == PendInputs(|slots|, 0, ns[0].inputs) + PendNodes(|slots| + 1, ns[1..]);
      Seqs.AppendAssoc(pend, PendInputs(|slots|, 0, ns[0].inputs), PendNodes(|slots| + 1, ns[1..]));
    }
  }

  // ---------------------------------------------------------------------------
  // The deferred wiring pass on a read-back table

  /** Slots holding exactly the given widgets. */
  function Live(ws: seq<Widget>): (r: seq<Slot>)
    ensures |r| == |ws| && forall i :: 0 <= i < |ws| ==> r[i] == Some(ws[i])
  {
    if ws == [] then [] else [Some(ws[0])] + Live(ws[1..])
  }

  /** Every slot holds a node widget of the same node as the arena being rebuilt. */
  predicate Shaped(slots: seq<Slot>, nodes: seq<Widget>)
  {
    && |slots| == |nodes|
    && forall i :: 0 <= i < |slots| ==>
         slots[i].Some? && slots[i].value.NodeW? && nodes[i].NodeW? && slots[i].value.node == nodes[i].node
  }

  lemma {:induction false} ConnectAppend(slots: seq<Slot>, a: seq<Pending>, b: seq<Pending>)
    requires Connect(slots, a).Ok?
    ensures Connect(slots, a + b) == Connect(Connect(slots, a).value, b)
    decreases a
  {
    if a == [] {
      assert a + b == b;
    } else {
      assert (a + b)[0] == a[0] && (a + b)[1..] == a[1..] + b;
      ConnectAppend(ConnectStep(slots, a[0]).value, a[1..], b);
    }
  }

  lemma AddNoWires(w: Widget, k: nat)
    requires w.NodeW? && k < |w.inputs|
    ensures AddWires(w, k, []) == w
  {
    assert w.inputs[k] + [] == w.inputs[k];
  }

  lemma AddWiresTwice(w: Widget, k: nat, a: seq<Wire>, b: seq<Wire>)
    requires w.NodeW? && k < |w.inputs|
    ensures AddWires(AddWires(w, k, a), k, b) == AddWires(w, k, a + b)
  {
    assert (w.inputs[k] + a) + b == w.inputs[k] + (a + b);
  }

  lemma UpdateTwice<T>(s: seq<T>, c: nat, x: T, y: T)
    requires c < |s|
    ensures s[c := x][c := y] == s[c := y]
  {
  }

  lemma KeepsShape(slots: seq<Slot>, nodes: seq<Widget>, c: nat, w: Widget)
    requires Shaped(slots, nodes) && c < |slots|
    requires w.NodeW? && w.node == slots[c].value.node
    ensures Shaped(slots[c := Some(w)], nodes)
  {
  }

  /** One valid queued wire into an input of a live node is appended to that input. */
  lemma ConnectOneWire(slots: seq<Slot>, nodes: seq<Widget>, c: nat, k: nat, x: Wire)
    requires Shaped(slots, nodes) && c < |slots| && k < |slots[c].value.inputs|
    requires WireValid(nodes, x)
    ensures ConnectStep(slots, Pending(c, k, x.source, x.output, x.relays))
         == Ok(slots[c := Some(AddWires(slots[c].value, k, [x]))])
  {
    assert slots[x.source].value.node == nodes[x.source].node;
  }

  lemma ConnectCons(slots: seq<Slot>, pend: seq<Pending>)
    requires pend != [] && ConnectStep(slots, pend[0]).Ok?
    ensures Connect(slots, pend) == Connect(ConnectStep(slots, pend[0]).value, pend[1..])
  {
  }

  /** Connecting one input's queued wires appends them, in order, to that input. */
  lemma {:induction false} WiresConnect(slots: seq<Slot>, nodes: seq<Widget>, c: nat, k: nat, ws: seq<Wire>)
    requires Shaped(slots, nodes) && c < |slots| && k < |slots[c].value.inputs|
    requires forall m :: 0 <= m < |ws| ==> WireValid(nodes, ws[m])
    ensures Connect(slots, PendWires(c, k, ws)) == Ok(slots[c := Some(AddWires(slots[c].value, k, ws))])
    decreases ws
  {
    var w := slots[c].value;
    if ws == [] {
      AddNoWires(w, k);
      assert slots[c := Some(w)] == slots;
    } else {
      var pend := PendWires(c, k, ws);
      assert pend[0] == Pending(c, k, ws[0].source, ws[0].output, ws[0].relays);
      assert pend[1..] == PendWires(c, k, ws[1..]);
      assert WireValid(nodes, ws[0]);
      ConnectOneWire(slots, nodes, c, k, ws[0]);
      var w1 := AddWires(w, k, [ws[0]]);
      var slots1 := slots[c := Some(w1)];
      ConnectCons(slots, pend);
      KeepsShape(slots, nodes, c, w1);
      assert forall m :: 0 <= m < |ws[1..]| ==> WireValid(nodes, ws[1..][m]) by {
        forall m | 0 <= m < |ws[1..]| ensures WireValid(nodes, ws[1..][m]) {
          assert ws[1..][m] == ws[m + 1];
        }
      }
      WiresConnect(slots1, nodes, c, k, ws[1..]);
      AddWiresTwice(w, k, [ws[0]], ws[1..]);
      assert [ws[0]] + ws[1..] == ws;
      UpdateTwice(slots, c, Some(w1), Some(AddWires(w, k, ws)));
    }
  }

  lemma FillNextInput(w: Widget, k: nat, ins: seq<seq<Wire>>)
    requires w.NodeW? && ins != [] && k + |ins| == |w.inputs| && w.inputs[k] == []
    ensures var w1 := AddWires(w, k, ins[0]);
            w1.(inputs := w1.inputs[..k + 1] + ins[1..]) == w.(inputs := w.inputs[..k] + ins)
  {
    var w1 := AddWires(w, k, ins[0]);
    assert w.inputs[k] + ins[0] == ins[0];
    assert w1.inputs[..k + 1] == w.inputs[..k] + [ins[0]];
    assert [ins[0]] + ins[1..] == ins;
    assert w1.inputs[..k + 1] + ins[1..] == w.inputs[..k] + ins;
  }

  /** Connecting the queued wires of a node's inputs from `k` on fills those inputs,
      which were empty, with exactly the saved wire lists. */
  lemma {:induction false} InputsConnect(slots: seq<Slot>, nodes: seq<Widget>, c: nat, k: nat, ins: seq<seq<Wire>>)
    requires Shaped(slots, nodes) && c < |slots| && k + |ins| == |slots[c].value.inputs|
    requires forall j :: k <= j < |slots[c].value.inputs| ==> slots[c].value.inputs[j] == []
    requires forall j, m :: 0 <= j < |ins| && 0 <= m < |ins[j]| ==> WireValid(nodes, ins[j][m])
    ensures Connect(slots, PendInputs(c, k, ins))
         == Ok(slots[c := Some(slots[c].value.(inputs := slots[c].value.inputs[..k] + ins))])
    decreases ins
  {
    var w := slots[c].value;
    if ins == [] {
      assert w.inputs[..k] + ins == w.inputs;
      assert slots[c := Some(w.(inputs := w.inputs[..k] + ins))] == slots;
    } else {
      WiresConnect(slots, nodes, c, k, ins[0]);
      var w1 := AddWires(w, k, ins[0]);
      var slots1 := slots[c := Some(w1)];
      ConnectAppend(slots, PendWires(c, k, ins[0]), PendInputs(c, k + 1, ins[1..]));
      KeepsShape(slots, nodes, c, w1);
      assert forall j :: 0 <= j < |ins[1..]| ==> ins[1..][j] == ins[j + 1];
      InputsConnect(slots1, nodes, c, k + 1, ins[1..]);
      FillNextInput(w, k, ins);
      UpdateTwice(slots, c, Some(w1), Some(w.(inputs := w.inputs[..k] + ins)));
    }
  }

  /** The queued wires of record `j` restore that record's wire lists. */
  lemma NodeConnect(slots: seq<Slot>, nodes: seq<Widget>, j: nat)
    requires forall i :: 0 <= i < |nodes| ==> nodes[i].NodeW? && |nodes[i].inputs| == InputCount(nodes[i].node)
    requires WiresValid(nodes)
    requires |slots| == |nodes| && j < |nodes|
    requires forall i :: 0 <= i < j ==> slots[i] == Some(nodes[i])
    requires forall i :: j <= i < |nodes| ==> slots[i] == Some(Stripped(nodes[i]))
    ensures Connect(slots, PendNodes(j, nodes[j..])) == Connect(slots[j := Some(nodes[j])], PendNodes(j + 1, nodes[j + 1..]))
  {
    var w := nodes[j];
    assert nodes[j..][0] == w && nodes[j..][1..] == nodes[j + 1..];
    assert Shaped(slots, nodes);
    InputsConnect(slots, nodes, j, 0, w.inputs);
    assert Stripped(w).(inputs := Stripped(w).inputs[..0] + w.inputs) == w;
    ConnectAppend(slots, PendInputs(j, 0, w.inputs), PendNodes(j + 1, nodes[j + 1..]));
  }

  /** The wiring pass over a freshly read table rebuilds every saved wire. */
  lemma {:induction false} NodesConnect(slots: seq<Slot>, nodes: seq<Widget>, j: nat)
    requires forall i :: 0 <= i < |nodes| ==> nodes[i].NodeW? && |nodes[i].inputs| == InputCount(nodes[i].node)
    requires WiresValid(nodes)
    requires |slots| == |nodes| && j <= |nodes|
    requires forall i :: 0 <= i < j ==> slots[i] == Some(nodes[i])
    requires forall i :: j <= i < |nodes| ==> slots[i] == Some(Stripped(nodes[i]))
    ensures Connect(slots, PendNodes(j, nodes[j..])) == Ok(Live(nodes))
    decreases |nodes| - j
  {
    if j == |nodes| {
      assert slots == Live(nodes);
      assert PendNodes(j, nodes[j..]) == [];
    } else {
      NodeConnect(slots, nodes, j);
      NodesConnect(slots[j := Some(nodes[j])], nodes, j + 1);
    }
  }

  lemma {:induction false} PurgeLive(ws: seq<Widget>)
    ensures Purge(Live(ws)) == ws
    decreases ws
  {
    if ws != [] {
      assert Live(ws)[1..] == Live(ws[1..]);
      PurgeLive(ws[1..]);
    }
  }

  // ---------------------------------------------------------------------------
  // Identities: what `load` makes of the saved arena's numbering

  /** A wire as the file records it: its source becomes the position, among the saved
      node widgets, of the first one carrying the source's identity. A source that is
      not among them is left as it is. */
  function RenumberWire(nodes: seq<Widget>, w: Wire): Wire
  {
    var j := Seqs.IndexOf(Ids(nodes), w.source);
    if j < 0 then w else w.(source := j)
  }

  function RenumberWires(nodes: seq<Widget>, ws: seq<Wire>): seq<Wire>
  {
    seq(|ws|, m requires 0 <= m < |ws| => RenumberWire(nodes, ws[m]))
  }

  function RenumberInputs(nodes: seq<Widget>, ins: seq<seq<Wire>>): seq<seq<Wire>>
  {
    seq(|ins|, k requires 0 <= k < |ins| => RenumberWires(nodes, ins[k]))
  }

  function RenumberAt(nodes: seq<Widget>, i: nat): Widget
    requires i < |nodes|
  {
    match nodes[i]
    case NodeW(_, n, o, ins) => NodeW(i, n, o, RenumberInputs(nodes, ins))
    case OtherW(_) => OtherW(i)
  }

  /** The node widgets as `load` gives them back: each takes its position as identity,
      and each wire names its source by position. */
  function Renumber(nodes: seq<Widget>): seq<Widget>
  {
    seq(|nodes|, i requires 0 <= i < |nodes| => RenumberAt(nodes, i))
  }

  /** A wire whose source identity is that of a saved node widget, with that output. */
  predicate WireFromArena(nodes: seq<Widget>, w: Wire)
  {
    var j := Seqs.IndexOf(Ids(nodes), w.source);
    0 <= j && nodes[j].NodeW? && 0 <= w.output < OutputCount(nodes[j].node)
  }

  predicate WiresFromArena(nodes: seq<Widget>)
  {
    forall i, k, m ::
      0 <= i < |nodes| && nodes[i].NodeW? && 0 <= k < |nodes[i].inputs| && 0 <= m < |nodes[i].inputs[k]|
      ==> WireFromArena(nodes, nodes[i].inputs[k][m])
  }

  /** The node widgets `save` can write so that `load` rebuilds them: every node
      resolves and has one wire list per input, and every wire comes from an output of
      a node widget of the arena. Identities need not be positions, nor distinct. */
  predicate NodesSaveable(reg: Registry, fns: seq<FunctionDef>, nodes: seq<Widget>)
  {
    && (forall i :: 0 <= i < |nodes| ==> nodes[i].NodeW?)
    && (forall i :: 0 <= i < |nodes| ==> Resolvable(reg, fns, nodes[i].node))
    && (forall i :: 0 <= i < |nodes| ==> |nodes[i].inputs| == InputCount(nodes[i].node))
    && WiresFromArena(nodes)
  }

  /** What renumbering keeps: every widget stays a node widget with the same node,
      position and wire counts, and takes its position as identity; every wire keeps its
      output and relays and names the first saved widget carrying its old source. */
  lemma RenumberKeeps(nodes: seq<Widget>)
    requires AllNodes(nodes) && WiresFromArena(nodes)
    ensures |Renumber(nodes)| == |nodes| && AllNodes(Renumber(nodes))
    ensures forall i :: 0 <= i < |nodes| ==>
              && Renumber(nodes)[i].id == i && Renumber(nodes)[i].node == nodes[i].node
              && Renumber(nodes)[i].origin == nodes[i].origin
              && |Renumber(nodes)[i].inputs| == |nodes[i].inputs|
    ensures forall i, k :: 0 <= i < |nodes| && 0 <= k < |nodes[i].inputs| ==>
              |Renumber(nodes)[i].inputs[k]| == |nodes[i].inputs[k]|
    ensures forall i, k, m :: 0 <= i < |nodes| && 0 <= k < |nodes[i].inputs| && 0 <= m < |nodes[i].inputs[k]| ==>
              var a := nodes[i].inputs[k][m];
              var b := Renumber(nodes)[i].inputs[k][m];
              && b.source < |nodes| && nodes[b.source].id == a.source
              && (forall j :: 0 <= j < b.source ==> nodes[j].id != a.source)
              && b.output == a.output && b.relays == a.relays
  {
    var r := Renumber(nodes);
    forall i, k, m | 0 <= i < |nodes| && 0 <= k < |nodes[i].inputs| && 0 <= m < |nodes[i].inputs[k]|
      ensures r[i].inputs[k][m].source < |nodes| && nodes[r[i].inputs[k][m].source].id == nodes[i].inputs[k][m].source
      ensures forall j :: 0 <= j < r[i].inputs[k][m].source ==> nodes[j].id != nodes[i].inputs[k][m].source
    {
      var a := nodes[i].inputs[k][m];
      assert WireFromArena(nodes, a);
      var ids := Ids(nodes);
      var s := Seqs.IndexOf(ids, a.source);
      assert r[i].inputs[k][m] == a.(source := s);
      forall j | 0 <= j < s ensures nodes[j].id != a.source {
        assert ids[..s][j] == ids[j];
      }
    }
  }

  /** An arena whose identities already are the positions is left as it is. */
  lemma RenumberCanonicalIsIdentity(nodes: seq<Widget>)
    requires forall i :: 0 <= i < |nodes| ==> nodes[i].id == i
    ensures Renumber(nodes) == nodes
  {
    var r := Renumber(nodes);
    forall i | 0 <= i < |nodes| ensures r[i] == nodes[i] {
      if nodes[i].NodeW? {
        var ins := nodes[i].inputs;
        forall k | 0 <= k < |ins| ensures RenumberWires(nodes, ins[k]) == ins[k] {
          forall m | 0 <= m < |ins[k]| ensures RenumberWire(nodes, ins[k][m]) == ins[k][m] {
            var s := ins[k][m].source;
            if s < |nodes| {
              IndexOfCanonical(nodes, s);
            } else {
              assert s !in Ids(nodes);
            }
          }
        }
        assert RenumberInputs(nodes, ins) == ins;
      }
    }
  }

  /** Renumbering a saveable arena gives a canonical one. */
  lemma RenumberCanonical(reg: Registry, fns: seq<FunctionDef>, nodes: seq<Widget>)
    requires NodesSaveable(reg, fns, nodes)
    ensures NodesCanonical(reg, fns, Renumber(nodes))
  {
    var r := Renumber(nodes);
    forall i, k, m | 0 <= i < |r| && r[i].NodeW? && 0 <= k < |r[i].inputs| && 0 <= m < |r[i].inputs[k]|
      ensures WireValid(r, r[i].inputs[k][m])
    {
      assert WireFromArena(nodes, nodes[i].inputs[k][m]);
      assert r[i].inputs[k][m] == RenumberWire(nodes, nodes[i].inputs[k][m]);
    }
  }

  /** Identities of `r` that are positions, over as many widgets as `nodes`. */
  predicate Positional(nodes: seq<Widget>, r: seq<Widget>)
  {
    |r| == |nodes| && forall i :: 0 <= i < |r| ==> r[i].id == i
  }

  /** `save` writes a wire the same way before and after renumbering. */
  lemma EncodeWireRenumbered(nodes: seq<Widget>, r: seq<Widget>, w: Wire)
    requires Positional(nodes, r) && w.source in Ids(nodes)
    ensures EncodeWire(r, RenumberWire(nodes, w)) == EncodeWire(nodes, w)
  {
    IndexOfCanonical(r, Seqs.IndexOf(Ids(nodes), w.source));
  }

  lemma {:induction false} EncodeWiresRenumbered(nodes: seq<Widget>, r: seq<Widget>, ws: seq<Wire>)
    requires Positional(nodes, r)
    requires forall m :: 0 <= m < |ws| ==> ws[m].source in Ids(nodes)
    ensures EncodeWires(r, RenumberWires(nodes, ws)) == EncodeWires(nodes, ws)
    decreases ws
  {
    if ws != [] {
      var rw := RenumberWires(nodes, ws);
      assert rw[0] == RenumberWire(nodes, ws[0]) && rw[1..] == RenumberWires(nodes, ws[1..]);
      EncodeWireRenumbered(nodes, r, ws[0]);
      assert forall m :: 0 <= m < |ws[1..]| ==> ws[1..][m] == ws[m + 1];
      EncodeWiresRenumbered(nodes, r, ws[1..]);
    }
  }

  lemma {:induction false} EncodeInputsRenumbered(nodes: seq<Widget>, r: seq<Widget>, ins: seq<seq<Wire>>)
    requires Positional(nodes, r)
    requires forall k, m :: 0 <= k < |ins| && 0 <= m < |ins[k]| ==> ins[k][m].source in Ids(nodes)
    ensures EncodeInputs(r, RenumberInputs(nodes, ins)) == EncodeInputs(nodes, ins)
    decreases ins
  {
    if ins != [] {
      var ri := RenumberInputs(nodes, ins);
      assert ri[0] == RenumberWires(nodes, ins[0]) && ri[1..] == RenumberInputs(nodes, ins[1..]);
      EncodeWiresRenumbered(nodes, r, ins[0]);
      assert forall k :: 0 <= k < |ins[1..]| ==> ins[1..][k] == ins[k + 1];
      EncodeInputsRenumbered(nodes, r, ins[1..]);
    }
  }

  /** `save` writes the node records from position `j` on the same way before and after
      renumbering: the file does not depend on the identities, only on which saved
      widget each wire comes from. */
  lemma {:induction false} EncodeNodesRenumbered(nodes: seq<Widget>, r: seq<Widget>, j: nat)
    requires AllNodes(nodes) && WiresFromArena(nodes) && r == Renumber(nodes) && j <= |nodes|
    ensures AllNodes(nodes[j..]) && AllNodes(r[j..])
    ensures EncodeNodes(r, r[j..]) == EncodeNodes(nodes, nodes[j..])
    decreases |nodes| - j
  {
    assert AllNodes(nodes[j..]) && AllNodes(r[j..]) by {
      forall i | 0 <= i < |nodes| - j ensures nodes[j..][i].NodeW? && r[j..][i].NodeW? {
        assert nodes[j..][i] == nodes[j + i] && r[j..][i] == r[j + i];
      }
    }
    if j < |nodes| {
      EncodeNodesCons(r, r[j..]);
      EncodeNodesCons(nodes, nodes[j..]);
      assert r[j..][0] == r[j] && r[j..][1..] == r[j + 1..];
      assert nodes[j..][0] == nodes[j] && nodes[j..][1..] == nodes[j + 1..];
      var ins: seq<seq<Wire>> := nodes[j].inputs;
      forall k: int, m: int | 0 <= k < |ins| && 0 <= m < |ins[k]| ensures ins[k][m].source in Ids(nodes) {
        assert WireFromArena(nodes, ins[k][m]);
      }
      EncodeInputsRenumbered(nodes, r, ins);
      EncodeNodesRenumbered(nodes, r, j + 1);
    } else {
      assert r[j..] == [] && nodes[j..] == [];
    }
  }

  // ---------------------------------------------------------------------------
  // The whole file

  /** What `save` can write so that `load` gives the same editor back: struct tables
      the byte count and the empty resolution context can carry, function signatures
      that resolve against those structs, and resolvable node widgets whose wires come
      from node widgets of the arena. */
  predicate Saveable(reg: Registry, structs: seq<StructDef>, fns: seq<FunctionDef>, widgets: seq<Widget>)
  {
    && (forall i :: 0 <= i < |structs| ==> StructSaveable(structs[i]))
    && (forall i :: 0 <= i < |fns| ==> FunctionSaveable(fns[i], structs))
    && NodesSaveable(reg, fns, NodeWidgets(widgets))
  }

  lemma NodeTableRoundTrip(reg: Registry, fns: seq<FunctionDef>, nodes: seq<Widget>, version: int)
    requires NodesCanonical(reg, fns, nodes) && version >= 1
    ensures ReadNodes(EncodeNodes(nodes, nodes), |nodes|, version, reg, fns, [], [])
         == Ok(((Strips(nodes), PendNodes(0, nodes)), []))
    ensures Connect(Strips(nodes), PendNodes(0, nodes)) == Ok(Live(nodes))
  {
    forall i | 0 <= i < |nodes| ensures SourcesInRange(nodes, nodes[i]) {
      forall k, m | 0 <= k < |nodes[i].inputs| && 0 <= m < |nodes[i].inputs[k]|
        ensures nodes[i].inputs[k][m].source < |nodes|
      {
        assert WireValid(nodes, nodes[i].inputs[k][m]);
      }
    }
    assert EncodeNodes(nodes, nodes) + [] == EncodeNodes(nodes, nodes);
    NodesRoundTrip(nodes, reg, fns, nodes, [], version, [], []);
    assert [] + Strips(nodes) == Strips(nodes);
    assert [] + PendNodes(0, nodes) == PendNodes(0, nodes);
    assert nodes[0..] == nodes;
    NodesConnect(Strips(nodes), nodes, 0);
  }

  lemma TablesRoundTrip(reg: Registry, structs: seq<StructDef>, fns: seq<FunctionDef>, rest: seq<Token>, version: int)
    requires forall i :: 0 <= i < |structs| ==> StructSaveable(structs[i])
    requires forall i :: 0 <= i < |fns| ==> FunctionSaveable(fns[i], structs)
    ensures DecodeBody([TInt(|structs|)] + (EncodeStructs(structs) + ([TInt(|fns|)] + (EncodeFunctions(fns) + rest))),
                       version, reg)
         == DecodeNodes(rest, version, reg, structs, fns)
  {
    var t2 := EncodeFunctions(fns) + rest;
    var t1 := [TInt(|fns|)] + t2;
    var t0 := EncodeStructs(structs) + t1;
    Cons(TInt(|structs|), t0);
    StructsRoundTrip(structs, t1, []);
    assert [] + structs == structs;
    Cons(TInt(|fns|), t2);
    FunctionsRoundTrip(fns, rest, structs, []);
    assert [] + fns == fns;
  }

  /** Saving and loading gives back the saved part of the editor: the struct and
      function tables come back equal, the node widgets come back in order with their
      nodes, payloads, positions and wires, each carrying its position as identity and
      each wire naming its source by position (`Renumber`), and the slot count equals
      the node count. (Widgets that are not node widgets are not saved.) The migrations
      are required to leave a current-version stream alone. */
  lemma RoundTrip(reg: Registry, structs: seq<StructDef>, fns: seq<FunctionDef>, widgets: seq<Widget>,
                  migrate: (int, seq<Token>) -> seq<Token>)
    requires Saveable(reg, structs, fns, widgets)
    requires forall b :: migrate(CurrentVersion, b) == b
    ensures Decode(Encode(structs, fns, widgets), reg, migrate)
         == Ok(Loaded(structs, fns, Renumber(NodeWidgets(widgets)), |NodeWidgets(widgets)|))
  {
    var nodes := NodeWidgets(widgets);
    var r := Renumber(nodes);
    RenumberCanonical(reg, fns, nodes);
    EncodeNodesRenumbered(nodes, r, 0);
    assert r[0..] == r && nodes[0..] == nodes;
    ArenaRoundTrip(reg, structs, fns, r, migrate);
  }

  /** The file written for the tables and a canonical arena reads back as them. */
  lemma ArenaRoundTrip(reg: Registry, structs: seq<StructDef>, fns: seq<FunctionDef>, r: seq<Widget>,
                       migrate: (int, seq<Token>) -> seq<Token>)
    requires forall i :: 0 <= i < |structs| ==> StructSaveable(structs[i])
    requires forall i :: 0 <= i < |fns| ==> FunctionSaveable(fns[i], structs)
    requires NodesCanonical(reg, fns, r)
    requires forall b :: migrate(CurrentVersion, b) == b
    ensures AllNodes(r)
    ensures Decode([TInt(CurrentVersion)] + ([TInt(|structs|)] + (EncodeStructs(structs)
                     + ([TInt(|fns|)] + (EncodeFunctions(fns) + ([TInt(|r|)] + EncodeNodes(r, r)))))), reg, migrate)
         == Ok(Loaded(structs, fns, r, |r|))
  {
    var t4 := EncodeNodes(r, r);
    var t3 := [TInt(|r|)] + t4;
    var body := [TInt(|structs|)] + (EncodeStructs(structs) + ([TInt(|fns|)] + (EncodeFunctions(fns) + t3)));
    Cons(TInt(CurrentVersion), body);
    TablesRoundTrip(reg, structs, fns, t3, CurrentVersion);
    Cons(TInt(|r|), t4);
    NodeTableRoundTrip(reg, fns, r, CurrentVersion);
    PurgeLive(r);
  }

  /** An arena whose identities already are the positions comes back exactly. */
  lemma CanonicalRoundTrip(reg: Registry, structs: seq<StructDef>, fns: seq<FunctionDef>, widgets: seq<Widget>,
                           migrate: (int, seq<Token>) -> seq<Token>)
    requires Saveable(reg, structs, fns, widgets)
    requires forall i :: 0 <= i < |NodeWidgets(widgets)| ==> NodeWidgets(widgets)[i].id == i
    requires forall b :: migrate(CurrentVersion, b) == b
    ensures Decode(Encode(structs, fns, widgets), reg, migrate)
         == Ok(Loaded(structs, fns, NodeWidgets(widgets), |NodeWidgets(widgets)|))
  {
    RoundTrip(reg, structs, fns, widgets, migrate);
    RenumberCanonicalIsIdentity(NodeWidgets(widgets));
  }

  // ---------------------------------------------------------------------------
  // Any file: placeholders, identities and where wires land

  /** Every live slot's widget carries its slot index, offset by `base`, as identity. */
  predicate SlotIds(slots: seq<Slot>, base: nat)
  {
    forall i :: 0 <= i < |slots| && slots[i].Some? ==> slots[i].value.id == base + i
  }

  /** A wire whose source is a live node widget with that output. */
  predicate WireLands(slots: seq<Slot>, w: Wire)
  {
    && w.source < |slots| && slots[w.source].Some? && slots[w.source].value.NodeW?
    && 0 <= w.output < OutputCount(slots[w.source].value.node)
  }

  predicate Landed(slots: seq<Slot>)
  {
    forall i, k, m ::
      0 <= i < |slots| && slots[i].Some? && slots[i].value.NodeW? &&
      0 <= k < |slots[i].value.inputs| && 0 <= m < |slots[i].value.inputs[k]|
      ==> WireLands(slots, slots[i].value.inputs[k][m])
  }

  /** The wiring pass changes only the wire lists of live node widgets. */
  predicate Kept(a: Slot, b: Slot)
  {
    a == b ||
    (a.Some? && b.Some? && a.value.NodeW? && b.value.NodeW? &&
     b.value == a.value.(inputs := b.value.inputs) && |b.value.inputs| == |a.value.inputs|)
  }

  predicate AllKept(a: seq<Slot>, b: seq<Slot>)
  {
    |a| == |b| && forall i :: 0 <= i < |a| ==> Kept(a[i], b[i])
  }

  lemma LandsAfterKept(a: seq<Slot>, b: seq<Slot>, w: Wire)
    requires AllKept(a, b) && WireLands(a, w)
    ensures WireLands(b, w)
  {
    assert Kept(a[w.source], b[w.source]);
  }

  lemma ConnectStepKeeps(slots: seq<Slot>, p: Pending)
    requires ConnectStep(slots, p).Ok?
    ensures AllKept(slots, ConnectStep(slots, p).value)
    ensures Landed(slots) ==> Landed(ConnectStep(slots, p).value)
    ensures SlotIds(slots, 0) ==> SlotIds(ConnectStep(slots, p).value, 0)
  {
    var r := ConnectStep(slots, p).value;
    if r != slots {
      var c := p.consumer;
      var w := slots[c].value;
      var nw := Wire(p.source, p.output, p.relays);
      assert r == slots[c := Some(AddWires(w, p.input, [nw]))];
      assert Kept(slots[c], r[c]);
      assert AllKept(slots, r);
      if Landed(slots) {
        assert WireLands(r, nw);
        forall i, k, m |
          0 <= i < |r| && r[i].Some? && r[i].value.NodeW? &&
          0 <= k < |r[i].value.inputs| && 0 <= m < |r[i].value.inputs[k]|
          ensures WireLands(r, r[i].value.inputs[k][m])
        {
          if i == c && k == p.input && m == |w.inputs[k]| {
            assert r[i].value.inputs[k][m] == nw;
          } else {
            assert r[i].value.inputs[k][m] == slots[i].value.inputs[k][m];
            LandsAfterKept(slots, r, slots[i].value.inputs[k][m]);
          }
        }
      }
    }
  }

  lemma {:induction false} ConnectKeeps(slots: seq<Slot>, pend: seq<Pending>)
    requires Connect(slots, pend).Ok?
    ensures AllKept(slots, Connect(slots, pend).value)
    ensures Landed(slots) ==> Landed(Connect(slots, pend).value)
    ensures SlotIds(slots, 0) ==> SlotIds(Connect(slots, pend).value, 0)
    decreases |pend|
  {
    if pend != [] {
      var next := ConnectStep(slots, pend[0]).value;
      ConnectStepKeeps(slots, pend[0]);
      ConnectKeeps(next, pend[1..]);
      var r := Connect(slots, pend).value;
      forall i | 0 <= i < |slots| ensures Kept(slots[i], r[i]) {
        assert Kept(slots[i], next[i]) && Kept(next[i], r[i]);
      }
    }
  }

  /** Every live slot holds a node widget. */
  predicate NodeSlots(slots: seq<Slot>)
  {
    forall i :: 0 <= i < |slots| && slots[i].Some? ==> slots[i].value.NodeW?
  }

  lemma KeptNodeSlots(a: seq<Slot>, b: seq<Slot>)
    requires AllKept(a, b) && NodeSlots(a)
    ensures NodeSlots(b)
    ensures forall i :: 0 <= i < |a| ==> (a[i].None? <==> b[i].None?)
  {
    forall i | 0 <= i < |b| && b[i].Some? ensures b[i].value.NodeW? {
      assert Kept(a[i], b[i]);
    }
    forall i | 0 <= i < |a| ensures a[i].None? <==> b[i].None? {
      assert Kept(a[i], b[i]);
    }
  }

  /** A slot holding nothing, or a node widget numbered after the table with no wires,
      appended to a well-shaped table keeps it well-shaped. */
  lemma ShapeSnoc(slots: seq<Slot>, s: Slot)
    requires SlotIds(slots, 0) && Landed(slots) && NodeSlots(slots)
    requires s.Some? ==> s.value.NodeW? && s.value.id == |slots|
                         && forall k :: 0 <= k < |s.value.inputs| ==> s.value.inputs[k] == []
    ensures SlotIds(slots + [s], 0) && Landed(slots + [s]) && NodeSlots(slots + [s])
  {
    var r := slots + [s];
    forall i | 0 <= i < |r| && r[i].Some? ensures r[i].value.id == i && r[i].value.NodeW? {
      if i < |slots| {
        assert r[i] == slots[i];
      }
    }
    forall i, k, m |
      0 <= i < |r| && r[i].Some? && r[i].value.NodeW? &&
      0 <= k < |r[i].value.inputs| && 0 <= m < |r[i].value.inputs[k]|
      ensures WireLands(r, r[i].value.inputs[k][m])
    {
      assert i < |slots| && r[i] == slots[i];
      var w := slots[i].value.inputs[k][m];
      assert WireLands(slots, w);
      assert r[w.source] == slots[w.source];
    }
  }

  /** One record of the node table read ahead of the rest. */
  lemma ReadNodesStep(ts: seq<Token>, count: int, version: int, reg: Registry,
                      fns: seq<FunctionDef>, slots: seq<Slot>, pend: seq<Pending>)
    requires count > 0 && ReadNodes(ts, count, version, reg, fns, slots, pend).Ok?
    ensures ReadStr(ts).Ok? && ReadKind(ReadStr(ts).value.1, version).Ok?
    ensures var id := ReadStr(ts).value;
            var kind := ReadKind(id.1, version).value;
            match ResolveNode(id.0, kind.0, reg, fns)
            case None =>
              ReadNodes(ts, count, version, reg, fns, slots, pend)
                == ReadNodes(kind.1, count - 1, version, reg, fns, slots + [None], pend)
            case Some(t) =>
              && ReadNodeBody(kind.1, t, |slots|, pend).Ok?
              && var body := ReadNodeBody(kind.1, t, |slots|, pend).value;
                 ReadNodes(ts, count, version, reg, fns, slots, pend)
                   == ReadNodes(body.1, count - 1, version, reg, fns, slots + [Some(body.0.0)], body.0.1)
  {
  }

  /** Reading the node table leaves every live slot a node widget carrying its slot
      index and no wires yet. */
  /** A node record's body reads back as a wireless node widget numbered by its slot. */
  lemma ReadNodeBodyShape(ts: seq<Token>, t: Node, slot: nat, pend: seq<Pending>)
    requires ReadNodeBody(ts, t, slot, pend).Ok?
    ensures var w := ReadNodeBody(ts, t, slot, pend).value.0.0;
            w.NodeW? && w.id == slot && forall k :: 0 <= k < |w.inputs| ==> w.inputs[k] == []
  {
  }

  lemma {:induction false} ReadNodesShape(ts: seq<Token>, count: int, version: int, reg: Registry,
                                          fns: seq<FunctionDef>, slots: seq<Slot>, pend: seq<Pending>)
    requires SlotIds(slots, 0) && Landed(slots) && NodeSlots(slots)
    requires ReadNodes(ts, count, version, reg, fns, slots, pend).Ok?
    ensures var out := ReadNodes(ts, count, version, reg, fns, slots, pend).value.0.0;
            SlotIds(out, 0) && Landed(out) && NodeSlots(out) && |out| == |slots| + if count <= 0 then 0 else count
    decreases count
  {
    if count > 0 {
      ReadNodesStep(ts, count, version, reg, fns, slots, pend);
      var id := ReadStr(ts).value;
      var kind := ReadKind(id.1, version).value;
      match ResolveNode(id.0, kind.0, reg, fns)
      case None =>
        ShapeSnoc(slots, None);
        ReadNodesShape(kind.1, count - 1, version, reg, fns, slots + [None], pend);
      case Some(t) =>
        var body := ReadNodeBody(kind.1, t, |slots|, pend).value;
        var w := body.0.0;
        ReadNodeBodyShape(kind.1, t, |slots|, pend);
        ShapeSnoc(slots, Some(w));
        ReadNodesShape(body.1, count - 1, version, reg, fns, slots + [Some(w)], body.0.1);
    }
  }

  // ---------------------------------------------------------------------------
  // The purge of placeholders

  lemma {:induction false} PurgeMembers(slots: seq<Slot>)
    ensures forall w :: w in Purge(slots) <==> Some(w) in slots
    decreases slots
  {
    if slots != [] {
      PurgeMembers(slots[1..]);
      assert slots == [slots[0]] + slots[1..];
    }
  }

  /** The purge drops exactly the placeholders. */
  lemma {:induction false} PurgeLength(slots: seq<Slot>)
    ensures |Purge(slots)| == |slots| - Seqs.Count(slots, None)
    decreases slots
  {
    if slots != [] {
      PurgeLength(slots[1..]);
      assert slots == [slots[0]] + slots[1..];
      assert multiset(slots) == multiset{slots[0]} + multiset(slots[1..]);
    }
  }

  /** Purged widgets keep their slot order, so their identities strictly increase. */
  lemma {:induction false} PurgeIdsIncrease(slots: seq<Slot>, base: nat)
    requires SlotIds(slots, base)
    ensures forall i :: 0 <= i < |Purge(slots)| ==> base <= Purge(slots)[i].id < base + |slots|
    ensures forall i, j :: 0 <= i < j < |Purge(slots)| ==> Purge(slots)[i].id < Purge(slots)[j].id
    decreases slots
  {
    if slots != [] {
      assert SlotIds(slots[1..], base + 1) by {
        forall i | 0 <= i < |slots[1..]| && slots[1..][i].Some? ensures slots[1..][i].value.id == base + 1 + i {
          assert slots[1..][i] == slots[i + 1];
        }
      }
      PurgeIdsIncrease(slots[1..], base + 1);
    }
  }

  /** Whatever the file holds, a successful load yields node widgets with distinct
      identities below the slot count, in increasing order, and every wire names the
      identity of a loaded node widget that has the wire's output: a wire whose source
      record was a placeholder is dropped, never left dangling. */
  lemma LoadedGraphWellFormed(ts: seq<Token>, version: int, reg: Registry, sts: seq<StructDef>, fns: seq<FunctionDef>)
    requires DecodeNodes(ts, version, reg, sts, fns).Ok?
    ensures var l := DecodeNodes(ts, version, reg, sts, fns).value;
            && |l.widgets| <= l.slotCount
            && (forall i :: 0 <= i < |l.widgets| ==> l.widgets[i].NodeW? && l.widgets[i].id < l.slotCount)
            && (forall i, j :: 0 <= i < j < |l.widgets| ==> l.widgets[i].id < l.widgets[j].id)
            && (forall i, k, m ::
                  0 <= i < |l.widgets| && 0 <= k < |l.widgets[i].inputs| && 0 <= m < |l.widgets[i].inputs[k]|
                  ==> exists v :: v in l.widgets && v.NodeW? && v.id == l.widgets[i].inputs[k][m].source
                                  && 0 <= l.widgets[i].inputs[k][m].output < OutputCount(v.node))
  {
    var nodeCount := ReadInt(ts).value;
    var table := ReadNodes(nodeCount.1, nodeCount.0, version, reg, fns, [], []).value;
    var linked := Connect(table.0.0, table.0.1).value;
    var l := DecodeNodes(ts, version, reg, sts, fns).value;
    assert l.widgets == Purge(linked) && l.slotCount == |linked|;
    ReadNodesShape(nodeCount.1, nodeCount.0, version, reg, fns, [], []);
    ConnectKeeps(table.0.0, table.0.1);
    KeptNodeSlots(table.0.0, linked);
    PurgeMembers(linked);
    PurgeIdsIncrease(linked, 0);
    PurgeLength(linked);
    forall i | 0 <= i < |l.widgets| ensures l.widgets[i].NodeW? {
      var j :| 0 <= j < |linked| && linked[j] == Some(l.widgets[i]);
    }
    forall i, k, m | 0 <= i < |l.widgets| && 0 <= k < |l.widgets[i].inputs| && 0 <= m < |l.widgets[i].inputs[k]|
      ensures exists v :: v in l.widgets && v.NodeW? && v.id == l.widgets[i].inputs[k][m].source
                          && 0 <= l.widgets[i].inputs[k][m].output < OutputCount(v.node)
    {
      var j :| 0 <= j < |linked| && linked[j] == Some(l.widgets[i]);
      var wire := l.widgets[i].inputs[k][m];
      assert WireLands(linked, wire);
      var v := linked[wire.source].value;
      assert Some(v) in linked;
    }
  }

  lemma DecodeWellFormed(ts: seq<Token>, reg: Registry, migrate: (int, seq<Token>) -> seq<Token>)
    requires Decode(ts, reg, migrate).Ok?
    ensures var l := Decode(ts, reg, migrate).value;
            && |l.widgets| <= l.slotCount
            && (forall i :: 0 <= i < |l.widgets| ==> l.widgets[i].NodeW? && l.widgets[i].id < l.slotCount)
            && (forall i, j :: 0 <= i < j < |l.widgets| ==> l.widgets[i].id < l.widgets[j].id)
  {
    var version := ReadInt(ts).value;
    var body := migrate(version.0, version.1);
    var stCount := ReadInt(body).value;
    var sts := ReadStructs(stCount.1, stCount.0, []).value;
    var fnCount := ReadInt(sts.1).value;
    var fns := ReadFunctions(fnCount.1, fnCount.0, sts.0, []).value;
    assert Decode(ts, reg, migrate) == DecodeNodes(fns.1, version.0, reg, sts.0, fns.0);
    LoadedGraphWellFormed(fns.1, version.0, reg, sts.0, fns.0);
  }

  // ---------------------------------------------------------------------------
  // Unresolved records

  /** A record whose node no longer resolves leaves a placeholder, but its payload,
      position and wires are not skipped: the next record is read from its payload
      token, which is not a name, and the whole load fails. */
  lemma UnresolvedRecordMisaligns(nodes: seq<Widget>, reg: Registry, fns: seq<FunctionDef>, w: Widget,
                                  tail: seq<Token>, count: int, version: int, slots: seq<Slot>, pend: seq<Pending>)
    requires w.NodeW? && ResolveNode(BaseName(w.node), KindByte(w.node), reg, fns).None?
    requires count >= 2 && version >= 1
    ensures ReadNodes(EncodeNode(nodes, w) + tail, count, version, reg, fns, slots, pend) == Err(Malformed)
  {
    var after := EncodeNode(nodes, w)[2..] + tail;
    assert EncodeNode(nodes, w) + tail == [TStr(BaseName(w.node))] + ([TByte(KindByte(w.node))] + after);
    Cons(TStr(BaseName(w.node)), [TByte(KindByte(w.node))] + after);
    Cons(TByte(KindByte(w.node)), after);
    assert after[0] == TData(w.node.data);
    assert ReadNodes(after, count - 1, version, reg, fns, slots + [None], pend) == Err(Malformed);
  }

  /** An unresolved last record only leaves a placeholder, which the purge removes; the
      unread rest of the record is left over. */
  lemma UnresolvedLastRecordDropped(nodes: seq<Widget>, reg: Registry, fns: seq<FunctionDef>, w: Widget,
                                    tail: seq<Token>, version: int, slots: seq<Slot>, pend: seq<Pending>)
    requires w.NodeW? && ResolveNode(BaseName(w.node), KindByte(w.node), reg, fns).None? && version >= 1
    ensures ReadNodes(EncodeNode(nodes, w) + tail, 1, version, reg, fns, slots, pend)
         == Ok(((slots + [None], pend), EncodeNode(nodes, w)[2..] + tail))
    ensures Purge(slots + [None]) == Purge(slots)
    ensures forall p: Pending :: p.source == |slots| ==> ConnectStep(slots + [None], p) == Ok(slots + [None])
  {
    var after := EncodeNode(nodes, w)[2..] + tail;
    assert EncodeNode(nodes, w) + tail == [TStr(BaseName(w.node))] + ([TByte(KindByte(w.node))] + after);
    Cons(TStr(BaseName(w.node)), [TByte(KindByte(w.node))] + after);
    Cons(TByte(KindByte(w.node)), after);
    PurgeSnocNone(slots);
  }

  lemma {:induction false} PurgeSnocNone(slots: seq<Slot>)
    ensures Purge(slots + [None]) == Purge(slots)
    decreases slots
  {
    if slots == [] {
      assert Purge([None]) == Purge([]);
    } else {
      assert (slots + [None])[1..] == slots[1..] + [None];
      PurgeSnocNone(slots[1..]);
    }
  }

  // ---------------------------------------------------------------------------
  // Wires from placeholders

  /** A queued wire whose source slot is a placeholder (a record that did not resolve). */
  predicate FromPlaceholder(slots: seq<Slot>, p: Pending)
  {
    0 <= p.source < |slots| && slots[p.source].None?
  }

  /** The queued wires that do not come from a placeholder, in order. */
  function Unskipped(slots: seq<Slot>, pend: seq<Pending>): (r: seq<Pending>)
    ensures |r| <= |pend|
    ensures forall i :: 0 <= i < |r| ==> r[i] in pend && !FromPlaceholder(slots, r[i])
    ensures forall i :: 0 <= i < |pend| && !FromPlaceholder(slots, pend[i]) ==> pend[i] in r
  {
    if pend == [] then []
    else if FromPlaceholder(slots, pend[0]) then Unskipped(slots, pend[1..])
    else [pend[0]] + Unskipped(slots, pend[1..])
  }

  lemma {:induction false} UnskippedSameHoles(a: seq<Slot>, b: seq<Slot>, pend: seq<Pending>)
    requires AllKept(a, b)
    ensures Unskipped(a, pend) == Unskipped(b, pend)
    decreases pend
  {
    if pend != [] {
      assert FromPlaceholder(a, pend[0]) <==> FromPlaceholder(b, pend[0]) by {
        if 0 <= pend[0].source < |a| {
          assert Kept(a[pend[0].source], b[pend[0].source]);
        }
      }
      UnskippedSameHoles(a, b, pend[1..]);
    }
  }

  /** The wiring pass skips every wire from a placeholder: it neither fails on it nor
      adds it, so the pass over the whole queue is the pass over the other wires. In
      particular a queue of such wires alone succeeds and changes nothing. */
  lemma {:induction false} PlaceholderWiresSkipped(slots: seq<Slot>, pend: seq<Pending>)
    ensures Connect(slots, pend) == Connect(slots, Unskipped(slots, pend))
    ensures Unskipped(slots, pend) == [] ==> Connect(slots, pend) == Ok(slots)
    decreases pend
  {
    if pend != [] {
      var rest := Unskipped(slots, pend[1..]);
      if FromPlaceholder(slots, pend[0]) {
        assert ConnectStep(slots, pend[0]) == Ok(slots);
        PlaceholderWiresSkipped(slots, pend[1..]);
      } else {
        var u := Unskipped(slots, pend);
        assert u == [pend[0]] + rest && u[0] == pend[0] && u[1..] == rest;
        var step := ConnectStep(slots, pend[0]);
        if step.Ok? {
          ConnectStepKeeps(slots, pend[0]);
          PlaceholderWiresSkipped(step.value, pend[1..]);
          UnskippedSameHoles(slots, step.value, pend[1..]);
        }
      }
    }
  }

  /** A queued wire from a placeholder slot is skipped by its step of the pass. */
  lemma PlaceholderWireSkipped(slots: seq<Slot>, p: Pending)
    requires FromPlaceholder(slots, p)
    ensures ConnectStep(slots, p) == Ok(slots)
    ensures Connect(slots, [p]) == Ok(slots)
  {
    PlaceholderWiresSkipped(slots, [p]);
  }
}
