/**
 * The loops of the editor's `save` and `load`, over a token buffer. Each loop is proved
 * to compute the codec function that specifies it; the round-trip and placeholder
 * properties are proved about those functions.
 */
module Persistence {

  import opened Wrappers
  import opened Graph
  import opened Codec
  import opened NodeCodec
  import Seqs

  /** The `NetworkBuffer` being written: the tokens appended so far. */
  class TokenBuffer {
    var tokens: seq<Token>

    constructor ()
      ensures tokens == []
    {
      tokens := [];
    }

    method Write(t: Token)
      modifies this
      ensures tokens == old(tokens) + [t]
    {
      tokens := tokens + [t];
    }
  }

  // ---------------------------------------------------------------------------
  // The encoders distribute over concatenation

  lemma {:induction false} EncodePortsAppend(a: seq<Port>, b: seq<Port>)
    ensures EncodePorts(a + b) == EncodePorts(a) + EncodePorts(b)
    decreases a
  {
    if a == [] {
      assert a + b == b;
    } else {
      assert (a + b)[1..] == a[1..] + b;
      EncodePortsAppend(a[1..], b);
    }
  }

  lemma {:induction false} EncodeStructsAppend(a: seq<StructDef>, b: seq<StructDef>)
    ensures EncodeStructs(a + b) == EncodeStructs(a) + EncodeStructs(b)
    decreases a
  {
    if a == [] {
      assert a + b == b;
    } else {
      assert (a + b)[1..] == a[1..] + b;
      EncodeStructsAppend(a[1..], b);
    }
  }

  lemma {:induction false} EncodeFunctionsAppend(a: seq<FunctionDef>, b: seq<FunctionDef>)
    ensures EncodeFunctions(a + b) == EncodeFunctions(a) + EncodeFunctions(b)
    decreases a
  {
    if a == [] {
      assert a + b == b;
    } else {
      assert (a + b)[1..] == a[1..] + b;
      EncodeFunctionsAppend(a[1..], b);
    }
  }

  lemma {:induction false} EncodeRelaysAppend(a: seq<Point>, b: seq<Point>)
    ensures EncodeRelays(a + b) == EncodeRelays(a) + EncodeRelays(b)
    decreases a
  {
    if a == [] {
      assert a + b == b;
    } else {
      assert (a + b)[1..] == a[1..] + b;
      EncodeRelaysAppend(a[1..], b);
    }
  }

  lemma {:induction false} EncodeWiresAppend(nodes: seq<Widget>, a: seq<Wire>, b: seq<Wire>)
    ensures EncodeWires(nodes, a + b) == EncodeWires(nodes, a) + EncodeWires(nodes, b)
    decreases a
  {
    if a == [] {
      assert a + b == b;
    } else {
      assert (a + b)[1..] == a[1..] + b;
      EncodeWiresAppend(nodes, a[1..], b);
    }
  }

  lemma {:induction false} EncodeInputsAppend(nodes: seq<Widget>, a: seq<seq<Wire>>, b: seq<seq<Wire>>)
    ensures EncodeInputs(nodes, a + b) == EncodeInputs(nodes, a) + EncodeInputs(nodes, b)
    decreases a
  {
    if a == [] {
      assert a + b == b;
    } else {
      assert (a + b)[1..] == a[1..] + b;
      EncodeInputsAppend(nodes, a[1..], b);
    }
  }

  lemma {:induction false} EncodeNodesAppend(nodes: seq<Widget>, a: seq<Widget>, b: seq<Widget>)
    requires AllNodes(a) && AllNodes(b)
    ensures AllNodes(a + b)
    ensures EncodeNodes(nodes, a + b) == EncodeNodes(nodes, a) + EncodeNodes(nodes, b)
    decreases a
  {
    AllNodesAppend(a, b);
    if a == [] {
      assert a + b == b;
    } else {
      var ab := a + b;
      Seqs.TailOfAppend(a, b);
      EncodeNodesCons(nodes, a);
      EncodeNodesCons(nodes, ab);
      EncodeNodesAppend(nodes, a[1..], b);
      Seqs.AppendAssoc(EncodeNode(nodes, a[0]), EncodeNodes(nodes, a[1..]), EncodeNodes(nodes, b));
    }
  }

  lemma {:induction false} NodeWidgetsAppend(a: seq<Widget>, b: seq<Widget>)
    ensures NodeWidgets(a + b) == NodeWidgets(a) + NodeWidgets(b)
    decreases a
  {
    if a == [] {
      assert a + b == b;
    } else {
      assert (a + b)[1..] == a[1..] + b;
      NodeWidgetsAppend(a[1..], b);
    }
  }

  lemma NodeWidgetsSnoc(ws: seq<Widget>, i: nat)
    requires i < |ws|
    ensures NodeWidgets(ws[..i + 1]) == NodeWidgets(ws[..i]) + if ws[i].NodeW? then [ws[i]] else []
  {
    Seqs.TakeSnoc(ws, i);
    NodeWidgetsAppend(ws[..i], [ws[i]]);
    assert [ws[i]][1..] == [];
  }

  // ---------------------------------------------------------------------------
  // Each step lemma below: the encoding of a prefix one element longer is the encoding
  // of the prefix followed by that element's record.

  lemma EncodePortsStep(ps: seq<Port>, i: nat)
    requires i < |ps|
    ensures EncodePorts(ps[..i + 1]) == EncodePorts(ps[..i]) + EncodePort(ps[i])
  {
    Seqs.TakeSnoc(ps, i);
    EncodePortsAppend(ps[..i], [ps[i]]);
    assert EncodePorts([ps[i]]) == EncodePort(ps[i]) + EncodePorts([]);
  }

  lemma EncodeStructsStep(sts: seq<StructDef>, i: nat)
    requires i < |sts|
    ensures EncodeStructs(sts[..i + 1]) == EncodeStructs(sts[..i]) + EncodeStruct(sts[i])
  {
    Seqs.TakeSnoc(sts, i);
    EncodeStructsAppend(sts[..i], [sts[i]]);
    assert EncodeStructs([sts[i]]) == EncodeStruct(sts[i]) + EncodeStructs([]);
  }

  lemma EncodeFunctionsStep(fns: seq<FunctionDef>, i: nat)
    requires i < |fns|
    ensures EncodeFunctions(fns[..i + 1]) == EncodeFunctions(fns[..i]) + EncodeFunction(fns[i])
  {
    Seqs.TakeSnoc(fns, i);
    EncodeFunctionsAppend(fns[..i], [fns[i]]);
    assert EncodeFunctions([fns[i]]) == EncodeFunction(fns[i]) + EncodeFunctions([]);
  }

  lemma EncodeRelaysStep(rs: seq<Point>, i: nat)
    requires i < |rs|
    ensures EncodeRelays(rs[..i + 1]) == EncodeRelays(rs[..i]) + [TDouble(rs[i].x), TDouble(rs[i].y)]
  {
    Seqs.TakeSnoc(rs, i);
    EncodeRelaysAppend(rs[..i], [rs[i]]);
    assert EncodeRelays([rs[i]]) == [TDouble(rs[i].x), TDouble(rs[i].y)] + EncodeRelays([]);
  }

  lemma EncodeWiresStep(nodes: seq<Widget>, ws: seq<Wire>, i: nat)
    requires i < |ws|
    ensures EncodeWires(nodes, ws[..i + 1]) == EncodeWires(nodes, ws[..i]) + EncodeWire(nodes, ws[i])
  {
    Seqs.TakeSnoc(ws, i);
    EncodeWiresAppend(nodes, ws[..i], [ws[i]]);
    assert EncodeWires(nodes, [ws[i]]) == EncodeWire(nodes, ws[i]) + EncodeWires(nodes, []);
  }

  lemma EncodeInputsStep(nodes: seq<Widget>, ins: seq<seq<Wire>>, i: nat)
    requires i < |ins|
    ensures EncodeInputs(nodes, ins[..i + 1]) == EncodeInputs(nodes, ins[..i]) + EncodeInput(nodes, ins[i])
  {
    Seqs.TakeSnoc(ins, i);
    EncodeInputsAppend(nodes, ins[..i], [ins[i]]);
    assert EncodeInputs(nodes, [ins[i]]) == EncodeInput(nodes, ins[i]) + EncodeInputs(nodes, []);
  }

  lemma EncodeOneNode(nodes: seq<Widget>, n: Widget)
    requires n.NodeW?
    ensures AllNodes([n]) && EncodeNodes(nodes, [n]) == EncodeNode(nodes, n)
  {
    assert [n][1..] == [];
  }

  lemma EncodeNodesStep(nodes: seq<Widget>, i: nat)
    requires AllNodes(nodes) && i < |nodes|
    ensures AllNodes(nodes[..i]) && AllNodes(nodes[..i + 1])
    ensures EncodeNodes(nodes, nodes[..i + 1]) == EncodeNodes(nodes, nodes[..i]) + EncodeNode(nodes, nodes[i])
  {
    Seqs.TakeSnoc(nodes, i);
    EncodeOneNode(nodes, nodes[i]);
    EncodeNodesAppend(nodes, nodes[..i], [nodes[i]]);
  }

  // ---------------------------------------------------------------------------
  // `save`: the nested writing loops. Every loop keeps the tokens written so far equal
  // to the encoding of the prefix it has gone through.

  method WritePorts(buf: TokenBuffer, ps: seq<Port>)
    modifies buf
    ensures buf.tokens == old(buf.tokens) + EncodePorts(ps)
  {
    for i := 0 to |ps|
      invariant buf.tokens == old(buf.tokens) + EncodePorts(ps[..i])
    {
      ghost var before := buf.tokens;
      buf.Write(TStr(ps[i].name));
      buf.Write(TValue(ps[i].ty));
      assert buf.tokens == before + EncodePort(ps[i]);
      EncodePortsStep(ps, i);
      Seqs.AppendAssoc(old(buf.tokens), EncodePorts(ps[..i]), EncodePort(ps[i]));
    }
    assert ps[..|ps|] == ps;
  }

  method WriteStruct(buf: TokenBuffer, st: StructDef)
    modifies buf
    ensures buf.tokens == old(buf.tokens) + EncodeStruct(st)
  {
    buf.Write(TStr(st.name));
    buf.Write(TByte(ToByte(|st.fields|)));
    ghost var header := buf.tokens;
    assert header == old(buf.tokens) + [TStr(st.name), TByte(ToByte(|st.fields|))];
    WritePorts(buf, st.fields);
    Seqs.AppendAssoc(old(buf.tokens), [TStr(st.name), TByte(ToByte(|st.fields|))], EncodePorts(st.fields));
  }

  method WriteStructs(buf: TokenBuffer, sts: seq<StructDef>)
    modifies buf
    ensures buf.tokens == old(buf.tokens) + EncodeStructs(sts)
  {
    for i := 0 to |sts|
      invariant buf.tokens == old(buf.tokens) + EncodeStructs(sts[..i])
    {
      WriteStruct(buf, sts[i]);
      EncodeStructsStep(sts, i);
      Seqs.AppendAssoc(old(buf.tokens), EncodeStructs(sts[..i]), EncodeStruct(sts[i]));
    }
    assert sts[..|sts|] == sts;
  }

  method WriteFunction(buf: TokenBuffer, fn: FunctionDef)
    modifies buf
    ensures buf.tokens == old(buf.tokens) + EncodeFunction(fn)
  {
    buf.Write(TStr(fn.name));
    buf.Write(TInt(|fn.inputs|));
    ghost var header := [TStr(fn.name), TInt(|fn.inputs|)];
    assert buf.tokens == old(buf.tokens) + header;
    WritePorts(buf, fn.inputs);
    Seqs.AppendAssoc(old(buf.tokens), header, EncodePorts(fn.inputs));
    ghost var mid := buf.tokens;
    buf.Write(TInt(|fn.outputs|));
    WritePorts(buf, fn.outputs);
    assert buf.tokens == mid + ([TInt(|fn.outputs|)] + EncodePorts(fn.outputs));
    Seqs.AppendAssoc(old(buf.tokens), header + EncodePorts(fn.inputs), [TInt(|fn.outputs|)] + EncodePorts(fn.outputs));
  }

  method WriteFunctions(buf: TokenBuffer, fns: seq<FunctionDef>)
    modifies buf
    ensures buf.tokens == old(buf.tokens) + EncodeFunctions(fns)
  {
    for i := 0 to |fns|
      invariant buf.tokens == old(buf.tokens) + EncodeFunctions(fns[..i])
    {
      WriteFunction(buf, fns[i]);
      EncodeFunctionsStep(fns, i);
      Seqs.AppendAssoc(old(buf.tokens), EncodeFunctions(fns[..i]), EncodeFunction(fns[i]));
    }
    assert fns[..|fns|] == fns;
  }

  method WriteRelays(buf: TokenBuffer, rs: seq<Point>)
    modifies buf
    ensures buf.tokens == old(buf.tokens) + EncodeRelays(rs)
  {
    for i := 0 to |rs|
      invariant buf.tokens == old(buf.tokens) + EncodeRelays(rs[..i])
    {
      ghost var before := buf.tokens;
      buf.Write(TDouble(rs[i].x));
      buf.Write(TDouble(rs[i].y));
      assert buf.tokens == before + [TDouble(rs[i].x), TDouble(rs[i].y)];
      EncodeRelaysStep(rs, i);
      Seqs.AppendAssoc(old(buf.tokens), EncodeRelays(rs[..i]), [TDouble(rs[i].x), TDouble(rs[i].y)]);
    }
    assert rs[..|rs|] == rs;
  }

  /** A wire's source is written as its position among the saved node widgets. */
  method WriteWire(buf: TokenBuffer, nodes: seq<Widget>, w: Wire)
    modifies buf
    ensures buf.tokens == old(buf.tokens) + EncodeWire(nodes, w)
  {
    ghost var header := [TInt(Seqs.IndexOf(Ids(nodes), w.source)), TInt(w.output), TInt(|w.relays|)];
    buf.Write(TInt(Seqs.IndexOf(Ids(nodes), w.source)));
    buf.Write(TInt(w.output));
    buf.Write(TInt(|w.relays|));
    assert buf.tokens == old(buf.tokens) + header;
    WriteRelays(buf, w.relays);
    Seqs.AppendAssoc(old(buf.tokens), header, EncodeRelays(w.relays));
  }

  method WriteWires(buf: TokenBuffer, nodes: seq<Widget>, ws: seq<Wire>)
    modifies buf
    ensures buf.tokens == old(buf.tokens) + EncodeWires(nodes, ws)
  {
    for i := 0 to |ws|
      invariant buf.tokens == old(buf.tokens) + EncodeWires(nodes, ws[..i])
    {
      WriteWire(buf, nodes, ws[i]);
      EncodeWiresStep(nodes, ws, i);
      Seqs.AppendAssoc(old(buf.tokens), EncodeWires(nodes, ws[..i]), EncodeWire(nodes, ws[i]));
    }
    assert ws[..|ws|] == ws;
  }

  method WriteInput(buf: TokenBuffer, nodes: seq<Widget>, ws: seq<Wire>)
    modifies buf
    ensures buf.tokens == old(buf.tokens) + EncodeInput(nodes, ws)
  {
    buf.Write(TInt(|ws|));
    WriteWires(buf, nodes, ws);
    Seqs.AppendAssoc(old(buf.tokens), [TInt(|ws|)], EncodeWires(nodes, ws));
  }

  method WriteInputs(buf: TokenBuffer, nodes: seq<Widget>, ins: seq<seq<Wire>>)
    modifies buf
    ensures buf.tokens == old(buf.tokens) + EncodeInputs(nodes, ins)
  {
    for i := 0 to |ins|
      invariant buf.tokens == old(buf.tokens) + EncodeInputs(nodes, ins[..i])
    {
      WriteInput(buf, nodes, ins[i]);
      EncodeInputsStep(nodes, ins, i);
      Seqs.AppendAssoc(old(buf.tokens), EncodeInputs(nodes, ins[..i]), EncodeInput(nodes, ins[i]));
    }
    assert ins[..|ins|] == ins;
  }

  method WriteNode(buf: TokenBuffer, nodes: seq<Widget>, n: Widget)
    requires n.NodeW?
    modifies buf
    ensures buf.tokens == old(buf.tokens) + EncodeNode(nodes, n)
  {
    ghost var header := [TStr(BaseName(n.node)), TByte(KindByte(n.node)), TData(n.node.data),
                         TDouble(n.origin.x), TDouble(n.origin.y), TInt(|n.inputs|)];
    buf.Write(TStr(BaseName(n.node)));
    buf.Write(TByte(KindByte(n.node)));
    buf.Write(TData(n.node.data));
    buf.Write(TDouble(n.origin.x));
    buf.Write(TDouble(n.origin.y));
    buf.Write(TInt(|n.inputs|));
    assert buf.tokens == old(buf.tokens) + header;
    WriteInputs(buf, nodes, n.inputs);
    Seqs.AppendAssoc(old(buf.tokens), header, EncodeInputs(nodes, n.inputs));
  }

  method WriteNodes(buf: TokenBuffer, nodes: seq<Widget>)
    requires AllNodes(nodes)
    modifies buf
    ensures buf.tokens == old(buf.tokens) + EncodeNodes(nodes, nodes)
  {
    assert AllNodes(nodes[..0]);
    for i := 0 to |nodes|
      invariant AllNodes(nodes[..i])
      invariant buf.tokens == old(buf.tokens) + EncodeNodes(nodes, nodes[..i])
    {
      WriteNode(buf, nodes, nodes[i]);
      EncodeNodesStep(nodes, i);
      Seqs.AppendAssoc(old(buf.tokens), EncodeNodes(nodes, nodes[..i]), EncodeNode(nodes, nodes[i]));
    }
    assert nodes[..|nodes|] == nodes;
  }

  /** The node widgets of the arena, collected in order as `save` does. */
  method CollectNodes(widgets: seq<Widget>) returns (nodes: seq<Widget>)
    ensures nodes == NodeWidgets(widgets)
  {
    nodes := [];
    for i := 0 to |widgets|
      invariant nodes == NodeWidgets(widgets[..i])
    {
      if widgets[i].NodeW? {
        nodes := nodes + [widgets[i]];
      }
      NodeWidgetsSnoc(widgets, i);
    }
    assert widgets[..|widgets|] == widgets;
  }

  // ---------------------------------------------------------------------------
  // `load`: the reading loops. Each returns the first read failure it meets, or what
  // it read together with the unread rest of the stream.

  method LoadPorts(ts: seq<Token>, count: int, known: seq<StructDef>) returns (r: Read<seq<Port>>)
    ensures r == ReadPorts(ts, count, known, [])
  {
    var rest, ports, i := ts, [], 0;
    ghost var whole := ReadPorts(ts, count, known, []);
    while i < count
      invariant count > 0 ==> i <= count
      invariant whole == ReadPorts(rest, count - i, known, ports)
      decreases count - i
    {
      var name := ReadStr(rest);
      if name.Err? { return Err(name.error); }
      var ty := ReadValue(name.value.1, known);
      if ty.Err? { return Err(ty.error); }
      ports := ports + [Port(name.value.0, ty.value.0)];
      rest := ty.value.1;
      i := i + 1;
    }
    return Ok((ports, rest));
  }

  /** One struct record; its fields are decoded with no structs known. */
  method LoadStruct(ts: seq<Token>) returns (r: Read<StructDef>)
    ensures r == ReadStruct(ts)
  {
    var name := ReadStr(ts);
    if name.Err? { return Err(name.error); }
    var len := ReadByte(name.value.1);
    if len.Err? { return Err(len.error); }
    if len.value.0 < 0 { return Err(NegativeCapacity(len.value.0)); }
    var fields := LoadPorts(len.value.1, len.value.0, []);
    if fields.Err? { return Err(fields.error); }
    return Ok((StructDef(name.value.0, fields.value.0), fields.value.1));
  }

  method LoadStructs(ts: seq<Token>, count: int) returns (r: Read<seq<StructDef>>)
    ensures r == ReadStructs(ts, count, [])
  {
    var rest, sts, i := ts, [], 0;
    ghost var whole := ReadStructs(ts, count, []);
    while i < count
      invariant count > 0 ==> i <= count
      invariant whole == ReadStructs(rest, count - i, sts)
      decreases count - i
    {
      ReadStructsStep(rest, count - i, sts);
      var st := LoadStruct(rest);
      if st.Err? { return Err(st.error); }
      sts := sts + [st.value.0];
      rest := st.value.1;
      i := i + 1;
    }
    return Ok((sts, rest));
  }

  /** One function record; its port types are decoded against the structs loaded. */
  method LoadFunction(ts: seq<Token>, known: seq<StructDef>) returns (r: Read<FunctionDef>)
    ensures r == ReadFunction(ts, known)
  {
    var name := ReadStr(ts);
    if name.Err? { return Err(name.error); }
    var inCount := ReadInt(name.value.1);
    if inCount.Err? { return Err(inCount.error); }
    if inCount.value.0 < 0 { return Err(NegativeCapacity(inCount.value.0)); }
    var inputs := LoadPorts(inCount.value.1, inCount.value.0, known);
    if inputs.Err? { return Err(inputs.error); }
    var outCount := ReadInt(inputs.value.1);
    if outCount.Err? { return Err(outCount.error); }
    if outCount.value.0 < 0 { return Err(NegativeCapacity(outCount.value.0)); }
    var outputs := LoadPorts(outCount.value.1, outCount.value.0, known);
    if outputs.Err? { return Err(outputs.error); }
    return Ok((FunctionDef(name.value.0, inputs.value.0, outputs.value.0), outputs.value.1));
  }

  method LoadFunctions(ts: seq<Token>, count: int, known: seq<StructDef>) returns (r: Read<seq<FunctionDef>>)
    ensures r == ReadFunctions(ts, count, known, [])
  {
    var rest, fns, i := ts, [], 0;
    ghost var whole := ReadFunctions(ts, count, known, []);
    while i < count
      invariant count > 0 ==> i <= count
      invariant whole == ReadFunctions(rest, count - i, known, fns)
      decreases count - i
    {
      ghost var left := count - i;
      ReadFunctionsStep(rest, left, known, fns);
      var fn := LoadFunction(rest, known);
      if fn.Err? { return Err(fn.error); }
      fns := fns + [fn.value.0];
      rest := fn.value.1;
      i := i + 1;
      assert count - i == left - 1;
    }
    return Ok((fns, rest));
  }

  method LoadRelays(ts: seq<Token>, count: int) returns (r: Read<seq<Point>>)
    ensures r == ReadRelays(ts, count, [])
  {
    var rest, relays, i := ts, [], 0;
    ghost var whole := ReadRelays(ts, count, []);
    while i < count
      invariant count > 0 ==> i <= count
      invariant whole == ReadRelays(rest, count - i, relays)
      decreases count - i
    {
      var x := ReadDouble(rest);
      if x.Err? { return Err(x.error); }
      var y := ReadDouble(x.value.1);
      if y.Err? { return Err(y.error); }
      relays := relays + [Point(x.value.0, y.value.0)];
      rest := y.value.1;
      i := i + 1;
    }
    return Ok((relays, rest));
  }

  /** The wires of one input, each queued as a deferred connection after `pend`. */
  method LoadWires(ts: seq<Token>, count: int, consumer: nat, input: nat, pend: seq<Pending>)
    returns (r: Read<seq<Pending>>)
    ensures r == ReadWires(ts, count, consumer, input, pend)
  {
    var rest, queue, i := ts, pend, 0;
    ghost var whole := ReadWires(ts, count, consumer, input, pend);
    while i < count
      invariant count > 0 ==> i <= count
      invariant whole == ReadWires(rest, count - i, consumer, input, queue)
      decreases count - i
    {
      var source := ReadInt(rest);
      if source.Err? { return Err(source.error); }
      var output := ReadInt(source.value.1);
      if output.Err? { return Err(output.error); }
      var relayCount := ReadInt(output.value.1);
      if relayCount.Err? { return Err(relayCount.error); }
      var relays := LoadRelays(relayCount.value.1, relayCount.value.0);
      if relays.Err? { return Err(relays.error); }
      queue := queue + [Pending(consumer, input, source.value.0, output.value.0, relays.value.0)];
      rest := relays.value.1;
      i := i + 1;
    }
    return Ok((queue, rest));
  }

  method LoadInputs(ts: seq<Token>, count: int, consumer: nat, pend: seq<Pending>) returns (r: Read<seq<Pending>>)
    ensures r == ReadInputs(ts, count, consumer, 0, pend)
  {
    var rest, queue, i := ts, pend, 0;
    ghost var whole := ReadInputs(ts, count, consumer, 0, pend);
    while i < count
      invariant 0 <= i && (count > 0 ==> i <= count)
      invariant whole == ReadInputs(rest, count - i, consumer, i, queue)
      decreases count - i
    {
      var wireCount := ReadInt(rest);
      if wireCount.Err? { return Err(wireCount.error); }
      var wires := LoadWires(wireCount.value.1, wireCount.value.0, consumer, i, queue);
      if wires.Err? { return Err(wires.error); }
      queue := wires.value.0;
      rest := wires.value.1;
      i := i + 1;
    }
    return Ok((queue, rest));
  }

  /** The supplier lookup: the registry for kind 0, else the first function of that name
      (the loop stops at the first match). */
  method FindSupplier(id: string, kind: int, reg: Registry, fns: seq<FunctionDef>) returns (r: Option<Node>)
    ensures r == ResolveNode(id, kind, reg, fns)
  {
    r := None;
    if kind == 0 {
      if id in reg {
        r := Some(Node(Builtin(id, reg[id].ins, reg[id].outs), DefaultData));
      }
    } else if 1 <= kind <= 3 {
      var i := 0;
      while i < |fns|
        invariant 0 <= i <= |fns|
        invariant FirstNamed(fns, id, FnName) == FirstNamed(fns[i..], id, FnName)
      {
        if fns[i].name == id {
          var k := if kind == 1 then Call(fns[i]) else if kind == 2 then FnInputs(fns[i]) else FnOutputs(fns[i]);
          r := Some(Node(k, DefaultData));
          break;
        }
        assert fns[i..][1..] == fns[i + 1..];
        i := i + 1;
      }
    }
  }

  /** One resolved node record after its kind: the payload, the position, and the wires
      of each input queued for the wiring pass; the widget is fresh, unwired, in `slot`. */
  method LoadNodeBody(ts: seq<Token>, template: Node, slot: nat, queue: seq<Pending>)
    returns (r: Read<(Widget, seq<Pending>)>)
    ensures r == ReadNodeBody(ts, template, slot, queue)
  {
    var data := ReadData(ts);
    if data.Err? { return Err(data.error); }
    var x := ReadDouble(data.value.1);
    if x.Err? { return Err(x.error); }
    var y := ReadDouble(x.value.1);
    if y.Err? { return Err(y.error); }
    var node := Node(template.kind, data.value.0);
    var widget := NewNodeWidget(slot, node, Point(x.value.0, y.value.0));
    var inputCount := ReadInt(y.value.1);
    if inputCount.Err? { return Err(inputCount.error); }
    var wires := LoadInputs(inputCount.value.1, inputCount.value.0, slot, queue);
    if wires.Err? { return Err(wires.error); }
    return Ok(((widget, wires.value.0), wires.value.1));
  }

  /** The node table: placeholders for unresolved records, a fresh unwired node widget
      in the next slot otherwise, and every wire queued for the wiring pass. */
  method LoadNodes(ts: seq<Token>, count: int, version: int, reg: Registry, fns: seq<FunctionDef>)
    returns (r: Read<(seq<Slot>, seq<Pending>)>)
    ensures r == ReadNodes(ts, count, version, reg, fns, [], [])
  {
    var rest, slots, queue, i := ts, [], [], 0;
    ghost var whole := ReadNodes(ts, count, version, reg, fns, [], []);
    while i < count
      invariant count > 0 ==> i <= count
      invariant whole == ReadNodes(rest, count - i, version, reg, fns, slots, queue)
      decreases count - i
    {
      var id := ReadStr(rest);
      if id.Err? { return Err(id.error); }
      var kind: Read<int> := Ok((0, id.value.1));
      if version >= 1 {
        kind := ReadByte(id.value.1);
        if kind.Err? { return Err(kind.error); }
      }
      var template := FindSupplier(id.value.0, kind.value.0, reg, fns);
      if template.None? {
        slots := slots + [None];
        rest := kind.value.1;
      } else {
        var body := LoadNodeBody(kind.value.1, template.value, |slots|, queue);
        if body.Err? { return Err(body.error); }
        slots := slots + [Some(body.value.0.0)];
        queue := body.value.0.1;
        rest := body.value.1;
      }
      i := i + 1;
    }
    return Ok(((slots, queue), rest));
  }

  /** `connectNodes`: runs the queued connections in order on the arena. */
  method RunConnections(slots: seq<Slot>, pend: seq<Pending>) returns (r: Result<seq<Slot>, DecodeError>)
    ensures r == Connect(slots, pend)
  {
    var cur := slots;
    for i := 0 to |pend|
      invariant Connect(slots, pend) == Connect(cur, pend[i..])
    {
      assert pend[i..][0] == pend[i] && pend[i..][1..] == pend[i + 1..];
      var p := pend[i];
      if !(0 <= p.source < |cur|) { return Err(BadIndex); }
      if cur[p.source].Some? && cur[p.source].value.NodeW? {
        if !(p.consumer < |cur| && cur[p.consumer].Some? && cur[p.consumer].value.NodeW?) { return Err(BadIndex); }
        var consumer := cur[p.consumer].value;
        if !(p.input < |consumer.inputs| && 0 <= p.output < OutputCount(cur[p.source].value.node)) {
          return Err(BadIndex);
        }
        cur := cur[p.consumer := Some(AddWires(consumer, p.input, [Wire(p.source, p.output, p.relays)]))];
      }
    }
    assert pend[|pend|..] == [];
    return Ok(cur);
  }

  lemma {:induction false} PurgeDropsOnePlaceholder(slots: seq<Slot>)
    ensures Purge(Seqs.RemoveFirst(slots, None)) == Purge(slots)
    decreases slots
  {
    if slots != [] && slots[0] != None {
      Seqs.RemoveFirstSkipsHead(slots[0], slots[1..], None);
      assert slots == [slots[0]] + slots[1..];
      PurgeDropsOnePlaceholder(slots[1..]);
    }
  }

  lemma {:induction false} PurgeWithoutPlaceholders(slots: seq<Slot>)
    requires None !in slots
    ensures Purge(slots) == seq(|slots|, i requires 0 <= i < |slots| => slots[i].value)
    decreases slots
  {
    if slots != [] {
      assert slots[0] in slots;
      PurgeWithoutPlaceholders(slots[1..]);
    }
  }

  /** The final `while (widgets.contains(null)) widgets.remove(null)`. */
  method PurgePlaceholders(slots: seq<Slot>) returns (ws: seq<Widget>)
    ensures ws == Purge(slots)
  {
    var cur := slots;
    while None in cur
      invariant Purge(cur) == Purge(slots)
      decreases |cur|
    {
      PurgeDropsOnePlaceholder(cur);
      cur := Seqs.RemoveFirst(cur, None);
    }
    PurgeWithoutPlaceholders(cur);
    ws := seq(|cur|, i requires 0 <= i < |cur| => cur[i].value);
  }

  /** The node table, the wiring pass and the purge, as `load` runs them. */
  method LoadNodeTable(ts: seq<Token>, version: int, reg: Registry, sts: seq<StructDef>, fns: seq<FunctionDef>)
    returns (r: Result<Loaded, DecodeError>)
    ensures r == DecodeNodes(ts, version, reg, sts, fns)
  {
    var nodeCount :- ReadInt(ts);
    var table :- LoadNodes(nodeCount.1, nodeCount.0, version, reg, fns);
    var linked :- RunConnections(table.0.0, table.0.1);
    var live := PurgePlaceholders(linked);
    return Ok(Loaded(sts, fns, live, |linked|));
  }

  /** Everything `load` reads after the version tag (and the migrations). */
  method LoadBody(ts: seq<Token>, version: int, reg: Registry) returns (r: Result<Loaded, DecodeError>)
    ensures r == DecodeBody(ts, version, reg)
  {
    var stCount :- ReadInt(ts);
    var sts :- LoadStructs(stCount.1, stCount.0);
    var fnCount :- ReadInt(sts.1);
    var fns :- LoadFunctions(fnCount.1, fnCount.0, sts.0);
    r := LoadNodeTable(fns.1, version, reg, sts.0, fns.0);
  }
}
