/**
 * The node table of the code file, the deferred wiring pass and the whole-file
 * encoder and decoder, with the round-trip theorem.
 */
module NodeCodec {

  import opened Wrappers
  import opened Graph
  import opened Codec
  import Seqs

  /** What the builtin registry (`NodeList.nodes`) knows of a builtin: its port counts. */
  datatype Template = Template(ins: nat, outs: nat)

  type Registry = map<string, Template>

  /** The identities of a widget list, in order. */
  function Ids(ws: seq<Widget>): (r: seq<nat>)
    ensures |r| == |ws| && forall i :: 0 <= i < |ws| ==> r[i] == ws[i].id
  {
    seq(|ws|, i requires 0 <= i < |ws| => ws[i].id)
  }

  /** The kind byte `save` writes: 1 for a call, 2 for a function's input boundary,
      3 for its output boundary, 0 for everything else. */
  function KindByte(n: Node): int
  {
    match n.kind
    case Call(_) => 1
    case FnInputs(_) => 2
    case FnOutputs(_) => 3
    case _ => 0
  }

  // ---------------------------------------------------------------------------
  // Encoding of the node table

  function EncodeRelays(rs: seq<Point>): seq<Token>
  {
    if rs == [] then [] else [TDouble(rs[0].x), TDouble(rs[0].y)] + EncodeRelays(rs[1..])
  }

  /** A wire: the source's index among the saved node widgets (-1 if absent), the
      output index, then the relay points. */
  function EncodeWire(nodes: seq<Widget>, w: Wire): seq<Token>
  {
    [TInt(Seqs.IndexOf(Ids(nodes), w.source)), TInt(w.output), TInt(|w.relays|)] + EncodeRelays(w.relays)
  }

  function EncodeWires(nodes: seq<Widget>, ws: seq<Wire>): seq<Token>
  {
    if ws == [] then [] else EncodeWire(nodes, ws[0]) + EncodeWires(nodes, ws[1..])
  }

  function EncodeInput(nodes: seq<Widget>, ws: seq<Wire>): seq<Token>
  {
    [TInt(|ws|)] + EncodeWires(nodes, ws)
  }

  function EncodeInputs(nodes: seq<Widget>, ins: seq<seq<Wire>>): seq<Token>
  {
    if ins == [] then [] else EncodeInput(nodes, ins[0]) + EncodeInputs(nodes, ins[1..])
  }

  function EncodeNode(nodes: seq<Widget>, w: Widget): seq<Token>
    requires w.NodeW?
  {
    [TStr(BaseName(w.node)), TByte(KindByte(w.node)), TData(w.node.data),
     TDouble(w.origin.x), TDouble(w.origin.y), TInt(|w.inputs|)]
      + EncodeInputs(nodes, w.inputs)
  }

  predicate AllNodes(ns: seq<Widget>)
  {
    forall i :: 0 <= i < |ns| ==> ns[i].NodeW?
  }

  function EncodeNodes(nodes: seq<Widget>, ns: seq<Widget>): seq<Token>
    requires AllNodes(ns)
  {
    if ns == [] then [] else EncodeNode(nodes, ns[0]) + EncodeNodes(nodes, ns[1..])
  }

  lemma AllNodesAppend(a: seq<Widget>, b: seq<Widget>)
    requires AllNodes(a) && AllNodes(b)
    ensures AllNodes(a + b)
  {
    forall i | 0 <= i < |a + b| ensures (a + b)[i].NodeW? {
      if i < |a| {
        assert (a + b)[i] == a[i];
      } else {
        assert (a + b)[i] == b[i - |a|];
      }
    }
  }

  lemma EncodeNodesCons(nodes: seq<Widget>, ns: seq<Widget>)
    requires ns != [] && AllNodes(ns)
    ensures AllNodes(ns[1..])
    ensures EncodeNodes(nodes, ns) == EncodeNode(nodes, ns[0]) + EncodeNodes(nodes, ns[1..])
  {
    assert AllNodes(ns[1..]) by {
      forall i | 0 <= i < |ns[1..]| ensures ns[1..][i].NodeW? {
        assert ns[1..][i] == ns[i + 1];
      }
    }
  }

  /** The whole file `save` writes: the version, then the struct, function and node
      tables, each after its count. Widgets that are not node widgets are not saved. */
  function Encode(structs: seq<StructDef>, fns: seq<FunctionDef>, widgets: seq<Widget>): seq<Token>
  {
    var nodes := NodeWidgets(widgets);
    [TInt(CurrentVersion)]
      + ([TInt(|structs|)] + (EncodeStructs(structs)
      + ([TInt(|fns|)] + (EncodeFunctions(fns)
      + ([TInt(|nodes|)] + EncodeNodes(nodes, nodes))))))
  }

  // ---------------------------------------------------------------------------
  // Decoding of the node table

  /** A wire connection deferred until every node record is read: the consumer's slot
      and input, the source slot and output as read from the file, the relays. */
  datatype Pending = Pending(consumer: nat, input: nat, source: int, output: int, relays: seq<Point>)

  /** A slot of the arena being loaded: a node widget, or a placeholder (`null`). */
  type Slot = Option<Widget>

  function ReadRelays(ts: seq<Token>, count: int, acc: seq<Point>): Read<seq<Point>>
    decreases count
  {
    if count <= 0 then Ok((acc, ts))
    else
      var x :- ReadDouble(ts);
      var y :- ReadDouble(x.1);
      ReadRelays(y.1, count - 1, acc + [Point(x.0, y.0)])
  }

  function ReadWire(ts: seq<Token>, consumer: nat, input: nat): Read<Pending>
  {
    var source :- ReadInt(ts);
    var output :- ReadInt(source.1);
    var count :- ReadInt(output.1);
    var relays :- ReadRelays(count.1, count.0, []);
    Ok((Pending(consumer, input, source.0, output.0, relays.0), relays.1))
  }

  function ReadWires(ts: seq<Token>, count: int, consumer: nat, input: nat, pend: seq<Pending>): Read<seq<Pending>>
    decreases count
  {
    if count <= 0 then Ok((pend, ts))
    else
      var p :- ReadWire(ts, consumer, input);
      ReadWires(p.1, count - 1, consumer, input, pend + [p.0])
  }

  function ReadInputs(ts: seq<Token>, count: int, consumer: nat, input: nat, pend: seq<Pending>): Read<seq<Pending>>
    decreases count
  {
    if count <= 0 then Ok((pend, ts))
    else
      var wires :- ReadInt(ts);
      var p :- ReadWires(wires.1, wires.0, consumer, input, pend);
      ReadInputs(p.1, count - 1, consumer, input + 1, p.0)
  }

  /** The kind byte; files older than version 1 have none, and every node is kind 0. */
  function ReadKind(ts: seq<Token>, version: int): Read<int>
  {
    if version >= 1 then ReadByte(ts) else Ok((0, ts))
  }

  /** The node a record names: a registered builtin for kind 0, the first function of
      that name for kinds 1 to 3; None (a placeholder) when nothing matches. */
  function ResolveNode(id: string, kind: int, reg: Registry, fns: seq<FunctionDef>): Option<Node>
  {
    if kind == 0 then
      if id in reg then Some(Node(Builtin(id, reg[id].ins, reg[id].outs), DefaultData)) else None
    else if 1 <= kind <= 3 then
      match FirstNamed(fns, id, FnName)
      case None => None
      case Some(fn) =>
        Some(Node(if kind == 1 then Call(fn) else if kind == 2 then FnInputs(fn) else FnOutputs(fn), DefaultData))
    else None
  }

  /** The rest of a resolved node record: payload, position, wire lists. */
  function ReadNodeBody(ts: seq<Token>, template: Node, slot: nat, pend: seq<Pending>): Read<(Widget, seq<Pending>)>
  {
    var data :- ReadData(ts);
    var x :- ReadDouble(data.1);
    var y :- ReadDouble(x.1);
    var inputs :- ReadInt(y.1);
    var p :- ReadInputs(inputs.1, inputs.0, slot, 0, pend);
    var node := Node(template.kind, data.0);
    Ok(((NodeW(slot, node, Point(x.0, y.0), Unwired(InputCount(node))), p.0), p.1))
  }

  /** The node table. An unresolved record becomes a placeholder slot, and reading goes
      on right after its kind byte: its payload, position and wires are not skipped. */
  function ReadNodes(ts: seq<Token>, count: int, version: int, reg: Registry, fns: seq<FunctionDef>,
                     slots: seq<Slot>, pend: seq<Pending>): Read<(seq<Slot>, seq<Pending>)>
    decreases count
  {
    if count <= 0 then Ok(((slots, pend), ts))
    else
      var id :- ReadStr(ts);
      var kind :- ReadKind(id.1, version);
      match ResolveNode(id.0, kind.0, reg, fns)
      case None => ReadNodes(kind.1, count - 1, version, reg, fns, slots + [None], pend)
      case Some(t) =>
        var body :- ReadNodeBody(kind.1, t, |slots|, pend);
        ReadNodes(body.1, count - 1, version, reg, fns, slots + [Some(body.0.0)], body.0.1)
  }

  // ---------------------------------------------------------------------------
  // The deferred wiring pass (`connectNodes`) and the purge of placeholders

  function AddWires(w: Widget, k: nat, ws: seq<Wire>): Widget
    requires w.NodeW? && k < |w.inputs|
  {
    w.(inputs := w.inputs[k := w.inputs[k] + ws])
  }

  /** One deferred connection. A source slot outside the arena aborts the load; a
      placeholder source is skipped; a missing input or output aborts the load. */
  function ConnectStep(slots: seq<Slot>, p: Pending): (r: Result<seq<Slot>, DecodeError>)
  {
    if !(0 <= p.source < |slots|) then Err(BadIndex)
    else if slots[p.source].None? || !slots[p.source].value.NodeW? then Ok(slots)
    else if !(p.consumer < |slots| && slots[p.consumer].Some? && slots[p.consumer].value.NodeW?) then Err(BadIndex)
    else if !(p.input < |slots[p.consumer].value.inputs| && 0 <= p.output < OutputCount(slots[p.source].value.node)) then Err(BadIndex)
    else
      var w := slots[p.consumer].value;
      Ok(slots[p.consumer := Some(AddWires(w, p.input, [Wire(p.source, p.output, p.relays)]))])
  }

  function Connect(slots: seq<Slot>, pend: seq<Pending>): Result<seq<Slot>, DecodeError>
    decreases |pend|
  {
    if pend == [] then Ok(slots)
    else
      var next :- ConnectStep(slots, pend[0]);
      Connect(next, pend[1..])
  }

  /** The live widgets, in order, once every placeholder is gone. */
  function Purge(slots: seq<Slot>): seq<Widget>
  {
    if slots == [] then []
    else if slots[0].None? then Purge(slots[1..])
    else [slots[0].value] + Purge(slots[1..])
  }

  /** What a load produces: the definitions, the live widgets and the number of slots
      the node table had (the identities handed out). */
  datatype Loaded = Loaded(structs: seq<StructDef>, functions: seq<FunctionDef>, widgets: seq<Widget>, slotCount: nat)

  /** The whole file. `migrate` stands for the `CodeMigration` chain, applied to the
      stream after the version tag; the version the kind byte depends on is the one read. */
  function Decode(ts: seq<Token>, reg: Registry, migrate: (int, seq<Token>) -> seq<Token>): Result<Loaded, DecodeError>
  {
    var version :- ReadInt(ts);
    DecodeBody(migrate(version.0, version.1), version.0, reg)
  }

  /** The struct and function tables, then the node table. */
  function DecodeBody(ts: seq<Token>, version: int, reg: Registry): Result<Loaded, DecodeError>
  {
    var stCount :- ReadInt(ts);
    var sts :- ReadStructs(stCount.1, stCount.0, []);
    var fnCount :- ReadInt(sts.1);
    var fns :- ReadFunctions(fnCount.1, fnCount.0, sts.0, []);
    DecodeNodes(fns.1, version, reg, sts.0, fns.0)
  }

  /** The node table, the deferred wiring pass, and the purge of placeholders. */
  function DecodeNodes(ts: seq<Token>, version: int, reg: Registry, sts: seq<StructDef>, fns: seq<FunctionDef>)
    : Result<Loaded, DecodeError>
  {
    var nodeCount :- ReadInt(ts);
    var table :- ReadNodes(nodeCount.1, nodeCount.0, version, reg, fns, [], []);
    var linked :- Connect(table.0.0, table.0.1);
    Ok(Loaded(sts, fns, Purge(linked), |linked|))
  }
}
