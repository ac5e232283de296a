/**
 * The editor's data model: value types, function and struct definitions,
 * nodes and the widgets that place them in the editor.
 */
module Graph {

  import opened Wrappers

  /** A value-type descriptor. Structs carry their declared name and fields. */
  datatype ValueType =
    | Number
    | Text
    | Player
    | Signal
    | ListOf(elem: ValueType)
    | Struct(name: string, fields: seq<Port>)

  /** A named, typed port: a struct field, a function input or a function output. */
  datatype Port = Port(name: string, ty: ValueType)

  /** A user function: its name and its input and output signatures. */
  datatype FunctionDef = FunctionDef(name: string, inputs: seq<Port>, outputs: seq<Port>)

  /** A user struct: its name and its fields. */
  datatype StructDef = StructDef(name: string, fields: seq<Port>)

  function StructType(st: StructDef): ValueType
  {
    Struct(st.name, st.fields)
  }

  /**
   * What a node is. `Builtin` records the port counts its registry entry gives it;
   * `FnInputs` and `FnOutputs` are a function's two boundary nodes, `StructInit` a
   * struct's own initialization node and `StructCreate` a construction node elsewhere.
   */
  datatype NodeKind =
    | Builtin(id: string, ins: nat, outs: nat)
    | Call(fn: FunctionDef)
    | FnInputs(fn: FunctionDef)
    | FnOutputs(fn: FunctionDef)
    | StructInit(st: StructDef)
    | StructCreate(st: StructDef)

  /** Opaque node configuration written by `writeData` and read back by `readData`. */
  type Data = int

  /** The data a node has before `readData` sets it. */
  const DefaultData: Data := 0

  datatype Node = Node(kind: NodeKind, data: Data)

  /** A coordinate is an opaque 64-bit pattern: copied, never computed on. */
  type Coord = int

  datatype Point = Point(x: Coord, y: Coord)

  /** A wire into an input: the source widget's identity, the output index on it, relay points. */
  datatype Wire = Wire(source: nat, output: int, relays: seq<Point>)

  /**
   * A widget of the editor. Every widget has an identity (`id`), which stands for the
   * object identity the editor relies on. A node widget holds one wire list per input.
   */
  datatype Widget =
    | NodeW(id: nat, node: Node, origin: Point, inputs: seq<seq<Wire>>)
    | OtherW(id: nat)

  function InputCount(n: Node): nat
  {
    match n.kind
    case Builtin(_, ins, _) => ins
    case Call(fn) => |fn.inputs|
    case FnInputs(_) => 0
    case FnOutputs(fn) => |fn.outputs|
    case StructInit(st) => |st.fields|
    case StructCreate(st) => |st.fields|
  }

  function OutputCount(n: Node): nat
  {
    match n.kind
    case Builtin(_, _, outs) => outs
    case Call(fn) => |fn.outputs|
    case FnInputs(fn) => |fn.inputs|
    case FnOutputs(_) => 0
    case StructInit(_) => 1
    case StructCreate(_) => 1
  }

  /** The wire lists of a freshly created node widget: one empty list per input. */
  function Unwired(n: nat): (r: seq<seq<Wire>>)
    ensures |r| == n && forall i :: 0 <= i < n ==> r[i] == []
  {
    if n == 0 then [] else [[]] + Unwired(n - 1)
  }

  /** A fresh node widget for `node` at `origin`, with no wires. */
  function NewNodeWidget(id: nat, node: Node, origin: Point): Widget
  {
    NodeW(id, node, origin, Unwired(InputCount(node)))
  }

  /** `getBaseName()`: the registry name of a builtin, the bound definition's name otherwise. */
  function BaseName(n: Node): string
  {
    match n.kind
    case Builtin(id, _, _) => id
    case Call(fn) => fn.name
    case FnInputs(fn) => fn.name
    case FnOutputs(fn) => fn.name
    case StructInit(st) => st.name
    case StructCreate(st) => st.name
  }

  /** A `FunctionDefinition.DefinitionNode` bound to `fn`: one of its two boundary nodes. */
  predicate BoundToFn(w: Widget, fn: FunctionDef)
  {
    w.NodeW? && (w.node.kind == FnInputs(fn) || w.node.kind == FnOutputs(fn))
  }

  /** A `StructDefinition.InitializationNode` bound to `st`. */
  predicate BoundToStruct(w: Widget, st: StructDef)
  {
    w.NodeW? && (w.node.kind == StructInit(st) || w.node.kind == StructCreate(st))
  }

  /** The widgets that are node widgets, in order. */
  function NodeWidgets(ws: seq<Widget>): (r: seq<Widget>)
    ensures |r| <= |ws|
    ensures forall i :: 0 <= i < |r| ==> r[i].NodeW? && r[i] in ws
    ensures forall w :: w in ws && w.NodeW? ==> w in r
  {
    if ws == [] then []
    else if ws[0].NodeW? then [ws[0]] + NodeWidgets(ws[1..])
    else NodeWidgets(ws[1..])
  }

  /** The first element of `s` whose name, as `nameOf` gives it, is `name`: what a
      front-to-back scan that stops at the first match finds. */
  function FirstNamed<T>(s: seq<T>, name: string, nameOf: T -> string): (r: Option<T>)
    ensures r.None? <==> forall i :: 0 <= i < |s| ==> nameOf(s[i]) != name
    ensures r.Some? ==> exists i :: 0 <= i < |s| && s[i] == r.value && nameOf(s[i]) == name
                                  && forall j :: 0 <= j < i ==> nameOf(s[j]) != name
  {
    if s == [] then None
    else if nameOf(s[0]) == name then Some(s[0])
    else FirstNamed(s[1..], name, nameOf)
  }

  function FnName(fn: FunctionDef): string { fn.name }

  function StructName(st: StructDef): string { st.name }
}
