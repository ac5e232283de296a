/**
 * The code file format, over a stream of tokens. `NetworkBuffer`'s byte layout is
 * abstracted to one token per `write` call: INT, BYTE, STRING and DOUBLE writes,
 * an encoded value type (`AllValues.writeValue`) and a node's `writeData` payload.
 * The encoder and the decoder are specification functions; the loops that the editor
 * runs are in module Persistence and are proved equal to them.
 */
module Codec {

  import opened Wrappers
  import opened Graph
  import Seqs

  datatype Token =
    | TInt(i: int)
    | TByte(b: int)
    | TStr(s: string)
    | TDouble(d: Coord)
    | TValue(v: ValueType)
    | TData(data: Data)

  /** The version tag `save` writes. */
  const CurrentVersion: int := 2

  datatype DecodeError =
    | Malformed                // the stream ended, or held a token of another kind
    | UnknownStructReference   // a value type names a struct that is not loaded
    | NegativeCapacity(n: int) // `new ArrayList<>(n)` with a negative count
    | BadIndex                 // a wire names a slot, input or output that does not exist

  /** A read: the value and the rest of the stream, or the reason the load aborts. */
  type Read<T> = Result<(T, seq<Token>), DecodeError>

  // ---------------------------------------------------------------------------
  // Primitive reads

  /** The first token of `[t] + rest` is `t`, and what follows it is `rest`. */
  lemma Cons(t: Token, rest: seq<Token>)
    ensures ([t] + rest)[0] == t && ([t] + rest)[1..] == rest
  {
  }

  function ReadInt(ts: seq<Token>): (r: Read<int>)
    ensures r.Ok? <==> |ts| > 0 && ts[0].TInt?
    ensures r.Ok? ==> r.value == (ts[0].i, ts[1..])
  {
    if |ts| > 0 && ts[0].TInt? then Ok((ts[0].i, ts[1..])) else Err(Malformed)
  }

  function ReadByte(ts: seq<Token>): (r: Read<int>)
    ensures r.Ok? <==> |ts| > 0 && ts[0].TByte?
    ensures r.Ok? ==> r.value == (ts[0].b, ts[1..])
  {
    if |ts| > 0 && ts[0].TByte? then Ok((ts[0].b, ts[1..])) else Err(Malformed)
  }

  function ReadStr(ts: seq<Token>): (r: Read<string>)
    ensures r.Ok? <==> |ts| > 0 && ts[0].TStr?
    ensures r.Ok? ==> r.value == (ts[0].s, ts[1..])
  {
    if |ts| > 0 && ts[0].TStr? then Ok((ts[0].s, ts[1..])) else Err(Malformed)
  }

  function ReadDouble(ts: seq<Token>): (r: Read<Coord>)
    ensures r.Ok? <==> |ts| > 0 && ts[0].TDouble?
    ensures r.Ok? ==> r.value == (ts[0].d, ts[1..])
  {
    if |ts| > 0 && ts[0].TDouble? then Ok((ts[0].d, ts[1..])) else Err(Malformed)
  }

  function ReadData(ts: seq<Token>): (r: Read<Data>)
    ensures r.Ok? <==> |ts| > 0 && ts[0].TData?
    ensures r.Ok? ==> r.value == (ts[0].data, ts[1..])
  {
    if |ts| > 0 && ts[0].TData? then Ok((ts[0].data, ts[1..])) else Err(Malformed)
  }

  // ---------------------------------------------------------------------------
  // The value-type codec. `AllValues` is not part of this model: a value type is one
  // token, and decoding resolves every struct it names against the structs given.

  /** Whether a value type names a struct anywhere in it. */
  predicate MentionsStruct(v: ValueType)
  {
    match v
    case ListOf(e) => MentionsStruct(e)
    case Struct(_, _) => true
    case _ => false
  }

  /** Resolves struct references by name against `known`; None when one is missing. */
  function ResolveValue(v: ValueType, known: seq<StructDef>): Option<ValueType>
  {
    match v
    case ListOf(e) =>
      (match ResolveValue(e, known)
       case None => None
       case Some(r) => Some(ListOf(r)))
    case Struct(name, _) =>
      (match FirstNamed(known, name, StructName)
       case None => None
       case Some(st) => Some(StructType(st)))
    case _ => Some(v)
  }

  function ReadValue(ts: seq<Token>, known: seq<StructDef>): (r: Read<ValueType>)
    ensures r.Ok? ==> |ts| > 0 && ts[0].TValue? && r.value.1 == ts[1..]
  {
    if |ts| > 0 && ts[0].TValue? then
      match ResolveValue(ts[0].v, known)
      case None => Err(UnknownStructReference)
      case Some(v) => Ok((v, ts[1..]))
    else Err(Malformed)
  }

  /** Struct field types are decoded with no structs loaded: a type resolves there
      exactly when it names no struct, and then it resolves to itself. */
  lemma {:induction false} EmptyContextResolves(v: ValueType)
    ensures ResolveValue(v, []).Some? <==> !MentionsStruct(v)
    ensures !MentionsStruct(v) ==> ResolveValue(v, []) == Some(v)
  {
    match v
    case ListOf(e) => EmptyContextResolves(e);
    case _ =>
  }

  // ---------------------------------------------------------------------------
  // `(byte)` casts

  /** Java's `(byte) n`: the low eight bits, read as a signed value. */
  function ToByte(n: int): (b: int)
    ensures -128 <= b < 128
    ensures (b - n) % 256 == 0
  {
    (n + 128) % 256 - 128
  }

  lemma SmallCountsSurviveByteCast(n: int)
    requires 0 <= n < 128
    ensures ToByte(n) == n
  {
  }

  /** Counts of 128 to 255 become negative bytes. */
  lemma LargeCountsTurnNegative(n: int)
    requires 128 <= n < 256
    ensures ToByte(n) == n - 256 < 0
  {
  }

  // ---------------------------------------------------------------------------
  // Encoding of the definition tables

  function EncodePort(p: Port): seq<Token>
  {
    [TStr(p.name), TValue(p.ty)]
  }

  function EncodePorts(ps: seq<Port>): (r: seq<Token>)
    ensures |r| == 2 * |ps|
  {
    if ps == [] then [] else EncodePort(ps[0]) + EncodePorts(ps[1..])
  }

  function EncodeStruct(st: StructDef): seq<Token>
  {
    [TStr(st.name), TByte(ToByte(|st.fields|))] + EncodePorts(st.fields)
  }

  function EncodeStructs(sts: seq<StructDef>): seq<Token>
  {
    if sts == [] then [] else EncodeStruct(sts[0]) + EncodeStructs(sts[1..])
  }

  function EncodeFunction(fn: FunctionDef): seq<Token>
  {
    [TStr(fn.name), TInt(|fn.inputs|)] + EncodePorts(fn.inputs)
      + [TInt(|fn.outputs|)] + EncodePorts(fn.outputs)
  }

  function EncodeFunctions(fns: seq<FunctionDef>): seq<Token>
  {
    if fns == [] then [] else EncodeFunction(fns[0]) + EncodeFunctions(fns[1..])
  }

  // ---------------------------------------------------------------------------
  // Decoding of the definition tables. Each reader takes the remaining count and the
  // entries read so far, as the editor's loops do; a count at or below zero reads nothing.

  function ReadPorts(ts: seq<Token>, count: int, known: seq<StructDef>, acc: seq<Port>): Read<seq<Port>>
    decreases count
  {
    if count <= 0 then Ok((acc, ts))
    else
      var name :- ReadStr(ts);
      var ty :- ReadValue(name.1, known);
      ReadPorts(ty.1, count - 1, known, acc + [Port(name.0, ty.0)])
  }

  function ReadStructs(ts: seq<Token>, count: int, acc: seq<StructDef>): Read<seq<StructDef>>
    decreases count
  {
    if count <= 0 then Ok((acc, ts))
    else
      var st :- ReadStruct(ts);
      ReadStructs(st.1, count - 1, acc + [st.0])
  }

  /** One struct record. Field types are decoded with no structs known. */
  function ReadStruct(ts: seq<Token>): Read<StructDef>
  {
    var name :- ReadStr(ts);
    var len :- ReadByte(name.1);
    if len.0 < 0 then Err(NegativeCapacity(len.0))
    else
      var fields :- ReadPorts(len.1, len.0, [], []);
      Ok((StructDef(name.0, fields.0), fields.1))
  }

  function ReadFunction(ts: seq<Token>, known: seq<StructDef>): Read<FunctionDef>
  {
    var name :- ReadStr(ts);
    var inCount :- ReadInt(name.1);
    if inCount.0 < 0 then Err(NegativeCapacity(inCount.0))
    else
      var inputs :- ReadPorts(inCount.1, inCount.0, known, []);
      var outCount :- ReadInt(inputs.1);
      if outCount.0 < 0 then Err(NegativeCapacity(outCount.0))
      else
        var outputs :- ReadPorts(outCount.1, outCount.0, known, []);
        Ok((FunctionDef(name.0, inputs.0, outputs.0), outputs.1))
  }

  function ReadFunctions(ts: seq<Token>, count: int, known: seq<StructDef>, acc: seq<FunctionDef>): Read<seq<FunctionDef>>
    decreases count
  {
    if count <= 0 then Ok((acc, ts))
    else
      var fn :- ReadFunction(ts, known);
      ReadFunctions(fn.1, count - 1, known, acc + [fn.0])
  }

  // ---------------------------------------------------------------------------
  // Round trips of the definition tables

  /** Port types that resolve to themselves against `known`. */
  predicate PortsResolve(ps: seq<Port>, known: seq<StructDef>)
  {
    forall i :: 0 <= i < |ps| ==> ResolveValue(ps[i].ty, known) == Some(ps[i].ty)
  }

  /** One port record read ahead of the rest of the list. */
  lemma ReadPortsStep(p: Port, tail: seq<Token>, count: int, known: seq<StructDef>, acc: seq<Port>)
    requires count > 0 && ResolveValue(p.ty, known) == Some(p.ty)
    ensures ReadPorts(EncodePort(p) + tail, count, known, acc) == ReadPorts(tail, count - 1, known, acc + [p])
  {
    var ts := EncodePort(p) + tail;
    assert ts[0] == TStr(p.name) && ts[1..] == [TValue(p.ty)] + tail;
    Cons(TValue(p.ty), tail);
  }

  lemma {:induction false} PortsRoundTrip(ps: seq<Port>, rest: seq<Token>, known: seq<StructDef>, acc: seq<Port>)
    requires PortsResolve(ps, known)
    ensures ReadPorts(EncodePorts(ps) + rest, |ps|, known, acc) == Ok((acc + ps, rest))
    decreases ps
  {
    if ps == [] {
      assert acc + ps == acc && EncodePorts(ps) + rest == rest;
    } else {
      var tail := EncodePorts(ps[1..]) + rest;
      Seqs.AppendAssoc(EncodePort(ps[0]), EncodePorts(ps[1..]), rest);
      assert ResolveValue(ps[0].ty, known) == Some(ps[0].ty);
      ReadPortsStep(ps[0], tail, |ps|, known, acc);
      assert PortsResolve(ps[1..], known) by {
        forall i | 0 <= i < |ps| - 1 ensures ResolveValue(ps[1..][i].ty, known) == Some(ps[1..][i].ty) {
          assert ps[1..][i] == ps[i + 1];
        }
      }
      PortsRoundTrip(ps[1..], rest, known, acc + [ps[0]]);
      Seqs.AppendHeadTail(acc, ps);
    }
  }

  /** A struct that survives saving: fewer than 128 fields, none of them naming a struct. */
  predicate StructSaveable(st: StructDef)
  {
    |st.fields| < 128 && forall i :: 0 <= i < |st.fields| ==> !MentionsStruct(st.fields[i].ty)
  }

  /** The fields of a saveable struct resolve to themselves with no structs loaded. */
  lemma SaveableFieldsResolve(st: StructDef)
    requires StructSaveable(st)
    ensures PortsResolve(st.fields, [])
  {
    forall i | 0 <= i < |st.fields| ensures ResolveValue(st.fields[i].ty, []) == Some(st.fields[i].ty) {
      EmptyContextResolves(st.fields[i].ty);
    }
  }

  lemma StructRoundTrip(st: StructDef, rest: seq<Token>)
    requires StructSaveable(st)
    ensures ReadStruct(EncodeStruct(st) + rest) == Ok((st, rest))
  {
    var n := |st.fields|;
    var body := EncodePorts(st.fields) + rest;
    var ts := EncodeStruct(st) + rest;
    Seqs.AppendAssoc([TStr(st.name), TByte(ToByte(n))], EncodePorts(st.fields), rest);
    assert ts == [TStr(st.name)] + ([TByte(ToByte(n))] + body);
    Cons(TStr(st.name), [TByte(ToByte(n))] + body);
    Cons(TByte(ToByte(n)), body);
    SmallCountsSurviveByteCast(n);
    assert ReadStr(ts) == Ok((st.name, [TByte(n)] + body));
    assert ReadByte([TByte(n)] + body) == Ok((n, body));
    SaveableFieldsResolve(st);
    PortsRoundTrip(st.fields, rest, [], []);
    assert [] + st.fields == st.fields;
  }

  /** One record of the struct table, read ahead of the rest. */
  lemma ReadStructsStep(ts: seq<Token>, count: int, acc: seq<StructDef>)
    requires count > 0
    ensures ReadStruct(ts).Err? ==> ReadStructs(ts, count, acc) == Err(ReadStruct(ts).error)
    ensures ReadStruct(ts).Ok? ==>
              var st := ReadStruct(ts).value;
              ReadStructs(ts, count, acc) == ReadStructs(st.1, count - 1, acc + [st.0])
  {
  }

  lemma {:induction false} StructsRoundTrip(sts: seq<StructDef>, rest: seq<Token>, acc: seq<StructDef>)
    requires forall i :: 0 <= i < |sts| ==> StructSaveable(sts[i])
    ensures ReadStructs(EncodeStructs(sts) + rest, |sts|, acc) == Ok((acc + sts, rest))
    decreases sts
  {
    if sts == [] {
      assert acc + sts == acc && EncodeStructs(sts) + rest == rest;
    } else {
      var tail := EncodeStructs(sts[1..]) + rest;
      Seqs.AppendAssoc(EncodeStruct(sts[0]), EncodeStructs(sts[1..]), rest);
      assert StructSaveable(sts[0]);
      StructRoundTrip(sts[0], tail);
      ReadStructsStep(EncodeStruct(sts[0]) + tail, |sts|, acc);
      assert forall i :: 0 <= i < |sts[1..]| ==> StructSaveable(sts[1..][i]) by {
        forall i | 0 <= i < |sts[1..]| ensures StructSaveable(sts[1..][i]) {
          assert sts[1..][i] == sts[i + 1];
        }
      }
      StructsRoundTrip(sts[1..], rest, acc + [sts[0]]);
      Seqs.AppendHeadTail(acc, sts);
    }
  }

  /** A function whose port types all resolve against the structs loaded before it. */
  predicate FunctionSaveable(fn: FunctionDef, known: seq<StructDef>)
  {
    PortsResolve(fn.inputs, known) && PortsResolve(fn.outputs, known)
  }

  lemma EncodeFunctionLayout(fn: FunctionDef, rest: seq<Token>)
    ensures EncodeFunction(fn) + rest
         == [TStr(fn.name)] + ([TInt(|fn.inputs|)] + (EncodePorts(fn.inputs)
              + ([TInt(|fn.outputs|)] + (EncodePorts(fn.outputs) + rest))))
  {
  }

  lemma FunctionRoundTrip(fn: FunctionDef, rest: seq<Token>, known: seq<StructDef>)
    requires FunctionSaveable(fn, known)
    ensures ReadFunction(EncodeFunction(fn) + rest, known) == Ok((fn, rest))
  {
    var outBody := EncodePorts(fn.outputs) + rest;
    var outs := [TInt(|fn.outputs|)] + outBody;
    var inBody := EncodePorts(fn.inputs) + outs;
    var ts := EncodeFunction(fn) + rest;
    EncodeFunctionLayout(fn, rest);
    Cons(TStr(fn.name), [TInt(|fn.inputs|)] + inBody);
    Cons(TInt(|fn.inputs|), inBody);
    assert ReadStr(ts) == Ok((fn.name, [TInt(|fn.inputs|)] + inBody));
    assert ReadInt([TInt(|fn.inputs|)] + inBody) == Ok((|fn.inputs|, inBody));
    PortsRoundTrip(fn.inputs, outs, known, []);
    assert [] + fn.inputs == fn.inputs;
    Cons(TInt(|fn.outputs|), outBody);
    assert ReadInt(outs) == Ok((|fn.outputs|, outBody));
    PortsRoundTrip(fn.outputs, rest, known, []);
    assert [] + fn.outputs == fn.outputs;
  }

  /** One record of the function table, read ahead of the rest. */
  lemma ReadFunctionsStep(ts: seq<Token>, count: int, known: seq<StructDef>, acc: seq<FunctionDef>)
    requires count > 0
    ensures ReadFunction(ts, known).Err? ==> ReadFunctions(ts, count, known, acc) == Err(ReadFunction(ts, known).error)
    ensures ReadFunction(ts, known).Ok? ==>
              var fn := ReadFunction(ts, known).value;
              ReadFunctions(ts, count, known, acc) == ReadFunctions(fn.1, count - 1, known, acc + [fn.0])
  {
  }

  lemma {:induction false} FunctionsRoundTrip(fns: seq<FunctionDef>, rest: seq<Token>, known: seq<StructDef>, acc: seq<FunctionDef>)
    requires forall i :: 0 <= i < |fns| ==> FunctionSaveable(fns[i], known)
    ensures ReadFunctions(EncodeFunctions(fns) + rest, |fns|, known, acc) == Ok((acc + fns, rest))
    decreases fns
  {
    if fns == [] {
      assert acc + fns == acc && EncodeFunctions(fns) + rest == rest;
    } else {
      var tail := EncodeFunctions(fns[1..]) + rest;
      Seqs.AppendAssoc(EncodeFunction(fns[0]), EncodeFunctions(fns[1..]), rest);
      assert FunctionSaveable(fns[0], known);
      FunctionRoundTrip(fns[0], tail, known);
      ReadFunctionsStep(EncodeFunction(fns[0]) + tail, |fns|, known, acc);
      assert forall i :: 0 <= i < |fns[1..]| ==> FunctionSaveable(fns[1..][i], known) by {
        forall i | 0 <= i < |fns[1..]| ensures FunctionSaveable(fns[1..][i], known) {
          assert fns[1..][i] == fns[i + 1];
        }
      }
      FunctionsRoundTrip(fns[1..], rest, known, acc + [fns[0]]);
      Seqs.AppendHeadTail(acc, fns);
    }
  }
}
