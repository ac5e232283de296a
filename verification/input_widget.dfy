/**
 * The input ports of a node widget in the editor: the wires plugged into each, the
 * back-references each source output keeps, and the edits a player makes on an input
 * (setting its inset, renaming or deleting a function output).
 */
module InputWidgets {

  import opened Wrappers
  import opened Graph
  import Seqs
  import Editor

  /** An inset value as `prepareInset` produces it; opaque to the editor. */
  type InsetValue = int

  /** What the player is told after an edit. */
  datatype Reply = Silent | CannotRenameUsed | CannotDeleteUsed | InsetFailed

  /** The output side of a wire: the inputs it feeds, in connection order, and the
      input its signal is connected to, by identity (signal outputs only). */
  class OutputWidget {
    var connected: seq<InputWidget>
    var signalTarget: Option<nat>

    constructor ()
      ensures connected == [] && signalTarget == None
    {
      connected, signalTarget := [], None;
    }
  }

  /** A wire drawn from an output; `removed` once its display is taken down. */
  class WireWidget {
    const output: OutputWidget
    var removed: bool

    constructor (output: OutputWidget)
      ensures this.output == output && !removed
    {
      this.output := output;
      removed := false;
    }
  }

  /** How many of the wires come from `o`. */
  function FromOutput(ws: seq<WireWidget>, o: OutputWidget): nat
  {
    if ws == [] then 0 else (if ws[0].output == o then 1 else 0) + FromOutput(ws[1..], o)
  }

  lemma FromOutputSnoc(ws: seq<WireWidget>, w: WireWidget, o: OutputWidget)
    ensures FromOutput(ws + [w], o) == FromOutput(ws, o) + (if w.output == o then 1 else 0)
  {
    if ws != [] {
      assert (ws + [w])[1..] == ws[1..] + [w];
      FromOutputSnoc(ws[1..], w, o);
    }
  }

  /** How many of the first `i` wires come from `o`. */
  function FromOutputBefore(ws: seq<WireWidget>, i: nat, o: OutputWidget): nat
    requires i <= |ws|
  {
    if i == 0 then 0 else FromOutputBefore(ws, i - 1, o) + (if ws[i - 1].output == o then 1 else 0)
  }

  lemma {:induction false} FromOutputBeforeAll(ws: seq<WireWidget>, i: nat, o: OutputWidget)
    requires i <= |ws|
    ensures FromOutputBefore(ws, i, o) == FromOutput(ws[..i], o)
    decreases i
  {
    if i > 0 {
      FromOutputBeforeAll(ws, i - 1, o);
      Seqs.TakeSnoc(ws, i - 1);
      FromOutputSnoc(ws[..i - 1], ws[i - 1], o);
    }
  }

  /** The inputs each wire's output feeds once `me` has been dropped from them once per
      wire among the first `i`, starting from `before`. */
  function Dropped(ws: seq<WireWidget>, i: nat, before: seq<seq<InputWidget>>, me: InputWidget): (r: seq<seq<InputWidget>>)
    requires i <= |ws| && |before| == |ws|
    ensures |r| == |ws|
    ensures forall k :: 0 <= k < |ws| ==> r[k] == Seqs.RemoveN(before[k], me, FromOutputBefore(ws, i, ws[k].output))
  {
    seq(|ws|, k requires 0 <= k < |ws| => Seqs.RemoveN(before[k], me, FromOutputBefore(ws, i, ws[k].output)))
  }

  /** `conns` with `me` dropped once from the entry of every wire coming from `o`. */
  function DropFrom(conns: seq<seq<InputWidget>>, ws: seq<WireWidget>, o: OutputWidget, me: InputWidget): (r: seq<seq<InputWidget>>)
    requires |conns| == |ws|
    ensures |r| == |ws|
    ensures forall k :: 0 <= k < |ws| ==> r[k] == if ws[k].output == o then Seqs.RemoveFirst(conns[k], me) else conns[k]
  {
    seq(|ws|, k requires 0 <= k < |ws| => if ws[k].output == o then Seqs.RemoveFirst(conns[k], me) else conns[k])
  }

  /** One more wire dropped is one more drop from its output's entries. */
  lemma DroppedStep(ws: seq<WireWidget>, i: nat, before: seq<seq<InputWidget>>, me: InputWidget)
    requires i < |ws| && |before| == |ws|
    ensures Dropped(ws, i + 1, before, me) == DropFrom(Dropped(ws, i, before, me), ws, ws[i].output, me)
  {
    var a := Dropped(ws, i + 1, before, me);
    var b := DropFrom(Dropped(ws, i, before, me), ws, ws[i].output, me);
    forall k | 0 <= k < |ws| ensures a[k] == b[k] {
      var o := ws[k].output;
      var n := FromOutputBefore(ws, i, o);
      if ws[i].output == o {
        assert FromOutputBefore(ws, i + 1, o) == n + 1;
        assert a[k] == Seqs.RemoveFirst(Seqs.RemoveN(before[k], me, n), me);
      } else {
        assert FromOutputBefore(ws, i + 1, o) == n;
      }
    }
  }

  /** The outputs the wires come from, wire by wire. */
  function Outputs(ws: seq<WireWidget>): (r: seq<OutputWidget>)
    ensures |r| == |ws| && forall k :: 0 <= k < |ws| ==> r[k] == ws[k].output
  {
    seq(|ws|, k requires 0 <= k < |ws| => ws[k].output)
  }

  /** The inputs each wire's output feeds, wire by wire. */
  function Connections(ws: seq<WireWidget>): (r: seq<seq<InputWidget>>)
    reads Outputs(ws)
    ensures |r| == |ws| && forall k :: 0 <= k < |ws| ==> r[k] == ws[k].output.connected
  {
    if ws == [] then [] else [ws[0].output.connected] + Connections(ws[1..])
  }

  /** The signal target of each wire's output, wire by wire. */
  function Targets(ws: seq<WireWidget>): (r: seq<Option<nat>>)
    reads Outputs(ws)
    ensures |r| == |ws| && forall k :: 0 <= k < |ws| ==> r[k] == ws[k].output.signalTarget
  {
    if ws == [] then [] else [ws[0].output.signalTarget] + Targets(ws[1..])
  }

  /** A function boundary node: the definition whose outputs its inputs stand for. */
  predicate IsBoundary(n: Node)
  {
    n.kind.FnInputs? || n.kind.FnOutputs?
  }

  /** The definition after renaming the output `port` to `name`, at its first position. */
  function RenameOutput(prev: FunctionDef, port: Port, name: string): FunctionDef
    requires port in prev.outputs
  {
    FunctionDef(prev.name, prev.inputs, prev.outputs[Seqs.IndexOf(prev.outputs, port) := Port(name, port.ty)])
  }

  /** The definition after deleting the first output equal to `port`. */
  function DeleteOutput(prev: FunctionDef, port: Port): FunctionDef
  {
    FunctionDef(prev.name, prev.inputs, Seqs.RemoveFirst(prev.outputs, port))
  }

  /** Renaming keeps the name, the inputs and every other output; the renamed output,
      at the first position of `port`, keeps its type. */
  lemma RenameOutputChangesOne(prev: FunctionDef, port: Port, name: string)
    requires port in prev.outputs
    ensures var next := RenameOutput(prev, port, name); var i := Seqs.IndexOf(prev.outputs, port);
            && next.name == prev.name && next.inputs == prev.inputs
            && |next.outputs| == |prev.outputs|
            && prev.outputs[i] == port && port !in prev.outputs[..i]
            && next.outputs[i] == Port(name, port.ty)
            && forall j :: 0 <= j < |prev.outputs| && j != i ==> next.outputs[j] == prev.outputs[j]
  {
  }

  /** Deleting drops exactly the first output equal to `port`, the rest staying in order;
      without such an output the definition is unchanged. */
  lemma DeleteOutputDropsFirst(prev: FunctionDef, port: Port)
    ensures var next := DeleteOutput(prev, port);
            && next.name == prev.name && next.inputs == prev.inputs
            && (port !in prev.outputs ==> next == prev)
            && (port in prev.outputs ==>
                  var i := Seqs.IndexOf(prev.outputs, port);
                  && next.outputs == prev.outputs[..i] + prev.outputs[i + 1..]
                  && multiset(next.outputs) == multiset(prev.outputs) - multiset{port})
  {
    if port in prev.outputs {
      Seqs.RemoveFirstIndexOf(prev.outputs, port);
      Seqs.RemoveFirstMultiset(prev.outputs, port);
    }
  }

  class InputWidget {
    /** The node input this widget shows. */
    const port: Port
    /** The node of the parent node widget. */
    const parentNode: Node
    var inset: Option<InsetValue>
    /** The wires plugged into this input, in the order they were added. */
    var wires: seq<WireWidget>
    /** Whether the widget's display has been taken down. */
    var removed: bool

    constructor (port: Port, parentNode: Node)
      ensures this.port == port && this.parentNode == parentNode
      ensures inset == None && wires == [] && !removed
    {
      this.port := port;
      this.parentNode := parentNode;
      inset, wires, removed := None, [], false;
    }

    /** `select`: the first wire, in list order, that selects something answers; when
        none does, the button itself answers (`own`). `wireSelect` stands for
        `WireWidget.select(player, cursor)`. */
    method Select<S>(wireSelect: WireWidget -> Option<S>, own: Option<S>) returns (r: Option<S>)
      ensures (forall i :: 0 <= i < |wires| ==> wireSelect(wires[i]).None?) ==> r == own
      ensures (exists i :: 0 <= i < |wires| && wireSelect(wires[i]).Some?) ==>
                exists i :: 0 <= i < |wires| && r == wireSelect(wires[i]) && r.Some?
                            && forall j :: 0 <= j < i ==> wireSelect(wires[j]).None?
    {
      for i := 0 to |wires|
        invariant forall j :: 0 <= j < i ==> wireSelect(wires[j]).None?
      {
        var out := wireSelect(wires[i]);
        if out.Some? {
          return out;
        }
      }
      return own;
    }

    /** `addWire`: the wire joins this input's wires, and this input joins the inputs its
        output feeds. */
    method AddWire(wire: WireWidget)
      modifies this, wire.output
      ensures wires == old(wires) + [wire]
      ensures wire.output.connected == old(wire.output.connected) + [this]
      ensures wire.output.signalTarget == old(wire.output.signalTarget)
      ensures inset == old(inset) && removed == old(removed)
      ensures Seqs.Count(wire.output.connected, this) == Seqs.Count(old(wire.output.connected), this) + 1
      ensures FromOutput(wires, wire.output) == FromOutput(old(wires), wire.output) + 1
    {
      FromOutputSnoc(wires, wire, wire.output);
      wires := wires + [wire];
      wire.output.connected := wire.output.connected + [this];
    }

    /** The state of `disconnect` after its first `i` wires: those are taken down, this
        input has been dropped from each output's inputs once per wire so far, and signal
        targets are cleared (signal input) or as they were (any other input). `before` and
        `targets` are the outputs' inputs and signal targets when the loop began. */
    ghost predicate DetachedUpTo(ws: seq<WireWidget>, i: nat, before: seq<seq<InputWidget>>, targets: seq<Option<nat>>)
      reads ws, Outputs(ws)
    {
      && i <= |ws| && |before| == |ws| && |targets| == |ws|
      && (forall k :: 0 <= k < i ==> ws[k].removed)
      && Connections(ws) == Dropped(ws, i, before, this)
      && (port.ty == Signal ==> forall k :: 0 <= k < i ==> ws[k].output.signalTarget == None)
      && (port.ty != Signal ==> forall k :: 0 <= k < |ws| ==> ws[k].output.signalTarget == targets[k])
    }

    /** One wire of `disconnect`: taken down, this input dropped once from its output's
        inputs, and the output's signal target cleared when this is a signal input. Of the
        wires `ws`, only `wire` and its output change. */
    method Detach(wire: WireWidget, ghost ws: seq<WireWidget>)
      modifies wire, wire.output
      ensures wire.removed
      ensures wire.output.connected == Seqs.RemoveFirst(old(wire.output.connected), this)
      ensures wire.output.signalTarget == if port.ty == Signal then None else old(wire.output.signalTarget)
      ensures Connections(ws) == DropFrom(old(Connections(ws)), ws, wire.output, this)
      ensures forall k :: 0 <= k < |ws| && ws[k] != wire ==> ws[k].removed == old(ws[k].removed)
      ensures forall k :: 0 <= k < |ws| && ws[k].output != wire.output ==>
                ws[k].output.signalTarget == old(ws[k].output.signalTarget)
    {
      ghost var olds := Connections(ws);
      wire.removed := true;
      wire.output.connected := Seqs.RemoveFirst(wire.output.connected, this);
      if port.ty == Signal {
        wire.output.signalTarget := None;
      }
      ghost var news := Connections(ws);
      ghost var want := DropFrom(olds, ws, wire.output, this);
      forall k | 0 <= k < |ws| ensures news[k] == want[k] {
      }
    }

    /** `Detach` on wire `i` extends the state of `disconnect` by that wire. */
    method DetachWire(ws: seq<WireWidget>, i: nat, ghost before: seq<seq<InputWidget>>, ghost targets: seq<Option<nat>>)
      requires i < |ws| && DetachedUpTo(ws, i, before, targets)
      modifies ws[i], ws[i].output
      ensures DetachedUpTo(ws, i + 1, before, targets)
    {
      Detach(ws[i], ws);
      DroppedStep(ws, i, before, this);
    }

    /** The loop of `disconnect` over the wires `ws`. */
    method DetachAll(ws: seq<WireWidget>)
      modifies ws, Outputs(ws)
      ensures forall k :: 0 <= k < |ws| ==> ws[k].removed
      ensures forall k :: 0 <= k < |ws| ==>
                ws[k].output.connected == Seqs.RemoveN(old(ws[k].output.connected), this, FromOutput(ws, ws[k].output))
      ensures port.ty == Signal ==> forall k :: 0 <= k < |ws| ==> ws[k].output.signalTarget == None
      ensures port.ty != Signal ==> forall k :: 0 <= k < |ws| ==> ws[k].output.signalTarget == old(ws[k].output.signalTarget)
    {
      ghost var before := Connections(ws);
      ghost var targets := Targets(ws);
      assert Connections(ws) == Dropped(ws, 0, before, this);
      for i := 0 to |ws|
        invariant DetachedUpTo(ws, i, before, targets)
      {
        assert ws[i].output == Outputs(ws)[i];
        DetachWire(ws, i, before, targets);
      }
      assert ws[..|ws|] == ws;
      forall k | 0 <= k < |ws|
        ensures ws[k].output.connected == Seqs.RemoveN(before[k], this, FromOutput(ws, ws[k].output))
      {
        assert ws[k].output.connected == Connections(ws)[k];
        FromOutputBeforeAll(ws, |ws|, ws[k].output);
      }
    }

    /** `disconnect`: every wire is taken down and this input is dropped once from its
        output's inputs per wire; a signal input also clears each output's signal target,
        any other input clears its inset instead. The input is left without wires, and no
        output whose back-references matched its wires (as `addWire` keeps them) still
        names this input. */
    method Disconnect()
      modifies this, wires, Outputs(wires)
      ensures wires == [] && removed == old(removed)
      ensures forall w :: w in old(wires) ==> w.removed
      ensures forall w :: w in old(wires) ==>
                w.output.connected == Seqs.RemoveN(old(w.output.connected), this, FromOutput(old(wires), w.output))
      ensures port.ty == Signal ==> inset == old(inset) && forall w :: w in old(wires) ==> w.output.signalTarget == None
      ensures port.ty != Signal ==>
                inset == None && forall w :: w in old(wires) ==> w.output.signalTarget == old(w.output.signalTarget)
      ensures forall w :: w in old(wires) && Seqs.Count(old(w.output.connected), this) <= FromOutput(old(wires), w.output) ==>
                this !in w.output.connected
    {
      DetachAll(wires);
      forall w | w in old(wires) && Seqs.Count(old(w.output.connected), this) <= FromOutput(old(wires), w.output)
        ensures this !in w.output.connected
      {
        Seqs.RemoveNAll(old(w.output.connected), this, FromOutput(old(wires), w.output));
      }
      if port.ty != Signal {
        inset := None;
      }
      wires := [];
    }

    /** `remove`: the widget's display is taken down, then the input is disconnected. */
    method Remove()
      modifies this, wires, Outputs(wires)
      ensures wires == [] && removed
      ensures forall w :: w in old(wires) ==> w.removed
      ensures forall w :: w in old(wires) ==>
                w.output.connected == Seqs.RemoveN(old(w.output.connected), this, FromOutput(old(wires), w.output))
      ensures port.ty == Signal ==> inset == old(inset) && forall w :: w in old(wires) ==> w.output.signalTarget == None
      ensures port.ty != Signal ==>
                inset == None && forall w :: w in old(wires) ==> w.output.signalTarget == old(w.output.signalTarget)
      ensures forall w :: w in old(wires) && Seqs.Count(old(w.output.connected), this) <= FromOutput(old(wires), w.output) ==>
                this !in w.output.connected
    {
      removed := true;
      Disconnect();
    }

    /** `chat`: on a function's boundary node, the message renames the output this input
        stands for, unless the function is called somewhere; elsewhere it becomes the
        inset, when `prepared` (the message as `prepareInset` reads it) is one. */
    method Chat(message: string, prepared: Option<InsetValue>, editor: Editor.CodeEditor) returns (reply: Reply)
      requires editor.Valid()
      modifies this, editor
      ensures editor.Valid()
      ensures wires == old(wires) && removed == old(removed)
      ensures !IsBoundary(parentNode) ==>
                && unchanged(editor)
                && (prepared.Some? ==> inset == prepared && reply == Silent)
                && (prepared.None? ==> inset == old(inset) && reply == InsetFailed)
      ensures IsBoundary(parentNode) ==> inset == old(inset)
      ensures IsBoundary(parentNode) && Editor.CalledIn(old(editor.widgets), parentNode.kind.fn) ==>
                reply == CannotRenameUsed && unchanged(editor)
      ensures IsBoundary(parentNode) && !Editor.CalledIn(old(editor.widgets), parentNode.kind.fn) ==>
                var prev := parentNode.kind.fn;
                && reply == Silent
                && (port !in prev.outputs ==> unchanged(editor))
                && (port in prev.outputs && prev in old(editor.functions) ==>
                      var next := RenameOutput(prev, port, message);
                      && editor.functions == Seqs.RemoveFirst(old(editor.functions), prev) + [next]
                      && editor.widgets == Editor.Unbound(old(editor.widgets), prev)
                                           + Editor.Rebound(old(editor.widgets), prev, next, old(editor.nextId))
                      && editor.nextId == old(editor.nextId) + |Editor.Rebound(old(editor.widgets), prev, next, old(editor.nextId))|)
                && (port in prev.outputs && prev !in old(editor.functions) ==>
                      && editor.functions == old(editor.functions) && editor.widgets == old(editor.widgets)
                      && editor.nextId == old(editor.nextId))
      ensures editor.structs == old(editor.structs) && editor.actions == old(editor.actions)
      ensures editor.stopped == old(editor.stopped)
    {
      if IsBoundary(parentNode) {
        var prev := parentNode.kind.fn;
        var used := editor.FuncInUse(prev);
        if used {
          return CannotRenameUsed;
        }
        if port !in prev.outputs {
          return Silent;
        }
        editor.RedefineFunc(prev, RenameOutput(prev, port, message));
        return Silent;
      }
      if prepared.Some? {
        inset := prepared;
        reply := Silent;
      } else {
        reply := InsetFailed;
      }
    }

    /** `leftClick`: on a function's boundary node, deletes the output this input stands
        for, unless the function is called somewhere. */
    method LeftClick(editor: Editor.CodeEditor) returns (reply: Reply)
      requires editor.Valid()
      modifies editor
      ensures editor.Valid()
      ensures !IsBoundary(parentNode) ==> reply == Silent && unchanged(editor)
      ensures IsBoundary(parentNode) && Editor.CalledIn(old(editor.widgets), parentNode.kind.fn) ==>
                reply == CannotDeleteUsed && unchanged(editor)
      ensures IsBoundary(parentNode) && !Editor.CalledIn(old(editor.widgets), parentNode.kind.fn) ==>
                var prev := parentNode.kind.fn;
                var next := DeleteOutput(prev, port);
                && reply == Silent
                && (prev in old(editor.functions) ==>
                      && editor.functions == Seqs.RemoveFirst(old(editor.functions), prev) + [next]
                      && editor.widgets == Editor.Unbound(old(editor.widgets), prev)
                                           + Editor.Rebound(old(editor.widgets), prev, next, old(editor.nextId))
                      && editor.nextId == old(editor.nextId) + |Editor.Rebound(old(editor.widgets), prev, next, old(editor.nextId))|)
                && (prev !in old(editor.functions) ==>
                      && editor.functions == old(editor.functions) && editor.widgets == old(editor.widgets)
                      && editor.nextId == old(editor.nextId))
      ensures editor.structs == old(editor.structs) && editor.actions == old(editor.actions)
      ensures editor.stopped == old(editor.stopped)
    {
      if IsBoundary(parentNode) {
        var prev := parentNode.kind.fn;
        var used := editor.FuncInUse(prev);
        if used {
          return CannotDeleteUsed;
        }
        editor.RedefineFunc(prev, DeleteOutput(prev, port));
        return Silent;
      }
      return Silent;
    }
  }
}
