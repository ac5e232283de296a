/**
 * The code editor: its arena of widgets, the function and struct tables, the players'
 * current actions, persistence, and the structural edits on definitions.
 */
module Editor {

  import opened Wrappers
  import opened Graph
  import opened Codec
  import opened NodeCodec
  import opened NodeCodecLemmas
  import Persistence
  import Seqs

  // ---------------------------------------------------------------------------
  // What the edits on function definitions do to the arena

  /** The widgets bound to `fn` (its boundary nodes), in arena order. */
  function Bound(ws: seq<Widget>, fn: FunctionDef): (r: seq<Widget>)
    ensures forall w :: w in r <==> w in ws && BoundToFn(w, fn)
    ensures forall k :: 0 <= k < |r| ==> BoundToFn(r[k], fn)
  {
    if ws == [] then []
    else if BoundToFn(ws[0], fn) then [ws[0]] + Bound(ws[1..], fn)
    else Bound(ws[1..], fn)
  }

  /** The widgets not bound to `fn`, in arena order. */
  function Unbound(ws: seq<Widget>, fn: FunctionDef): (r: seq<Widget>)
    ensures forall w :: w in r <==> w in ws && !BoundToFn(w, fn)
    ensures |r| <= |ws|
  {
    if ws == [] then []
    else if BoundToFn(ws[0], fn) then Unbound(ws[1..], fn)
    else [ws[0]] + Unbound(ws[1..], fn)
  }

  /** The boundary node of `next` that replaces a boundary widget of the old definition. */
  function Replacement(w: Widget, next: FunctionDef, id: nat): Widget
    requires w.NodeW?
  {
    NewNodeWidget(id, Node(if w.node.kind.FnInputs? then FnInputs(next) else FnOutputs(next), DefaultData), w.origin)
  }

  /** One fresh replacement per widget bound to `prev`, in arena order, numbered from `id`. */
  function Rebound(ws: seq<Widget>, prev: FunctionDef, next: FunctionDef, id: nat): seq<Widget>
  {
    if ws == [] then []
    else if BoundToFn(ws[0], prev) then [Replacement(ws[0], next, id)] + Rebound(ws[1..], prev, next, id + 1)
    else Rebound(ws[1..], prev, next, id)
  }

  /** Some widget holds a call of `fn`. */
  predicate CalledIn(ws: seq<Widget>, fn: FunctionDef)
  {
    exists i :: 0 <= i < |ws| && ws[i].NodeW? && ws[i].node.kind == Call(fn)
  }

  /** Every widget has a distinct identity. */
  predicate UniqueIds(ws: seq<Widget>)
  {
    forall i, j :: 0 <= i < j < |ws| ==> ws[i].id != ws[j].id
  }

  /** The replacements are fresh boundary widgets of `next`, one per old boundary widget
      and in the same order, each at the origin of the widget it replaces, and of the
      same side (inputs or outputs); their identities count up from `id`. */
  lemma {:induction false} ReboundReplacesEach(ws: seq<Widget>, prev: FunctionDef, next: FunctionDef, id: nat)
    ensures var b := Bound(ws, prev); var r := Rebound(ws, prev, next, id);
            && |r| == |b|
            && forall k :: 0 <= k < |r| ==>
                 && r[k].NodeW? && r[k].id == id + k && BoundToFn(r[k], next)
                 && r[k].origin == b[k].origin
                 && (r[k].node.kind.FnInputs? <==> b[k].node.kind.FnInputs?)
                 && r[k].inputs == Unwired(InputCount(r[k].node))
    decreases ws
  {
    if ws != [] {
      ReboundReplacesEach(ws[1..], prev, next, if BoundToFn(ws[0], prev) then id + 1 else id);
    }
  }

  /** With distinct widgets, removing the bound ones one by one (as `remove` does) leaves
      exactly the unbound ones, in order. */
  lemma {:induction false} RemovingBoundLeavesUnbound(ws: seq<Widget>, fn: FunctionDef)
    requires UniqueIds(ws)
    ensures Seqs.RemoveEach(ws, Bound(ws, fn)) == Unbound(ws, fn)
    decreases ws
  {
    if ws != [] {
      var h, t := ws[0], ws[1..];
      assert ws == [h] + t;
      assert UniqueIds(t) by {
        forall i, j | 0 <= i < j < |t| ensures t[i].id != t[j].id {
          assert t[i] == ws[i + 1] && t[j] == ws[j + 1];
        }
      }
      RemovingBoundLeavesUnbound(t, fn);
      if BoundToFn(h, fn) {
        assert Bound(ws, fn)[0] == h && Bound(ws, fn)[1..] == Bound(t, fn);
      } else {
        assert h !in Bound(t, fn) by {
          forall i | 0 <= i < |t| ensures t[i] != h {
            assert ws[i + 1] == t[i];
          }
        }
        Seqs.RemoveEachSkipsHead(h, t, Bound(t, fn));
      }
    }
  }

  lemma {:induction false} BoundAppend(a: seq<Widget>, b: seq<Widget>, fn: FunctionDef)
    ensures Bound(a + b, fn) == Bound(a, fn) + Bound(b, fn)
    decreases a
  {
    if a == [] {
      assert a + b == b;
    } else {
      Seqs.TailOfAppend(a, b);
      BoundAppend(a[1..], b, fn);
      if BoundToFn(a[0], fn) {
        Seqs.ConsAppend(a[0], Bound(a[1..], fn), Bound(b, fn));
      }
    }
  }

  lemma {:induction false} ReboundAppend(a: seq<Widget>, b: seq<Widget>, prev: FunctionDef, next: FunctionDef, id: nat)
    ensures Rebound(a + b, prev, next, id)
         == Rebound(a, prev, next, id) + Rebound(b, prev, next, id + |Rebound(a, prev, next, id)|)
    decreases a
  {
    if a == [] {
      assert a + b == b;
    } else {
      Seqs.TailOfAppend(a, b);
      var id' := if BoundToFn(a[0], prev) then id + 1 else id;
      ReboundAppend(a[1..], b, prev, next, id');
      if BoundToFn(a[0], prev) {
        Seqs.ConsAppend(Replacement(a[0], next, id), Rebound(a[1..], prev, next, id'),
                        Rebound(b, prev, next, id' + |Rebound(a[1..], prev, next, id')|));
      }
    }
  }

  lemma BoundSnoc(ws: seq<Widget>, i: nat, fn: FunctionDef)
    requires i < |ws|
    ensures Bound(ws[..i + 1], fn) == Bound(ws[..i], fn) + (if BoundToFn(ws[i], fn) then [ws[i]] else [])
  {
    Seqs.TakeSnoc(ws, i);
    BoundAppend(ws[..i], [ws[i]], fn);
    assert [ws[i]][1..] == [];
  }

  lemma ReboundSnoc(ws: seq<Widget>, i: nat, prev: FunctionDef, next: FunctionDef, id: nat)
    requires i < |ws|
    ensures var before := Rebound(ws[..i], prev, next, id);
            var added := if BoundToFn(ws[i], prev) then [Replacement(ws[i], next, id + |before|)] else [];
            Rebound(ws[..i + 1], prev, next, id) == before + added
  {
    Seqs.TakeSnoc(ws, i);
    ReboundAppend(ws[..i], [ws[i]], prev, next, id);
    assert [ws[i]][1..] == [];
  }

  // ---------------------------------------------------------------------------
  // What the edits on struct definitions do to the arena

  /** The position of the first widget bound to `st`, if any. */
  function FirstBoundToStruct(ws: seq<Widget>, st: StructDef): (r: Option<nat>)
    ensures r.None? <==> forall i :: 0 <= i < |ws| ==> !BoundToStruct(ws[i], st)
    ensures r.Some? ==> r.value < |ws| && BoundToStruct(ws[r.value], st)
                        && forall i :: 0 <= i < r.value ==> !BoundToStruct(ws[i], st)
  {
    if ws == [] then None
    else if BoundToStruct(ws[0], st) then Some(0)
    else match FirstBoundToStruct(ws[1..], st)
      case None => None
      case Some(i) => Some(i + 1)
  }

  lemma UniqueAt(ws: seq<Widget>, i: nat)
    requires UniqueIds(ws) && i < |ws|
    ensures ws[i] !in ws[..i]
  {
    forall j | 0 <= j < i ensures ws[..i][j] != ws[i] {
      assert ws[j].id != ws[i].id;
    }
  }

  /** No widget bound to the old definition survives a redefinition to a different one. */
  lemma NoStaleBoundary(ws: seq<Widget>, prev: FunctionDef, next: FunctionDef, id: nat)
    requires prev != next
    ensures forall w :: w in Unbound(ws, prev) + Rebound(ws, prev, next, id) ==> !BoundToFn(w, prev)
  {
    ReboundReplacesEach(ws, prev, next, id);
    var r := Rebound(ws, prev, next, id);
    forall w | w in r ensures !BoundToFn(w, prev) {
      var k :| 0 <= k < |r| && r[k] == w;
      assert BoundToFn(r[k], next);
    }
  }

  lemma {:induction false} UnboundUnique(ws: seq<Widget>, fn: FunctionDef)
    requires UniqueIds(ws)
    ensures UniqueIds(Unbound(ws, fn))
    decreases ws
  {
    if ws != [] {
      var t := ws[1..];
      assert UniqueIds(t) by {
        forall i, j | 0 <= i < j < |t| ensures t[i].id != t[j].id {
          assert t[i] == ws[i + 1] && t[j] == ws[j + 1];
        }
      }
      UnboundUnique(t, fn);
      if !BoundToFn(ws[0], fn) {
        var u := Unbound(t, fn);
        forall j | 0 <= j < |u| ensures u[j].id != ws[0].id {
          assert u[j] in t;
          var k :| 0 <= k < |t| && t[k] == u[j];
          assert ws[k + 1] == u[j];
        }
      }
    }
  }

  /** Two identity-unique sequences whose identities lie on either side of `n`. */
  lemma ConcatUnique(a: seq<Widget>, b: seq<Widget>, n: nat)
    requires UniqueIds(a) && UniqueIds(b)
    requires forall i :: 0 <= i < |a| ==> a[i].id < n
    requires forall i :: 0 <= i < |b| ==> n <= b[i].id
    ensures UniqueIds(a + b)
  {
    forall i, j | 0 <= i < j < |a + b| ensures (a + b)[i].id != (a + b)[j].id {
      if j < |a| {
        assert (a + b)[i] == a[i] && (a + b)[j] == a[j];
      } else if i >= |a| {
        assert (a + b)[i] == b[i - |a|] && (a + b)[j] == b[j - |a|];
      } else {
        assert (a + b)[i] == a[i] && (a + b)[j] == b[j - |a|];
      }
    }
  }

  /** Dropping one widget keeps identities unique. */
  lemma WithoutUnique(ws: seq<Widget>, i: nat)
    requires UniqueIds(ws) && i < |ws|
    ensures UniqueIds(ws[..i] + ws[i + 1..])
    ensures forall w :: w in ws[..i] + ws[i + 1..] ==> w in ws
  {
    var r := ws[..i] + ws[i + 1..];
    forall p, q | 0 <= p < q < |r| ensures r[p].id != r[q].id {
      var p' := if p < i then p else p + 1;
      var q' := if q < i then q else q + 1;
      assert r[p] == ws[p'] && r[q] == ws[q'];
    }
  }

  /** `remove(widget)` on a widget of the arena: it drops exactly that widget. */
  lemma RemoveKnownWidget(ws: seq<Widget>, w: Widget, n: nat)
    requires UniqueIds(ws) && forall i :: 0 <= i < |ws| ==> ws[i].id < n
    ensures w in ws ==> Seqs.RemoveFirst(ws, w) == ws[..Seqs.IndexOf(ws, w)] + ws[Seqs.IndexOf(ws, w) + 1..]
    ensures UniqueIds(Seqs.RemoveFirst(ws, w))
    ensures forall i :: 0 <= i < |Seqs.RemoveFirst(ws, w)| ==> Seqs.RemoveFirst(ws, w)[i].id < n
  {
    if w in ws {
      var i := Seqs.IndexOf(ws, w);
      Seqs.RemoveFirstIndexOf(ws, w);
      WithoutUnique(ws, i);
      var r := ws[..i] + ws[i + 1..];
      forall k | 0 <= k < |r| ensures r[k].id < n {
        assert r[k] == ws[if k < i then k else k + 1];
      }
    }
  }

  /** The replacements carry distinct identities from `n` up to `n` plus their count. */
  lemma ReboundFresh(ws: seq<Widget>, prev: FunctionDef, next: FunctionDef, n: nat)
    ensures var b := Rebound(ws, prev, next, n);
            UniqueIds(b) && forall i :: 0 <= i < |b| ==> n <= b[i].id < n + |b|
  {
    ReboundReplacesEach(ws, prev, next, n);
  }

  lemma UnboundBelow(ws: seq<Widget>, prev: FunctionDef, n: nat)
    requires forall i :: 0 <= i < |ws| ==> ws[i].id < n
    ensures forall i :: 0 <= i < |Unbound(ws, prev)| ==> Unbound(ws, prev)[i].id < n
  {
    var u := Unbound(ws, prev);
    forall i | 0 <= i < |u| ensures u[i].id < n {
      assert u[i] in ws;
      var k :| 0 <= k < |ws| && ws[k] == u[i];
    }
  }

  lemma ConcatBelow(a: seq<Widget>, b: seq<Widget>, n: nat)
    requires forall i :: 0 <= i < |a| ==> a[i].id < n
    requires forall i :: 0 <= i < |b| ==> b[i].id < n
    ensures forall i :: 0 <= i < |a + b| ==> (a + b)[i].id < n
  {
    forall i | 0 <= i < |a + b| ensures (a + b)[i].id < n {
      if i >= |a| {
        assert (a + b)[i] == b[i - |a|];
      } else {
        assert (a + b)[i] == a[i];
      }
    }
  }

  /** After `redefineFunc`, identities stay distinct and below the advanced counter. */
  lemma RedefinedUnique(ws: seq<Widget>, prev: FunctionDef, next: FunctionDef, n: nat)
    requires UniqueIds(ws) && forall i :: 0 <= i < |ws| ==> ws[i].id < n
    ensures Seqs.RemoveEach(ws, Bound(ws, prev)) == Unbound(ws, prev)
    ensures var r := Unbound(ws, prev) + Rebound(ws, prev, next, n);
            UniqueIds(r) && forall i :: 0 <= i < |r| ==> r[i].id < n + |Rebound(ws, prev, next, n)|
  {
    RemovingBoundLeavesUnbound(ws, prev);
    UnboundUnique(ws, prev);
    var u, b := Unbound(ws, prev), Rebound(ws, prev, next, n);
    UnboundBelow(ws, prev, n);
    ReboundFresh(ws, prev, next, n);
    ConcatUnique(u, b, n);
    ConcatBelow(u, b, n + |b|);
  }

  /** The body of the scan of `redefineFunc` for a widget bound to `prev`: a fresh
      boundary node of the same side for `next`, numbered after those already collected. */
  method AddReplacement(addMe: seq<Widget>, w: Widget, prev: FunctionDef, next: FunctionDef, id: nat)
    returns (r: seq<Widget>)
    requires BoundToFn(w, prev)
    ensures r == addMe + [Replacement(w, next, id + |addMe|)]
  {
    r := addMe;
    if w.node.kind == FnInputs(prev) {
      r := r + [NewNodeWidget(id + |addMe|, Node(FnInputs(next), DefaultData), w.origin)];
    }
    if w.node.kind == FnOutputs(prev) {
      r := r + [NewNodeWidget(id + |addMe|, Node(FnOutputs(next), DefaultData), w.origin)];
    }
  }

  /** The scan of `redefineFunc`: the widgets bound to `prev`, and a replacement bound to
      `next` for each, numbered from `id`, both in arena order. */
  method CollectBoundary(ws: seq<Widget>, prev: FunctionDef, next: FunctionDef, id: nat)
    returns (removeMe: seq<Widget>, addMe: seq<Widget>)
    ensures removeMe == Bound(ws, prev)
    ensures addMe == Rebound(ws, prev, next, id)
  {
    removeMe, addMe := [], [];
    for i := 0 to |ws|
      invariant removeMe == Bound(ws[..i], prev)
      invariant addMe == Rebound(ws[..i], prev, next, id)
    {
      var w := ws[i];
      BoundSnoc(ws, i, prev);
      ReboundSnoc(ws, i, prev, next, id);
      if w.NodeW? && (w.node.kind.FnInputs? || w.node.kind.FnOutputs?) && w.node.kind.fn == prev {
        addMe := AddReplacement(addMe, w, prev, next, id);
        removeMe := removeMe + [w];
      }
    }
    assert ws[..|ws|] == ws;
  }

  /** The scan of `removeFunc`: the widgets bound to `fn`, in arena order. */
  method CollectBound(ws: seq<Widget>, fn: FunctionDef) returns (removeMe: seq<Widget>)
    ensures removeMe == Bound(ws, fn)
  {
    removeMe := [];
    for i := 0 to |ws|
      invariant removeMe == Bound(ws[..i], fn)
    {
      Seqs.TakeSnoc(ws, i);
      BoundAppend(ws[..i], [ws[i]], fn);
      assert [ws[i]][1..] == [];
      if ws[i].NodeW? && (ws[i].node.kind.FnInputs? || ws[i].node.kind.FnOutputs?) && ws[i].node.kind.fn == fn {
        removeMe := removeMe + [ws[i]];
      }
    }
    assert ws[..|ws|] == ws;
  }

  /** The scan of `redefineStruct` and `removeStruct`: the first widget bound to `st`. */
  method FindBoundStruct(ws: seq<Widget>, st: StructDef) returns (r: Option<nat>)
    ensures r == FirstBoundToStruct(ws, st)
  {
    var i := 0;
    while i < |ws|
      invariant 0 <= i <= |ws|
      invariant forall j :: 0 <= j < i ==> !BoundToStruct(ws[j], st)
    {
      if ws[i].NodeW? && (ws[i].node.kind.StructInit? || ws[i].node.kind.StructCreate?) && ws[i].node.kind.st == st {
        return Some(i);
      }
      i := i + 1;
    }
    return None;
  }

  /** Only the first widget bound to a struct leaves the arena: when the arena holds at
      most one such widget, none is left; when it holds two, the later one stays. */
  lemma {:induction false} DroppingFirstBoundStruct(ws: seq<Widget>, st: StructDef, i: nat)
    requires FirstBoundToStruct(ws, st) == Some(i)
    ensures (forall j :: 0 <= j < |ws| && BoundToStruct(ws[j], st) ==> j == i) ==>
              forall w :: w in ws[..i] + ws[i + 1..] ==> !BoundToStruct(w, st)
    ensures forall j :: i < j < |ws| && BoundToStruct(ws[j], st) ==>
              ws[j] in ws[..i] + ws[i + 1..] && BoundToStruct(ws[j], st)
  {
    var r := ws[..i] + ws[i + 1..];
    if forall j :: 0 <= j < |ws| && BoundToStruct(ws[j], st) ==> j == i {
      forall w | w in r ensures !BoundToStruct(w, st) {
        var k :| 0 <= k < |r| && r[k] == w;
        assert r[k] == ws[if k < i then k else k + 1];
      }
    }
    forall j | i < j < |ws| && BoundToStruct(ws[j], st) ensures ws[j] in r {
      assert r[j - 1] == ws[j];
    }
  }

  /** Appending a widget with identity `n` keeps identities distinct and below `n + 1`. */
  lemma AppendFresh(ws: seq<Widget>, w: Widget, n: nat)
    requires UniqueIds(ws) && forall i :: 0 <= i < |ws| ==> ws[i].id < n
    requires w.id == n
    ensures UniqueIds(ws + [w]) && forall i :: 0 <= i < |ws + [w]| ==> (ws + [w])[i].id < n + 1
  {
    var r := ws + [w];
    forall i, j | 0 <= i < j < |r| ensures r[i].id != r[j].id {
      assert r[i] == ws[i];
    }
  }

  /** The file `save` writes, as the sequence of writes that produce it. */
  lemma EncodeFlat(structs: seq<StructDef>, fns: seq<FunctionDef>, widgets: seq<Widget>,
                   head: seq<Token>, defs: seq<Token>, file: seq<Token>)
    requires head == [TInt(CurrentVersion)] + [TInt(|structs|)] + EncodeStructs(structs)
    requires defs == head + [TInt(|fns|)] + EncodeFunctions(fns)
    requires file == defs + [TInt(|NodeWidgets(widgets)|)] + EncodeNodes(NodeWidgets(widgets), NodeWidgets(widgets))
    ensures file == Encode(structs, fns, widgets)
  {
    var nodes := NodeWidgets(widgets);
    Seqs.Assoc7([TInt(CurrentVersion)], [TInt(|structs|)], EncodeStructs(structs), [TInt(|fns|)],
                EncodeFunctions(fns), [TInt(|nodes|)], EncodeNodes(nodes, nodes));
  }

  /** The nodes held by the node widgets of `ws`, in order. */
  function NodesOf(ws: seq<Widget>): seq<Node>
  {
    if ws == [] then []
    else if ws[0].NodeW? then [ws[0].node] + NodesOf(ws[1..])
    else NodesOf(ws[1..])
  }

  lemma {:induction false} NodesOfAppend(a: seq<Widget>, b: seq<Widget>)
    ensures NodesOf(a + b) == NodesOf(a) + NodesOf(b)
    decreases a
  {
    if a == [] {
      assert a + b == b;
    } else {
      Seqs.TailOfAppend(a, b);
      NodesOfAppend(a[1..], b);
      if a[0].NodeW? {
        Seqs.AppendAssoc([a[0].node], NodesOf(a[1..]), NodesOf(b));
      }
    }
  }

  lemma NodesOfSnoc(ws: seq<Widget>, i: nat)
    requires i < |ws|
    ensures NodesOf(ws[..i + 1]) == NodesOf(ws[..i]) + (if ws[i].NodeW? then [ws[i].node] else [])
  {
    Seqs.TakeSnoc(ws, i);
    NodesOfAppend(ws[..i], [ws[i]]);
    assert [ws[i]][1..] == [];
  }

  /** `NodesOf` lists, position by position, the nodes of `NodeWidgets`. */
  lemma {:induction false} NodesOfNodeWidgets(ws: seq<Widget>)
    ensures |NodesOf(ws)| == |NodeWidgets(ws)|
    ensures forall k :: 0 <= k < |NodesOf(ws)| ==> NodesOf(ws)[k] == NodeWidgets(ws)[k].node
    decreases ws
  {
    if ws != [] {
      var t := ws[1..];
      NodesOfNodeWidgets(t);
      if ws[0].NodeW? {
        var ns, nw := NodesOf(ws), NodeWidgets(ws);
        assert ns == [ws[0].node] + NodesOf(t) && nw == [ws[0]] + NodeWidgets(t);
        forall k | 0 <= k < |ns| ensures ns[k] == nw[k].node {
          if k > 0 {
            assert ns[k] == NodesOf(t)[k - 1] && nw[k] == NodeWidgets(t)[k - 1];
          }
        }
      }
    }
  }

  // ---------------------------------------------------------------------------
  // The editor

  /** A player of the editor, by identity. */
  type PlayerId = nat

  /** An editor action in progress (moving or deleting a selection, ...), by identity. */
  datatype EditorAction = EditorAction(id: nat)

  class CodeEditor {
    /** The arena: every widget of the editor, in creation order. */
    var widgets: seq<Widget>
    var functions: seq<FunctionDef>
    var structs: seq<StructDef>
    /** The action each player is performing. */
    var actions: map<PlayerId, EditorAction>
    /** The actions `stop` was called on, in call order. */
    var stopped: seq<EditorAction>
    /** The identity the next new widget gets. */
    var nextId: nat

    /** Widget identities are distinct and all below `nextId`. */
    ghost predicate Valid()
      reads this
    {
      UniqueIds(widgets) && forall i :: 0 <= i < |widgets| ==> widgets[i].id < nextId
    }

    /** An empty editor (the event listeners the constructor installs are not modelled). */
    constructor ()
      ensures Valid()
      ensures widgets == [] && functions == [] && structs == [] && actions == map[] && stopped == [] && nextId == 0
    {
      widgets, functions, structs, actions, stopped, nextId := [], [], [], map[], [], 0;
    }

    /** `remove(widget)`: the first widget equal to `w` leaves the arena. */
    method Remove(w: Widget)
      requires Valid()
      modifies this
      ensures Valid()
      ensures widgets == Seqs.RemoveFirst(old(widgets), w)
      ensures functions == old(functions) && structs == old(structs) && nextId == old(nextId)
      ensures actions == old(actions) && stopped == old(stopped)
    {
      var rest := Seqs.RemoveFirst(widgets, w);
      RemoveKnownWidget(widgets, w, nextId);
      widgets := rest;
    }

    /** `setAction`: the player's current action, if any, is stopped; then the player's
        action becomes `action`, or the player has none when it is None. */
    method SetAction(player: PlayerId, action: Option<EditorAction>)
      modifies this
      ensures stopped == old(stopped) + (if player in old(actions) then [old(actions)[player]] else [])
      ensures action.None? ==> actions == old(actions) - {player}
      ensures action.Some? ==> actions == old(actions)[player := action.value]
      ensures widgets == old(widgets) && functions == old(functions) && structs == old(structs)
      ensures nextId == old(nextId)
    {
      if player in actions {
        stopped := stopped + [actions[player]];
      }
      if action.None? {
        actions := actions - {player};
      } else {
        actions := actions[player := action.value];
      }
    }

    /** `getWidget`: the first non-null answer of a widget's `select`, asked in arena order.
        `select` stands for `Widget.select(player, cursor)`. */
    method GetWidget(select: Widget -> Option<Widget>) returns (r: Option<Widget>)
      ensures r.None? <==> forall i :: 0 <= i < |widgets| ==> select(widgets[i]).None?
      ensures r.Some? ==> exists i :: 0 <= i < |widgets| && select(widgets[i]) == r
                                      && forall j :: 0 <= j < i ==> select(widgets[j]).None?
    {
      for i := 0 to |widgets|
        invariant forall j :: 0 <= j < i ==> select(widgets[j]).None?
      {
        var res := select(widgets[i]);
        if res.Some? {
          return res;
        }
      }
      return None;
    }

    /** `getNodes`: the nodes of the node widgets, in arena order. */
    method GetNodes() returns (ns: seq<Node>)
      ensures |ns| == |NodeWidgets(widgets)|
      ensures forall i :: 0 <= i < |ns| ==> ns[i] == NodeWidgets(widgets)[i].node
      ensures forall n :: n in ns ==> exists w :: w in widgets && w.NodeW? && w.node == n
    {
      ns := [];
      for i := 0 to |widgets|
        invariant ns == NodesOf(widgets[..i])
      {
        NodesOfSnoc(widgets, i);
        if widgets[i].NodeW? {
          ns := ns + [widgets[i].node];
        }
      }
      assert widgets[..|widgets|] == widgets;
      NodesOfNodeWidgets(widgets);
      forall n | n in ns ensures exists w :: w in widgets && w.NodeW? && w.node == n {
        var k :| 0 <= k < |ns| && ns[k] == n;
        assert NodeWidgets(widgets)[k] in widgets;
      }
    }

    /** `funcInUse`: whether some widget holds a call of `check`. */
    method FuncInUse(check: FunctionDef) returns (b: bool)
      ensures b <==> CalledIn(widgets, check)
    {
      for i := 0 to |widgets|
        invariant forall j :: 0 <= j < i ==> !(widgets[j].NodeW? && widgets[j].node.kind == Call(check))
      {
        if widgets[i].NodeW? && widgets[i].node.kind.Call? && widgets[i].node.kind.fn == check {
          return true;
        }
      }
      return false;
    }

    /** `structInUse`: whether some widget holds a construction node of `check`. */
    method StructInUse(check: StructDef) returns (b: bool)
      ensures b <==> exists i :: 0 <= i < |widgets| && widgets[i].NodeW? && widgets[i].node.kind == StructCreate(check)
    {
      for i := 0 to |widgets|
        invariant forall j :: 0 <= j < i ==> !(widgets[j].NodeW? && widgets[j].node.kind == StructCreate(check))
      {
        if widgets[i].NodeW? && widgets[i].node.kind.StructCreate? && widgets[i].node.kind.st == check {
          return true;
        }
      }
      return false;
    }

    /** Removes the given widgets one at a time, each with `remove`. */
    method RemoveAll(removeMe: seq<Widget>)
      requires Valid()
      modifies this
      ensures Valid()
      ensures widgets == Seqs.RemoveEach(old(widgets), removeMe)
      ensures functions == old(functions) && structs == old(structs) && nextId == old(nextId)
      ensures actions == old(actions) && stopped == old(stopped)
    {
      for k := 0 to |removeMe|
        invariant Valid()
        invariant widgets == Seqs.RemoveEach(old(widgets), removeMe[..k])
        invariant functions == old(functions) && structs == old(structs) && nextId == old(nextId)
        invariant actions == old(actions) && stopped == old(stopped)
      {
        Remove(removeMe[k]);
        Seqs.RemoveEachSnoc(old(widgets), removeMe[..k], removeMe[k]);
        Seqs.TakeSnoc(removeMe, k);
      }
      assert removeMe[..|removeMe|] == removeMe;
    }

    /** `redefineFunc`: if `prev` is a defined function, it is replaced by `next` at the
        end of the table, every widget bound to `prev` leaves the arena, and a fresh
        boundary widget of `next` is added at the end for each, at the same origin. */
    method RedefineFunc(prev: FunctionDef, next: FunctionDef)
      requires Valid()
      modifies this
      ensures Valid()
      ensures prev !in old(functions) ==> widgets == old(widgets) && functions == old(functions) && nextId == old(nextId)
      ensures prev in old(functions) ==>
                && functions == Seqs.RemoveFirst(old(functions), prev) + [next]
                && widgets == Unbound(old(widgets), prev) + Rebound(old(widgets), prev, next, old(nextId))
                && nextId == old(nextId) + |Rebound(old(widgets), prev, next, old(nextId))|
      ensures structs == old(structs) && actions == old(actions) && stopped == old(stopped)
    {
      if prev !in functions {
        return;
      }
      functions := Seqs.RemoveFirst(functions, prev);
      functions := functions + [next];
      var removeMe, addMe := CollectBoundary(widgets, prev, next, nextId);
      RedefinedUnique(widgets, prev, next, nextId);
      RemoveAll(removeMe);
      widgets := widgets + addMe;
      nextId := nextId + |addMe|;
    }

    /** `removeFunc`: if `fn` is a defined function, it leaves the table and every widget
        bound to it leaves the arena. */
    method RemoveFunc(fn: FunctionDef)
      requires Valid()
      modifies this
      ensures Valid()
      ensures fn !in old(functions) ==> widgets == old(widgets) && functions == old(functions)
      ensures fn in old(functions) ==>
                functions == Seqs.RemoveFirst(old(functions), fn) && widgets == Unbound(old(widgets), fn)
      ensures structs == old(structs) && nextId == old(nextId) && actions == old(actions) && stopped == old(stopped)
    {
      if fn !in functions {
        return;
      }
      functions := Seqs.RemoveFirst(functions, fn);
      var removeMe := CollectBound(widgets, fn);
      RemovingBoundLeavesUnbound(widgets, fn);
      RemoveAll(removeMe);
    }

    /** `redefineStruct`: if `prev` is a defined struct, it is replaced by `next` at the end
        of the table; the first widget bound to `prev` leaves the arena and, when it is the
        struct's initialization node, a fresh one of `next` is added at the end, at the
        same origin. */
    method RedefineStruct(prev: StructDef, next: StructDef)
      requires Valid()
      modifies this
      ensures Valid()
      ensures prev !in old(structs) ==> structs == old(structs) && widgets == old(widgets) && nextId == old(nextId)
      ensures prev in old(structs) ==> structs == Seqs.RemoveFirst(old(structs), prev) + [next]
      ensures prev in old(structs) && FirstBoundToStruct(old(widgets), prev).None? ==>
                widgets == old(widgets) && nextId == old(nextId)
      ensures prev in old(structs) && FirstBoundToStruct(old(widgets), prev).Some? ==>
                var i := FirstBoundToStruct(old(widgets), prev).value;
                var w := old(widgets)[i];
                var rest := old(widgets)[..i] + old(widgets)[i + 1..];
                if w.node.kind == StructInit(prev) then
                  && widgets == rest + [NewNodeWidget(old(nextId), Node(StructInit(next), DefaultData), w.origin)]
                  && nextId == old(nextId) + 1
                else widgets == rest && nextId == old(nextId)
      ensures functions == old(functions) && actions == old(actions) && stopped == old(stopped)
    {
      if prev !in structs {
        return;
      }
      structs := Seqs.RemoveFirst(structs, prev) + [next];
      var found := FindBoundStruct(widgets, prev);
      if found.Some? {
        ReplaceStructNode(found.value, prev, next);
      }
    }

    /** The edit of `redefineStruct` on the widget at `i`, the first bound to `prev`: it
        leaves the arena and, when it is the struct's initialization node, a fresh one of
        `next` is added at the end, at the same origin. */
    method ReplaceStructNode(i: nat, prev: StructDef, next: StructDef)
      requires Valid() && i < |widgets| && BoundToStruct(widgets[i], prev)
      modifies this
      ensures Valid()
      ensures var w := old(widgets)[i];
              var rest := old(widgets)[..i] + old(widgets)[i + 1..];
              if w.node.kind == StructInit(prev) then
                && widgets == rest + [NewNodeWidget(old(nextId), Node(StructInit(next), DefaultData), w.origin)]
                && nextId == old(nextId) + 1
              else widgets == rest && nextId == old(nextId)
      ensures functions == old(functions) && structs == old(structs) && actions == old(actions) && stopped == old(stopped)
    {
      var w := widgets[i];
      var addMe: Option<Widget> := None;
      if w.node.kind == StructInit(prev) {
        addMe := Some(NewNodeWidget(nextId, Node(StructInit(next), DefaultData), w.origin));
      }
      UniqueAt(widgets, i);
      Seqs.RemoveFirstAt(widgets, i);
      RemoveThenAdd(w, addMe);
    }

    /** The closing step of `redefineStruct`: `removeMe` leaves the arena, then `addMe`,
        when there is one, joins at the end with the next free identity. */
    method RemoveThenAdd(removeMe: Widget, addMe: Option<Widget>)
      requires Valid()
      requires addMe.Some? ==> addMe.value.id == nextId
      modifies this
      ensures Valid()
      ensures widgets == Seqs.RemoveFirst(old(widgets), removeMe) + (if addMe.Some? then [addMe.value] else [])
      ensures nextId == old(nextId) + (if addMe.Some? then 1 else 0)
      ensures functions == old(functions) && structs == old(structs) && actions == old(actions) && stopped == old(stopped)
    {
      Remove(removeMe);
      if addMe.Some? {
        AppendFresh(widgets, addMe.value, nextId);
        widgets := widgets + [addMe.value];
        nextId := nextId + 1;
      } else {
        assert widgets + [] == widgets;
      }
    }

    /** `removeStruct`: if `st` is a defined struct, it leaves the table and the first
        widget bound to it leaves the arena. */
    method RemoveStruct(st: StructDef)
      requires Valid()
      modifies this
      ensures Valid()
      ensures st !in old(structs) ==> structs == old(structs) && widgets == old(widgets)
      ensures st in old(structs) ==> structs == Seqs.RemoveFirst(old(structs), st)
      ensures st in old(structs) ==>
                match FirstBoundToStruct(old(widgets), st)
                case None => widgets == old(widgets)
                case Some(i) => widgets == old(widgets)[..i] + old(widgets)[i + 1..]
      ensures functions == old(functions) && nextId == old(nextId) && actions == old(actions) && stopped == old(stopped)
    {
      if st !in structs {
        return;
      }
      structs := Seqs.RemoveFirst(structs, st);
      var ws := widgets;
      var found := FindBoundStruct(ws, st);
      if found.Some? {
        var i := found.value;
        UniqueAt(ws, i);
        Seqs.RemoveFirstAt(ws, i);
        Remove(ws[i]);
      }
    }

    /** `save`: the file written is the encoding of the struct table, the function table
        and the node widgets of the arena (writing it to disk is not modelled). */
    method Save() returns (file: seq<Token>)
      ensures file == Encode(structs, functions, widgets)
    {
      var sts, fns, ws := structs, functions, widgets;
      var buf := new Persistence.TokenBuffer();
      buf.Write(TInt(CurrentVersion));
      assert buf.tokens == [TInt(CurrentVersion)];
      buf.Write(TInt(|sts|));
      Persistence.WriteStructs(buf, sts);
      ghost var head := buf.tokens;
      assert head == [TInt(CurrentVersion)] + [TInt(|sts|)] + EncodeStructs(sts);
      buf.Write(TInt(|fns|));
      Persistence.WriteFunctions(buf, fns);
      ghost var defs := buf.tokens;
      assert defs == head + [TInt(|fns|)] + EncodeFunctions(fns);
      var nodes := Persistence.CollectNodes(ws);
      buf.Write(TInt(|nodes|));
      ghost var counted := buf.tokens;
      Persistence.WriteNodes(buf, nodes);
      assert buf.tokens == counted + EncodeNodes(nodes, nodes);
      EncodeFlat(sts, fns, ws, head, defs, buf.tokens);
      file := buf.tokens;
    }

    /** `load`: every widget leaves the arena; then, when a file is there (`file` is None
        when it is missing or cannot be read), its tables replace the editor's. A load that
        succeeds hands out the identities `0 .. slotCount - 1` again. */
    method Load(file: Option<seq<Token>>, reg: Registry, migrate: (int, seq<Token>) -> seq<Token>)
      returns (r: Result<(), DecodeError>)
      requires Valid()
      modifies this
      ensures Valid()
      ensures file.None? ==> r.Ok? && widgets == [] && structs == old(structs)
                             && functions == old(functions) && nextId == old(nextId)
      ensures file.Some? ==>
                match Decode(file.value, reg, migrate)
                case Ok(l) =>
                  && r.Ok? && widgets == l.widgets && structs == l.structs && functions == l.functions
                  && nextId == l.slotCount
                case Err(e) => r == Err(e)
      ensures actions == old(actions) && stopped == old(stopped)
    {
      widgets := [];
      if file.None? {
        return Ok(());
      }
      var ts := file.value;
      var version :- ReadInt(ts);
      var body := migrate(version.0, version.1);
      var loaded :- Persistence.LoadBody(body, version.0, reg);
      DecodeWellFormed(ts, reg, migrate);
      var live := loaded.widgets;
      assert UniqueIds(live) by {
        forall i, j | 0 <= i < j < |live| ensures live[i].id != live[j].id {
          assert live[i].id < live[j].id;
        }
      }
      structs, functions, widgets, nextId := loaded.structs, loaded.functions, live, loaded.slotCount;
      r := Ok(());
    }
  }
}
