/** The store of split views and the second map from a source thread to its split view. */
module SplitViews {
  import opened Wrappers
  import opened Sequences
  import opened SplitTree

  datatype View = View(id: Id, source: Id, project: Id, root: Pane, focused: Id)

  datatype State = State(views: map<Id, View>, index: map<Id, Id>)

  const Empty := State(map[], map[])

  /** The values a call draws from the id generator. */
  datatype FreshIds = FreshIds(view: Id, firstLeaf: Id, secondLeaf: Id, split: Id)

  // ----- the transitions -----

  predicate HasThread(root: Pane) {
    exists leaf <- Leaves(root) :: leaf.thread.Some?
  }

  predicate FreeFor(thread: Id, view: Id, index: map<Id, Id>) {
    thread !in index || index[thread] == view
  }

  function FirstFree(leaves: seq<Pane>, view: Id, index: map<Id, Id>): Option<Id>
    requires forall leaf <- leaves :: leaf.Leaf?
  {
    if leaves == [] then None
    else if leaves[0].thread.Some? && FreeFor(leaves[0].thread.value, view, index) then leaves[0].thread
    else FirstFree(leaves[1..], view, index)
  }

  /** resolveNextSourceThreadId */
  function NextSource(root: Pane, view: Id, index: map<Id, Id>): Option<Id> {
    FirstFree(Leaves(root), view, index)
  }

  function ThreadView(source: Id, project: Id, ids: FreshIds): View {
    var root := Split(ids.split, Across, Leaf(ids.firstLeaf, Some(source), BlankPanel),
                      Leaf(ids.secondLeaf, None, BlankPanel), DEFAULT_RATIO);
    View(ids.view, source, project, root, ids.secondLeaf)
  }

  function DropView(view: Id, source: Id, project: Id, dropped: Id, axis: Axis, side: Side, ids: FreshIds): View {
    var root := Subdivision(Leaf(ids.firstLeaf, Some(source), BlankPanel), axis, side, dropped, ids.secondLeaf, ids.split);
    View(view, source, project, root, ids.secondLeaf)
  }

  function Put(s: State, view: View): State {
    State(s.views[view.id := view], s.index[view.source := view.id])
  }

  function CreateFromThread(s: State, source: Id, project: Id, ids: FreshIds): State {
    if source in s.index then s else Put(s, ThreadView(source, project, ids))
  }

  function CreateFromDrop(s: State, source: Id, project: Id, dropped: Id, axis: Axis, side: Side, ids: FreshIds): State {
    var view := if source in s.index && s.index[source] in s.views then s.index[source] else ids.view;
    Put(s, DropView(view, source, project, dropped, axis, side, ids))
  }

  function RemoveView(s: State, view: Id): State {
    if view !in s.views then s else State(s.views - {view}, s.index - {s.views[view].source})
  }

  /** The index without the source's entry, when that entry names the view. */
  function Unindex(index: map<Id, Id>, source: Id, view: Id): map<Id, Id> {
    if source in index && index[source] == view then index - {source} else index
  }

  function ReplacePaneThread(s: State, view: Id, pane: Id, thread: Option<Id>): State {
    if view !in s.views then s
    else
      var v := s.views[view];
      var leaf := FindLeaf(v.root, pane);
      if leaf.None? || leaf.value.thread == thread then s
      else
        var root := Replace(v.root, pane, leaf.value.(thread := thread));
        var next := if leaf.value.thread == Some(v.source) then NextSource(root, view, s.index) else Some(v.source);
        Reanchor(s, view, root, if HasThread(root) then next else None)
  }

  /** The view with a new tree, anchored at the next source; without one the view goes. */
  function Reanchor(s: State, view: Id, root: Pane, next: Option<Id>): State
    requires view in s.views
  {
    var v := s.views[view];
    if next.None? then State(s.views - {view}, Unindex(s.index, v.source, view))
    else
      var views := s.views[view := v.(root := root, source := next.value)];
      if next.value == v.source then State(views, s.index)
      else State(views, Unindex(s.index, v.source, view)[next.value := view])
  }

  predicate CanDrop(s: State, view: Id, target: Id, axis: Axis, thread: Id) {
    && view in s.views
    && var root := s.views[view].root;
       FindLeaf(root, target).Some? && !ShowsThread(root, thread) && CanSubdivide(root, target, axis)
  }

  function DropOnPane(s: State, view: Id, target: Id, axis: Axis, side: Side, thread: Id, ids: FreshIds): State {
    if !CanDrop(s, view, target, axis, thread) then s
    else
      var v := s.views[view];
      var split := Subdivision(FindLeaf(v.root, target).value, axis, side, thread, ids.firstLeaf, ids.split);
      State(s.views[view := v.(root := Replace(v.root, target, split), focused := ids.firstLeaf)], s.index)
  }

  /** The view once panes are removed from its tree, and the index after its source was given up if it went. */
  function Shrunk(s: State, view: Id, index: map<Id, Id>, result: Removal, next: Option<Id>): State
    requires view in s.views && result.root.Some?
  {
    if next.None? then State(s.views - {view}, index)
    else
      State(s.views[view := ShrunkView(s.views[view], result, next.value)],
            if next.value != s.views[view].source then index[next.value := view] else index)
  }

  function ShrunkView(v: View, result: Removal, source: Id): View
    requires result.root.Some?
  {
    var focused := if v.focused in result.removed then FirstLeafId(result.root.value) else v.focused;
    v.(source := source, root := result.root.value, focused := focused)
  }

  function RemovePaneFromView(s: State, view: Id, pane: Id): State {
    if view !in s.views || FindLeaf(s.views[view].root, pane).None? then s
    else
      var v := s.views[view];
      var losesSource := FindLeaf(v.root, pane).value.thread == Some(v.source);
      var result := RemovePane(v.root, pane);
      if result.removed == [] then s
      else if result.root.None? || !HasThread(result.root.value) then State(s.views - {view}, s.index - {v.source})
      else
        var index := if losesSource then s.index - {v.source} else s.index;
        Shrunk(s, view, index, result, if losesSource then NextSource(result.root.value, view, index) else Some(v.source))
  }

  function SetFocused(s: State, view: Id, pane: Id): State {
    if view !in s.views || FindLeaf(s.views[view].root, pane).None? then s
    else State(s.views[view := s.views[view].(focused := pane)], s.index)
  }

  function SetRatio(s: State, view: Id, split: Id, ratio: Option<real>): State {
    if view !in s.views then s
    else
      var v := s.views[view];
      var node := FindPane(v.root, split);
      if node.None? || node.value.Leaf? then s
      else State(s.views[view := v.(root := Replace(v.root, split, node.value.(ratio := ClampRatio(ratio))))], s.index)
  }

  function SetPanel(s: State, view: Id, pane: Id, panel: Panel): State {
    if view !in s.views then s
    else
      var v := s.views[view];
      var leaf := FindLeaf(v.root, pane);
      if leaf.None? then s
      else State(s.views[view := v.(root := Replace(v.root, pane, leaf.value.(panel := panel)))], s.index)
  }

  /** What deleting a thread does to one view: here the next source is chosen before the old entry goes. */
  function RemoveThreadFrom(s: State, view: Id, thread: Id): State {
    if view !in s.views then s
    else
      var v := s.views[view];
      var result := RemoveThread(v.root, thread);
      if result.removed == [] then s
      else if result.root.None? || !HasThread(result.root.value) then State(s.views - {view}, s.index - {v.source})
      else
        var losesSource := v.source == thread;
        Shrunk(s, view, if losesSource then s.index - {v.source} else s.index, result,
               if losesSource then NextSource(result.root.value, view, s.index) else Some(v.source))
  }

  /** removeThreadFromSplitViews, over the views in the order the store lists them. */
  function RemoveThreadFromAll(s: State, order: seq<Id>, thread: Id): State {
    if order == [] then s
    else RemoveThreadFrom(RemoveThreadFromAll(s, order[..|order| - 1], thread), order[|order| - 1], thread)
  }

  datatype Action =
    | FromThread(source: Id, project: Id, ids: FreshIds)
    | FromDrop(source: Id, project: Id, dropped: Id, axis: Axis, side: Side, ids: FreshIds)
    | Discard(view: Id)
    | SetThread(view: Id, pane: Id, shown: Option<Id>)
    | Drop(view: Id, pane: Id, axis: Axis, side: Side, thread: Id, ids: FreshIds)
    | ClosePane(view: Id, pane: Id)
    | Focus(view: Id, pane: Id)
    | SetNodeRatio(view: Id, pane: Id, ratio: Option<real>)
    | SetPanePanel(view: Id, pane: Id, panel: Panel)
    | DeleteThread(thread: Id, order: seq<Id>)

  function Step(s: State, a: Action): State {
    match a
    case FromThread(source, project, ids) => CreateFromThread(s, source, project, ids)
    case FromDrop(source, project, dropped, axis, side, ids) => CreateFromDrop(s, source, project, dropped, axis, side, ids)
    case Discard(view) => RemoveView(s, view)
    case SetThread(view, pane, shown) => ReplacePaneThread(s, view, pane, shown)
    case Drop(view, pane, axis, side, thread, ids) => DropOnPane(s, view, pane, axis, side, thread, ids)
    case ClosePane(view, pane) => RemovePaneFromView(s, view, pane)
    case Focus(view, pane) => SetFocused(s, view, pane)
    case SetNodeRatio(view, pane, ratio) => SetRatio(s, view, pane, ratio)
    case SetPanePanel(view, pane, panel) => SetPanel(s, view, pane, panel)
    case DeleteThread(thread, order) => RemoveThreadFromAll(s, order, thread)
  }

  /** The id generator never repeats itself within one tree, nor gives a live view's id to another. */
  predicate Draws(s: State, a: Action) {
    match a
    case FromThread(_, _, ids) => NewIds(s, ids)
    case FromDrop(_, _, _, _, _, ids) => NewIds(s, ids)
    case Drop(view, _, _, _, _, ids) =>
      view in s.views ==> ids.firstLeaf !in Ids(s.views[view].root) && ids.split !in Ids(s.views[view].root) && ids.firstLeaf != ids.split
    case _ => true
  }

  predicate NewIds(s: State, ids: FreshIds) {
    ids.view !in s.views && ids.firstLeaf != ids.secondLeaf && ids.firstLeaf != ids.split && ids.secondLeaf != ids.split
  }

  // ----- the invariants -----

  predicate ViewOk(v: View) {
    TreeOk(v.root, MAX_DEPTH) && ShowsLeaf(v.root, v.focused) && ShowsThread(v.root, v.source)
  }

  /** Every view is well formed, and every index entry names a live view anchored at that thread. */
  predicate Consistent(s: State) {
    && (forall k <- s.views :: s.views[k].id == k && ViewOk(s.views[k]))
    && (forall t <- s.index :: s.index[t] in s.views && s.views[s.index[t]].source == t)
  }

  predicate AllIndexed(s: State) {
    forall k <- s.views :: s.views[k].source in s.index && s.index[s.views[k].source] == k
  }

  predicate NoTwin(root: Pane) {
    forall a <- Leaves(root), b <- Leaves(root) :: a.thread.Some? && a.thread == b.thread ==> a == b
  }

  predicate NoTwins(s: State) {
    forall k <- s.views :: NoTwin(s.views[k].root)
  }

  // ----- changing one view -----

  predicate Within(a: map<Id, Id>, b: map<Id, Id>) {
    forall t <- a :: t in b && b[t] == a[t]
  }

  predicate OnlyDrops(a: map<Id, Id>, b: map<Id, Id>, source: Id) {
    Within(a, b) && forall t <- b :: t != source ==> t in a
  }

  /** A view goes together with the entry that names it. */
  lemma ForgetView(s: State, view: Id, index: map<Id, Id>)
    requires Consistent(s) && view in s.views && OnlyDrops(index, s.index, s.views[view].source)
    requires forall t <- index :: index[t] != view
    ensures Consistent(State(s.views - {view}, index))
    ensures AllIndexed(s) ==> AllIndexed(State(s.views - {view}, index))
    ensures NoTwins(s) ==> NoTwins(State(s.views - {view}, index))
  {
    hide ViewOk, NoTwin;
  }

  /** A view changes; its old source's entry may go and an entry for its new source may come. */
  lemma ChangeView(s: State, v: View, index: map<Id, Id>)
    requires Consistent(s) && v.id in s.views && ViewOk(v) && OnlyDrops(index, s.index, s.views[v.id].source)
    requires forall t <- index :: index[t] == v.id ==> t == v.source
    ensures Consistent(State(s.views[v.id := v], index))
    ensures AllIndexed(s) ==>
              (AllIndexed(State(s.views[v.id := v], index)) <==> v.source in index && index[v.source] == v.id)
    ensures FreeFor(v.source, v.id, index) ==>
              && Consistent(State(s.views[v.id := v], index[v.source := v.id]))
              && (AllIndexed(s) ==> AllIndexed(State(s.views[v.id := v], index[v.source := v.id])))
    ensures index == s.index && v.source == s.views[v.id].source && AllIndexed(s) ==> AllIndexed(State(s.views[v.id := v], index))
    ensures NoTwins(s) && NoTwin(v.root) ==> NoTwins(State(s.views[v.id := v], index))
  {
    hide ViewOk, NoTwin;
    var r := State(s.views[v.id := v], index);
    assert v.id in r.views && r.views[v.id] == v;
    if AllIndexed(s) && v.source in index && index[v.source] == v.id {
      forall k <- r.views
        ensures r.views[k].source in r.index && r.index[r.views[k].source] == k
      {
        if k != v.id {
          assert s.views[k].source != s.views[v.id].source;
        }
      }
    }
    if AllIndexed(s) && FreeFor(v.source, v.id, index) {
      var r := State(s.views[v.id := v], index[v.source := v.id]);
      forall k <- r.views
        ensures r.views[k].source in r.index && r.index[r.views[k].source] == k
      {
        if k != v.id {
          assert s.views[k].source != s.views[v.id].source;
        }
      }
    }
  }

  lemma AddView(s: State, v: View)
    requires Consistent(s) && v.id !in s.views && v.source !in s.index && ViewOk(v)
    ensures Consistent(Put(s, v))
    ensures AllIndexed(s) ==> AllIndexed(Put(s, v))
    ensures NoTwins(s) && NoTwin(v.root) ==> NoTwins(Put(s, v))
  {
    hide ViewOk, NoTwin;
  }

  // ----- every step keeps them -----

  lemma NextSourceIs(root: Pane, view: Id, index: map<Id, Id>)
    ensures var next := NextSource(root, view, index);
            next.Some? ==> ShowsThread(root, next.value) && HasThread(root) && FreeFor(next.value, view, index)
  {
    FirstFreeIs(Leaves(root), view, index);
  }

  lemma {:induction false} FirstFreeIs(leaves: seq<Pane>, view: Id, index: map<Id, Id>)
    requires forall leaf <- leaves :: leaf.Leaf?
    ensures var next := FirstFree(leaves, view, index);
            next.Some? ==> FreeFor(next.value, view, index) && exists leaf <- leaves :: leaf.thread == next
  {
    if leaves != [] && !(leaves[0].thread.Some? && FreeFor(leaves[0].thread.value, view, index)) {
      FirstFreeIs(leaves[1..], view, index);
    } else if leaves != [] {
      assert leaves[0] in leaves;
    }
  }

  lemma FromThreadKeeps(s: State, source: Id, project: Id, ids: FreshIds)
    requires Consistent(s) && NewIds(s, ids)
    ensures var r := CreateFromThread(s, source, project, ids);
            Consistent(r) && (AllIndexed(s) ==> AllIndexed(r)) && (NoTwins(s) ==> NoTwins(r))
  {
    ThreadViewOk(source, project, ids);
    hide ViewOk, NoTwin;
    if source !in s.index {
      AddView(s, ThreadView(source, project, ids));
    }
  }

  lemma ThreadViewOk(source: Id, project: Id, ids: FreshIds)
    requires ids.firstLeaf != ids.secondLeaf && ids.firstLeaf != ids.split && ids.secondLeaf != ids.split
    ensures var v := ThreadView(source, project, ids); ViewOk(v) && NoTwin(v.root)
  {
    var v := ThreadView(source, project, ids);
    var a, b := v.root.first, v.root.second;
    assert Leaves(v.root) == [a, b];
    assert a in Leaves(v.root) && b in Leaves(v.root);
    assert Ids(a) == {ids.firstLeaf} && Ids(b) == {ids.secondLeaf} && TreeOk(a, 1) && TreeOk(b, 1);
  }

  lemma DropViewOk(view: Id, source: Id, project: Id, dropped: Id, axis: Axis, side: Side, ids: FreshIds)
    requires ids.firstLeaf != ids.secondLeaf && ids.firstLeaf != ids.split && ids.secondLeaf != ids.split
    ensures var v := DropView(view, source, project, dropped, axis, side, ids);
            ViewOk(v) && (NoTwin(v.root) <==> dropped != source)
  {
    var v := DropView(view, source, project, dropped, axis, side, ids);
    var a, b := v.root.first, v.root.second;
    assert Leaves(v.root) == [a, b];
    assert a in Leaves(v.root) && b in Leaves(v.root);
  }

  lemma FromDropKeeps(s: State, source: Id, project: Id, dropped: Id, axis: Axis, side: Side, ids: FreshIds)
    requires Consistent(s) && NewIds(s, ids)
    ensures var r := CreateFromDrop(s, source, project, dropped, axis, side, ids);
            Consistent(r) && (AllIndexed(s) ==> AllIndexed(r)) && (NoTwins(s) && dropped != source ==> NoTwins(r))
  {
    var view := if source in s.index then s.index[source] else ids.view;
    var v := DropView(view, source, project, dropped, axis, side, ids);
    DropViewOk(view, source, project, dropped, axis, side, ids);
    if source in s.index {
      ChangeView(s, v, s.index);
    } else {
      AddView(s, v);
    }
  }

  lemma DiscardKeeps(s: State, view: Id)
    requires Consistent(s)
    ensures var r := RemoveView(s, view);
            Consistent(r) && (AllIndexed(s) ==> AllIndexed(r)) && (NoTwins(s) ==> NoTwins(r))
  {
    if view in s.views {
      ForgetView(s, view, s.index - {s.views[view].source});
    }
  }

  /** A leaf that shows another thread, or another panel, in the same place. */
  lemma ReplacedLeaf(v: View, pane: Id, leaf: Pane)
    requires ViewOk(v) && FindLeaf(v.root, pane).Some? && leaf.Leaf? && leaf.id == pane
    ensures var root, was := Replace(v.root, pane, leaf), FindLeaf(v.root, pane).value;
            && (forall x :: ShowsThread(root, x) ==> ViewOk(v.(root := root, source := x)))
            && (was.thread != Some(v.source) || leaf.thread == was.thread ==> ShowsThread(root, v.source))
            && (NoTwin(v.root) && (leaf.thread.Some? && leaf.thread != was.thread ==> !ShowsThread(v.root, leaf.thread.value)) ==> NoTwin(root))
  {
    var root, was := Replace(v.root, pane, leaf), FindLeaf(v.root, pane).value;
    FindLeafIs(v.root, pane, MAX_DEPTH);
    ReplaceKeepsOutline(v.root, pane, leaf, MAX_DEPTH);
    ReplaceInPlace(v.root, pane, leaf, MAX_DEPTH);
    assert forall l :: l in Leaves(root) <==> l == leaf || (l in Leaves(v.root) && l != was);
    hide *;
    ExchangedLeaf(v, root, was, leaf);
  }

  lemma ExchangedLeaf(v: View, root: Pane, was: Pane, leaf: Pane)
    requires ViewOk(v) && TreeOk(root, MAX_DEPTH) && was.Leaf? && leaf.Leaf? && leaf.id == was.id
    requires forall l :: l in Leaves(root) <==> l == leaf || (l in Leaves(v.root) && l != was)
    ensures forall x :: ShowsThread(root, x) ==> ViewOk(v.(root := root, source := x))
    ensures was.thread != Some(v.source) || leaf.thread == was.thread ==> ShowsThread(root, v.source)
    ensures NoTwin(v.root) && was in Leaves(v.root) && (leaf.thread.Some? && leaf.thread != was.thread ==> !ShowsThread(v.root, leaf.thread.value))
            ==> NoTwin(root)
  {
    hide TreeOk, Leaves;
    assert leaf in Leaves(root);
    var f :| f in Leaves(v.root) && f.id == v.focused;
    assert f == was || f in Leaves(root);
    var t :| t in Leaves(v.root) && t.thread == Some(v.source);
    assert t == was || t in Leaves(root);
  }

  lemma SetThreadKeeps(s: State, view: Id, pane: Id, thread: Option<Id>)
    requires Consistent(s)
    ensures var r := ReplacePaneThread(s, view, pane, thread);
            && Consistent(r) && (AllIndexed(s) ==> AllIndexed(r))
            && (NoTwins(s) && (thread.Some? && view in s.views ==> !ShowsThread(s.views[view].root, thread.value)) ==> NoTwins(r))
  {
    hide ViewOk, Replace, FindLeaf, ShowsThread, ShowsLeaf, NoTwin, HasThread, NextSource, AllIndexed, NoTwins, Consistent, Reanchor;
    if view in s.views && FindLeaf(s.views[view].root, pane).Some? && FindLeaf(s.views[view].root, pane).value.thread != thread {
      var v := s.views[view];
      var was := FindLeaf(v.root, pane).value;
      Live(s, view);
      LeafFound(v, pane);
      ReplacedLeaf(v, pane, was.(thread := thread));
      var root := Replace(v.root, pane, was.(thread := thread));
      NextSourceIs(root, view, s.index);
      var next := if was.thread == Some(v.source) then NextSource(root, view, s.index) else Some(v.source);
      ReanchorKeeps(s, view, root, if HasThread(root) then next else None);
    }
  }

  lemma ReanchorKeeps(s: State, view: Id, root: Pane, next: Option<Id>)
    requires Consistent(s) && view in s.views
    requires next.Some? ==> ViewOk(s.views[view].(root := root, source := next.value))
    requires next.Some? && next.value != s.views[view].source ==> FreeFor(next.value, view, s.index)
    ensures var r := Reanchor(s, view, root, next);
            Consistent(r) && (AllIndexed(s) ==> AllIndexed(r)) && (NoTwins(s) && NoTwin(root) ==> NoTwins(r))
  {
    hide ViewOk, NoTwin;
    var v := s.views[view];
    if next.None? {
      ForgetView(s, view, Unindex(s.index, v.source, view));
    } else if next.value == v.source {
      ChangeView(s, v.(root := root, source := next.value), s.index);
    } else {
      ChangeView(s, v.(root := root, source := next.value), Unindex(s.index, v.source, view));
    }
  }

  lemma Live(s: State, view: Id)
    requires Consistent(s) && view in s.views
    ensures s.views[view].id == view && ViewOk(s.views[view])
    ensures NoTwins(s) ==> NoTwin(s.views[view].root)
    ensures OnlyDrops(s.index, s.index, s.views[view].source)
    ensures forall t <- s.index :: s.index[t] == view ==> t == s.views[view].source
  {
  }

  lemma LeafFound(v: View, pane: Id)
    requires ViewOk(v)
    ensures var leaf := FindLeaf(v.root, pane); leaf.Some? ==> leaf.value.Leaf? && leaf.value.id == pane
    ensures FindLeaf(v.root, pane).Some? ==> ShowsLeaf(v.root, pane)
  {
    FindLeafIs(v.root, pane, MAX_DEPTH);
  }

  lemma DroppedView(v: View, pane: Id, axis: Axis, side: Side, thread: Id, ids: FreshIds)
    requires ViewOk(v) && ids.firstLeaf !in Ids(v.root) && ids.split !in Ids(v.root) && ids.firstLeaf != ids.split
    requires FindLeaf(v.root, pane).Some? && !ShowsThread(v.root, thread) && CanSubdivide(v.root, pane, axis)
    ensures var root := Replace(v.root, pane, Subdivision(FindLeaf(v.root, pane).value, axis, side, thread, ids.firstLeaf, ids.split));
            ViewOk(v.(root := root, focused := ids.firstLeaf)) && (NoTwin(v.root) ==> NoTwin(root))
  {
    hide Replace, FindPane, Leaves, Ids, TreeOk, NoTwin, ShowsThread, Substitute;
    var target := FindLeaf(v.root, pane).value;
    var split := Subdivision(target, axis, side, thread, ids.firstLeaf, ids.split);
    FindLeafIs(v.root, pane, MAX_DEPTH);
    SubdivideKeeps(v.root, pane, axis, side, thread, ids.firstLeaf, ids.split, MAX_DEPTH);
    ReplaceInPlace(v.root, pane, split, MAX_DEPTH);
    hide *;
    SubdividedLeaves(target, axis, side, thread, ids.firstLeaf, ids.split);
    WiderView(v, Replace(v.root, pane, split), Leaf(ids.firstLeaf, Some(thread), BlankPanel));
  }

  lemma SubdividedLeaves(target: Pane, axis: Axis, side: Side, thread: Id, newLeaf: Id, newSplit: Id)
    requires target.Leaf?
    ensures forall l :: l in Leaves(Subdivision(target, axis, side, thread, newLeaf, newSplit))
                        <==> l == Leaf(newLeaf, Some(thread), BlankPanel) || l == target
  {
    var split := Subdivision(target, axis, side, thread, newLeaf, newSplit);
    assert Leaves(split) == [split.first, split.second];
  }

  /** A tree with one more leaf, which takes the focus. */
  lemma WiderView(v: View, root: Pane, added: Pane)
    requires ViewOk(v) && TreeOk(root, MAX_DEPTH) && added.Leaf? && added.thread.Some?
    requires forall l :: l in Leaves(root) <==> l == added || l in Leaves(v.root)
    requires !ShowsThread(v.root, added.thread.value)
    ensures ViewOk(v.(root := root, focused := added.id)) && (NoTwin(v.root) ==> NoTwin(root))
  {
    hide TreeOk, Leaves;
    assert added in Leaves(root);
    var t :| t in Leaves(v.root) && t.thread == Some(v.source);
    assert t in Leaves(root);
  }

  lemma DropKeeps(s: State, view: Id, pane: Id, axis: Axis, side: Side, thread: Id, ids: FreshIds)
    requires Consistent(s) && Draws(s, Drop(view, pane, axis, side, thread, ids))
    ensures var r := DropOnPane(s, view, pane, axis, side, thread, ids);
            Consistent(r) && (AllIndexed(s) ==> AllIndexed(r)) && (NoTwins(s) ==> NoTwins(r))
  {
    hide ViewOk, TreeOk, Replace, FindLeaf, FindPane, Leaves, ShowsThread, NoTwin, CanSubdivide, Subdivision, Ids;
    if CanDrop(s, view, pane, axis, thread) {
      DroppedView(s.views[view], pane, axis, side, thread, ids);
      ChangeView(s, DropOnPane(s, view, pane, axis, side, thread, ids).views[view], s.index);
    }
  }

  lemma FocusKeeps(s: State, view: Id, pane: Id)
    requires Consistent(s)
    ensures var r := SetFocused(s, view, pane);
            Consistent(r) && (AllIndexed(s) ==> AllIndexed(r)) && (NoTwins(s) ==> NoTwins(r))
  {
    hide TreeOk, FindLeaf, ShowsLeaf, ShowsThread, NoTwin, NoTwins, AllIndexed, Consistent, OnlyDrops;
    if view in s.views && FindLeaf(s.views[view].root, pane).Some? {
      Live(s, view);
      LeafFound(s.views[view], pane);
      ChangeView(s, s.views[view].(focused := pane), s.index);
    }
  }

  lemma ResizedView(v: View, node: Id, ratio: Option<real>)
    requires ViewOk(v) && FindPane(v.root, node).Some? && FindPane(v.root, node).value.Split?
    ensures var root := Replace(v.root, node, FindPane(v.root, node).value.(ratio := ClampRatio(ratio)));
            ViewOk(v.(root := root)) && (NoTwin(v.root) ==> NoTwin(root))
  {
    FindLeafIs(v.root, node, MAX_DEPTH);
    ReplaceKeepsOutline(v.root, node, FindPane(v.root, node).value.(ratio := ClampRatio(ratio)), MAX_DEPTH);
  }

  lemma RatioKeeps(s: State, view: Id, node: Id, ratio: Option<real>)
    requires Consistent(s)
    ensures var r := SetRatio(s, view, node, ratio);
            Consistent(r) && (AllIndexed(s) ==> AllIndexed(r)) && (NoTwins(s) ==> NoTwins(r))
  {
    hide ViewOk, TreeOk, Replace, FindPane, Leaves, NoTwin;
    if view in s.views && FindPane(s.views[view].root, node).Some? && FindPane(s.views[view].root, node).value.Split? {
      ResizedView(s.views[view], node, ratio);
      ChangeView(s, SetRatio(s, view, node, ratio).views[view], s.index);
    }
  }

  lemma PanelKeeps(s: State, view: Id, pane: Id, panel: Panel)
    requires Consistent(s)
    ensures var r := SetPanel(s, view, pane, panel);
            Consistent(r) && (AllIndexed(s) ==> AllIndexed(r)) && (NoTwins(s) ==> NoTwins(r))
  {
    hide ViewOk, Replace, FindLeaf, ShowsThread, ShowsLeaf, NoTwin, NoTwins, AllIndexed, Consistent, OnlyDrops;
    if view in s.views && FindLeaf(s.views[view].root, pane).Some? {
      var v := s.views[view];
      Live(s, view);
      LeafFound(v, pane);
      ReplacedLeaf(v, pane, FindLeaf(v.root, pane).value.(panel := panel));
      ChangeView(s, SetPanel(s, view, pane, panel).views[view], s.index);
    }
  }

  // ----- removing panes from a view -----

  /** A view some of whose panes are gone. */
  lemma ShrunkViewOk(v: View, gone: set<Id>, result: Removal, source: Id)
    requires ViewOk(v) && result.root == Prune(v.root, gone) && result.root.Some?
    requires forall leaf <- Leaves(v.root) :: leaf.id in gone ==> leaf.id in result.removed
    requires ShowsThread(result.root.value, source)
    ensures ViewOk(ShrunkView(v, result, source))
    ensures forall leaf <- Leaves(result.root.value) :: leaf in Leaves(v.root) && leaf.id !in gone
    ensures forall leaf <- Leaves(v.root) :: leaf.id !in gone ==> leaf in Leaves(result.root.value)
    ensures NoTwin(v.root) ==> NoTwin(result.root.value)
  {
    PruneKeeps(v.root, gone, MAX_DEPTH);
    PruneLeaves(v.root, gone);
    var root := result.root.value;
    LeavesWithin(root, MAX_DEPTH);
    assert Leaves(root)[0] in Leaves(root);
    var f :| f in Leaves(v.root) && f.id == v.focused;
    hide TreeOk, Leaves, Prune;
    if f.id in result.removed {
      assert ShowsLeaf(root, Leaves(root)[0].id);
    } else {
      assert f in Leaves(root);
    }
  }

  /** The entry of a view being closed down can only be its own. */
  lemma ShrunkKeeps(s: State, view: Id, index: map<Id, Id>, result: Removal, next: Option<Id>)
    requires Consistent(s) && view in s.views && result.root.Some?
    requires OnlyDrops(index, s.index, s.views[view].source)
    requires next != Some(s.views[view].source) ==> forall t <- index :: index[t] != view
    requires next.Some? ==> ViewOk(ShrunkView(s.views[view], result, next.value))
    requires next.Some? && next.value != s.views[view].source ==> FreeFor(next.value, view, index)
    ensures var r := Shrunk(s, view, index, result, next);
            && Consistent(r)
            && (AllIndexed(s) ==> (AllIndexed(r) <==> (next == Some(s.views[view].source) ==> s.views[view].source in index)))
            && (NoTwins(s) && NoTwin(result.root.value) ==> NoTwins(r))
  {
    hide ViewOk, NoTwin;
    if next.None? {
      ForgetView(s, view, index);
    } else {
      ChangeView(s, ShrunkView(s.views[view], result, next.value), index);
    }
  }

  /** Closing this pane leaves the view anchored at the same thread, but takes the view out of the index. */
  predicate Strands(s: State, view: Id, pane: Id) {
    && view in s.views && FindLeaf(s.views[view].root, pane).Some?
    && FindLeaf(s.views[view].root, pane).value.thread == Some(s.views[view].source)
    && var root := RemovePane(s.views[view].root, pane).root;
       root.Some? && NextSource(root.value, view, s.index - {s.views[view].source}) == Some(s.views[view].source)
  }

  lemma ClosedView(v: View, pane: Id)
    requires ViewOk(v) && FindLeaf(v.root, pane).Some?
    ensures var result := RemovePane(v.root, pane);
            && result.removed != []
            && (result.root.Some? ==>
                  && (forall x :: ShowsThread(result.root.value, x) ==> ViewOk(ShrunkView(v, result, x)))
                  && (NoTwin(v.root) ==> NoTwin(result.root.value))
                  && (FindLeaf(v.root, pane).value.thread != Some(v.source) ==> ShowsThread(result.root.value, v.source))
                  && (NoTwin(v.root) && FindLeaf(v.root, pane).value.thread == Some(v.source) ==> !ShowsThread(result.root.value, v.source)))
            && (result.root.None? ==> FindLeaf(v.root, pane).value.thread == Some(v.source))
  {
    hide TreeOk, RemovePane, Prune, FindLeaf, Leaves, Remaining, ShrunkView;
    var result, was := RemovePane(v.root, pane), FindLeaf(v.root, pane).value;
    FindLeafIs(v.root, pane, MAX_DEPTH);
    RemovePaneIsPrune(v.root, pane);
    PruneLeaves(v.root, {pane});
    assert was in Leaves(v.root);
    assert pane in result.removed;
    var t :| t in Leaves(v.root) && t.thread == Some(v.source);
    if result.root.Some? {
      forall x | ShowsThread(result.root.value, x)
        ensures ViewOk(ShrunkView(v, result, x))
      {
        ShrunkViewOk(v, {pane}, result, x);
      }
    }
  }

  lemma CloseKeeps(s: State, view: Id, pane: Id)
    requires Consistent(s)
    ensures var r := RemovePaneFromView(s, view, pane);
            && Consistent(r)
            && (AllIndexed(s) ==> (AllIndexed(r) <==> !Strands(s, view, pane)))
            && (NoTwins(s) ==> NoTwins(r) && !Strands(s, view, pane))
  {
    hide ViewOk, FindLeaf, ShowsThread, NoTwin, NextSource, RemovePane, Shrunk, HasThread;
    if view in s.views && FindLeaf(s.views[view].root, pane).Some? {
      var v := s.views[view];
      ClosedView(v, pane);
      var result := RemovePane(v.root, pane);
      if result.root.Some? {
        NextSourceIs(result.root.value, view, s.index - {v.source});
      }
      if result.root.None? || !HasThread(result.root.value) {
        ForgetView(s, view, s.index - {v.source});
      } else {
        var losesSource := FindLeaf(v.root, pane).value.thread == Some(v.source);
        var index := if losesSource then s.index - {v.source} else s.index;
        NextSourceIs(result.root.value, view, index);
        ShrunkKeeps(s, view, index, result, if losesSource then NextSource(result.root.value, view, index) else Some(v.source));
      }
    }
  }

  // ----- deleting a thread -----

  lemma ThreadlessView(v: View, thread: Id)
    requires ViewOk(v)
    ensures var result := RemoveThread(v.root, thread);
            && (result.root.Some? && result.removed != [] ==>
                  && (forall x :: ShowsThread(result.root.value, x) ==> ViewOk(ShrunkView(v, result, x)))
                  && (NoTwin(v.root) ==> NoTwin(result.root.value))
                  && (v.source != thread <==> ShowsThread(result.root.value, v.source)))
            && (result.root.None? ==> v.source == thread)
  {
    hide TreeOk, RemoveThread, Prune, Leaves, Remaining, ShrunkView, Showing, RemoveInTurn;
    var result, gone := RemoveThread(v.root, thread), Showing(v.root, thread);
    RemoveThreadIsPrune(v.root, thread, MAX_DEPTH);
    PruneLeaves(v.root, gone);
    ThreadLeaves(v.root, thread);
    var t :| t in Leaves(v.root) && t.thread == Some(v.source);
    assert forall id <- gone :: id in ToSet(result.removed) && id in result.removed;
    if result.root.Some? {
      forall x | ShowsThread(result.root.value, x)
        ensures ViewOk(ShrunkView(v, result, x))
      {
        ShrunkViewOk(v, gone, result, x);
      }
    }
  }

  lemma ThreadLeaves(root: Pane, thread: Id)
    requires TreeOk(root, MAX_DEPTH)
    ensures forall leaf <- Leaves(root) :: leaf.id in Showing(root, thread) <==> leaf.thread == Some(thread)
  {
    ShowingIsInside(root, thread);
    forall leaf | leaf in Leaves(root)
      ensures leaf.id in Showing(root, thread) <==> leaf.thread == Some(thread)
    {
      FindLeafIs(root, leaf.id, MAX_DEPTH);
    }
  }

  lemma DeleteOneKeeps(s: State, view: Id, thread: Id)
    requires Consistent(s)
    ensures var r := RemoveThreadFrom(s, view, thread);
            Consistent(r) && (AllIndexed(s) ==> AllIndexed(r)) && (NoTwins(s) ==> NoTwins(r))
  {
    hide ViewOk, ShowsThread, NoTwin, NextSource, RemoveThread, Shrunk, HasThread;
    if view in s.views && RemoveThread(s.views[view].root, thread).removed != [] {
      var v := s.views[view];
      ThreadlessView(v, thread);
      var result := RemoveThread(v.root, thread);
      if result.root.None? || !HasThread(result.root.value) {
        ForgetView(s, view, s.index - {v.source});
      } else {
        NextSourceIs(result.root.value, view, s.index);
        var index := if v.source == thread then s.index - {v.source} else s.index;
        ShrunkKeeps(s, view, index, result, if v.source == thread then NextSource(result.root.value, view, s.index) else Some(v.source));
      }
    }
  }

  lemma {:induction false} DeleteKeeps(s: State, order: seq<Id>, thread: Id)
    requires Consistent(s)
    ensures var r := RemoveThreadFromAll(s, order, thread);
            Consistent(r) && (AllIndexed(s) ==> AllIndexed(r)) && (NoTwins(s) ==> NoTwins(r))
  {
    hide Consistent, AllIndexed, NoTwins, RemoveThreadFrom;
    if order != [] {
      DeleteKeeps(s, order[..|order| - 1], thread);
      DeleteOneKeeps(RemoveThreadFromAll(s, order[..|order| - 1], thread), order[|order| - 1], thread);
    }
  }

  // ----- runs -----

  /** No step places a thread in a second pane of a view. */
  predicate NoSecondPane(s: State, a: Action) {
    match a
    case FromDrop(source, _, dropped, _, _, _) => dropped != source
    case SetThread(view, _, shown) => shown.Some? && view in s.views ==> !ShowsThread(s.views[view].root, shown.value)
    case _ => true
  }

  /** Every step keeps the store consistent, and every view indexed except when closing a pane strands it. */
  lemma StepKeeps(s: State, a: Action)
    requires Consistent(s) && Draws(s, a)
    ensures Consistent(Step(s, a))
    ensures AllIndexed(s) ==> (AllIndexed(Step(s, a)) <==> !(a.ClosePane? && Strands(s, a.view, a.pane)))
    ensures NoTwins(s) && NoSecondPane(s, a) ==> NoTwins(Step(s, a))
    ensures NoTwins(s) && AllIndexed(s) ==> AllIndexed(Step(s, a))
  {
    hide Consistent, AllIndexed, NoTwins, CreateFromThread, CreateFromDrop, RemoveView, ReplacePaneThread, DropOnPane,
         RemovePaneFromView, SetFocused, SetRatio, SetPanel, RemoveThreadFromAll, Strands, NewIds, ShowsThread, Ids;
    match a
    case FromThread(source, project, ids) => FromThreadKeeps(s, source, project, ids);
    case FromDrop(source, project, dropped, axis, side, ids) => FromDropKeeps(s, source, project, dropped, axis, side, ids);
    case Discard(view) => DiscardKeeps(s, view);
    case SetThread(view, pane, shown) => SetThreadKeeps(s, view, pane, shown);
    case Drop(view, pane, axis, side, thread, ids) => DropKeeps(s, view, pane, axis, side, thread, ids);
    case ClosePane(view, pane) => CloseKeeps(s, view, pane);
    case Focus(view, pane) => FocusKeeps(s, view, pane);
    case SetNodeRatio(view, pane, ratio) => RatioKeeps(s, view, pane, ratio);
    case SetPanePanel(view, pane, panel) => PanelKeeps(s, view, pane, panel);
    case DeleteThread(thread, order) => DeleteKeeps(s, order, thread);
  }

  function Run(s: State, actions: seq<Action>): State
    decreases actions
  {
    if actions == [] then s else Run(Step(s, actions[0]), actions[1..])
  }

  predicate RunDraws(s: State, actions: seq<Action>)
    decreases actions
  {
    actions == [] || (Draws(s, actions[0]) && RunDraws(Step(s, actions[0]), actions[1..]))
  }

  predicate RunHasNoTwins(s: State, actions: seq<Action>)
    decreases actions
  {
    actions == [] || (NoSecondPane(s, actions[0]) && RunHasNoTwins(Step(s, actions[0]), actions[1..]))
  }

  lemma {:induction false} RunKeeps(s: State, actions: seq<Action>)
    requires Consistent(s) && RunDraws(s, actions)
    ensures Consistent(Run(s, actions))
    ensures NoTwins(s) && AllIndexed(s) && RunHasNoTwins(s, actions) ==> NoTwins(Run(s, actions)) && AllIndexed(Run(s, actions))
    decreases actions
  {
    hide Consistent, AllIndexed, NoTwins, Step, Draws, NoSecondPane;
    if actions != [] {
      StepKeeps(s, actions[0]);
      RunKeeps(Step(s, actions[0]), actions[1..]);
    }
  }

  /**
   * In every run from the empty store: trees at most two splits deep with alternating axes, hence at
   * most four leaves, distinct ids and bounded ratios; the focused pane is a leaf, the source is shown
   * by a leaf, and every index entry names a live view with that source.
   */
  lemma EveryRun(actions: seq<Action>)
    requires RunDraws(Empty, actions)
    ensures var r := Run(Empty, actions);
            && (forall k <- r.views ::
                  var v := r.views[k];
                  && TreeOk(v.root, 2) && |Leaves(v.root)| <= 4
                  && ShowsLeaf(v.root, v.focused) && ShowsThread(v.root, v.source))
            && (forall t <- r.index :: r.index[t] in r.views && r.views[r.index[t]].source == t)
  {
    RunKeeps(Empty, actions);
    var r := Run(Empty, actions);
    hide TreeOk, ShowsLeaf, ShowsThread, Run, RunDraws;
    forall k | k in r.views
      ensures |Leaves(r.views[k].root)| <= 4
    {
      LeavesWithin(r.views[k].root, 2);
      assert Power2(2) == 2 * (2 * Power2(0));
    }
  }

  /** When no thread is ever placed in a second pane of a view, every view is indexed and no two share a source. */
  lemma EveryTwinlessRun(actions: seq<Action>)
    requires RunDraws(Empty, actions) && RunHasNoTwins(Empty, actions)
    ensures var r := Run(Empty, actions);
            && AllIndexed(r)
            && forall j <- r.views, k <- r.views :: r.views[j].source == r.views[k].source ==> j == k
  {
    RunKeeps(Empty, actions);
    hide Run, RunDraws, RunHasNoTwins;
  }

  lemma OpenedOnce(view: View, ids: FreshIds)
    requires ids == FreshIds(10, 1, 2, 3) && view == ThreadView(7, 0, ids)
    ensures Draws(Empty, FromThread(7, 0, ids)) && Step(Empty, FromThread(7, 0, ids)) == State(map[10 := view], map[7 := 10])
    ensures view.root == Split(3, Across, Leaf(1, Some(7), BlankPanel), Leaf(2, None, BlankPanel), DEFAULT_RATIO) && view.source == 7
  {
  }

  lemma PlacedTwice(view: View, pair: Pane, s: State, t: State)
    requires view.source == 7
    requires view.root == Split(3, Across, Leaf(1, Some(7), BlankPanel), Leaf(2, None, BlankPanel), DEFAULT_RATIO)
    requires pair == view.root.(second := Leaf(2, Some(7), BlankPanel))
    requires s == State(map[10 := view], map[7 := 10]) && t == State(map[10 := view.(root := pair)], map[7 := 10])
    ensures Draws(s, SetThread(10, 2, Some(7))) && Step(s, SetThread(10, 2, Some(7))) == t && t.views[10].source == 7
  {
    var twin := Leaf(2, Some(7), BlankPanel);
    assert FindLeaf(view.root, 2) == Some(view.root.second);
    assert Replace(view.root, 2, twin) == pair;
    assert Leaves(pair) == [pair.first, twin];
    assert twin in Leaves(pair);
  }

  lemma ClosedOnce(s: State, pair: Pane)
    requires 10 in s.views && s.views[10].root == pair && s.views[10].source == 7 && s.views.Keys == {10} && s.index == map[7 := 10]
    requires pair == Split(3, Across, Leaf(1, Some(7), BlankPanel), Leaf(2, Some(7), BlankPanel), DEFAULT_RATIO)
    ensures Draws(s, ClosePane(10, 1)) && !AllIndexed(Step(s, ClosePane(10, 1)))
  {
    var twin := pair.second;
    assert RemovePane(pair.first, 1) == Removal(None, [1]) && RemovePane(twin, 1) == Removal(Some(twin), []);
    assert RemovePane(pair, 1) == Removal(Some(twin), [1]);
    assert Leaves(twin) == [twin] && twin in Leaves(twin);
    assert NextSource(twin, 10, map[]) == Some(7);
    assert FindLeaf(pair, 1) == Some(pair.first);
    assert Step(s, ClosePane(10, 1)).index == map[];
    assert 10 in Step(s, ClosePane(10, 1)).views;
  }

  /** With a thread in two panes, closing the indexed one leaves a live view that the index no longer names. */
  lemma TwinStrandsView()
    ensures exists actions :: RunDraws(Empty, actions) && !AllIndexed(Run(Empty, actions))
  {
    hide *;
    var ids := FreshIds(10, 1, 2, 3);
    var view, twin := ThreadView(7, 0, ids), Leaf(2, Some(7), BlankPanel);
    var pair := Split(3, Across, Leaf(1, Some(7), BlankPanel), twin, DEFAULT_RATIO);
    var s1, s2 := State(map[10 := view], map[7 := 10]), State(map[10 := view.(root := pair)], map[7 := 10]);
    OpenedOnce(view, ids);
    PlacedTwice(view, pair, s1, s2);
    ClosedOnce(s2, pair);
    ThreeSteps(Empty, FromThread(7, 0, ids), SetThread(10, 2, Some(7)), ClosePane(10, 1));
  }

  lemma ThreeSteps(s: State, a: Action, b: Action, c: Action)
    ensures var t, u := Step(s, a), Step(Step(s, a), b);
            && Run(s, [a, b, c]) == Step(u, c)
            && (RunDraws(s, [a, b, c]) <==> Draws(s, a) && Draws(t, b) && Draws(u, c))
  {
    hide Step, Draws;
    assert [a, b, c][1..] == [b, c] && [b, c][1..] == [c] && [c][1..] == [];
    var u := Step(Step(s, a), b);
    assert Run(u, [c]) == Run(Step(u, c), []);
    assert RunDraws(u, [c]) <==> Draws(u, c) && RunDraws(Step(u, c), []);
  }

  /** Dropping a thread on a pane and closing the pane it got gives the store back, except for the focus. */
  lemma CloseUndoesDrop(s: State, view: Id, pane: Id, axis: Axis, side: Side, thread: Id, ids: FreshIds)
    requires Consistent(s) && Draws(s, Drop(view, pane, axis, side, thread, ids)) && CanDrop(s, view, pane, axis, thread)
    ensures var v := s.views[view];
            RemovePaneFromView(DropOnPane(s, view, pane, axis, side, thread, ids), view, ids.firstLeaf)
            == s.(views := s.views[view := v.(focused := FirstLeafId(v.root))])
  {
    hide TreeOk, Replace, FindPane, Leaves, RemovePane, CanSubdivide, Ids, ShowsLeaf, HasThread;
    var v := s.views[view];
    var dropped := DropOnPane(s, view, pane, axis, side, thread, ids).views[view];
    DroppedView(v, pane, axis, side, thread, ids);
    RemoveUndoesDrop(v.root, pane, axis, side, thread, ids.firstLeaf, ids.split, MAX_DEPTH);
    DroppedLeaf(v, pane, axis, side, thread, ids);
    SourceIsThread(v);
  }

  lemma SourceIsThread(v: View)
    requires ViewOk(v)
    ensures HasThread(v.root)
  {
  }

  lemma DroppedLeaf(v: View, pane: Id, axis: Axis, side: Side, thread: Id, ids: FreshIds)
    requires ViewOk(v) && ids.firstLeaf !in Ids(v.root) && ids.split !in Ids(v.root) && ids.firstLeaf != ids.split
    requires FindLeaf(v.root, pane).Some? && !ShowsThread(v.root, thread) && CanSubdivide(v.root, pane, axis)
    ensures var root := Replace(v.root, pane, Subdivision(FindLeaf(v.root, pane).value, axis, side, thread, ids.firstLeaf, ids.split));
            FindLeaf(root, ids.firstLeaf) == Some(Leaf(ids.firstLeaf, Some(thread), BlankPanel)) && v.source != thread
  {
    hide Replace, FindPane, Leaves, TreeOk, Substitute, CanSubdivide;
    var target := FindLeaf(v.root, pane).value;
    var split := Subdivision(target, axis, side, thread, ids.firstLeaf, ids.split);
    var root, added := Replace(v.root, pane, split), Leaf(ids.firstLeaf, Some(thread), BlankPanel);
    DroppedView(v, pane, axis, side, thread, ids);
    FindLeafIs(v.root, pane, MAX_DEPTH);
    ReplaceInPlace(v.root, pane, split, MAX_DEPTH);
    SubdividedLeaves(target, axis, side, thread, ids.firstLeaf, ids.split);
    assert added in Leaves(root);
    FindLeafIs(root, ids.firstLeaf, MAX_DEPTH);
  }
}
