/** Which thread a split view is anchored at, and what the index says, after each step that takes panes' threads away. */
module SplitAnchors {
  import opened Wrappers
  import opened Sequences
  import opened SplitTree
  import opened SplitViews
  import opened SplitEffects

  /** The view a thread is the indexed source of. */
  function ViewOf(index: map<Id, Id>, thread: Id): Option<Id> {
    if thread in index then Some(index[thread]) else None
  }

  /** Of all entries only two differ: the one given up, and the one the view gains under its new source. */
  ghost predicate Moved(before: map<Id, Id>, after: map<Id, Id>, givenUp: Option<Id>, gained: Option<Id>, view: Id) {
    forall t: Id :: ViewOf(after, t) ==
      if gained == Some(t) then Some(view) else if givenUp == Some(t) then None else ViewOf(before, t)
  }

  /** The view is anchored at the thread of its first leaf that is not the source of another view. */
  ghost predicate AnchoredFirst(v: View, index: map<Id, Id>) {
    FirstAnchors(Leaves(v.root), v.id, index, Some(v.source))
  }

  /** What a step may not change of a view: who it is. */
  predicate SameView(before: View, after: View) {
    after.id == before.id && after.project == before.project
  }

  // ----- discarding a view -----

  /** A view that is discarded goes with its source's entry, whichever view that named; nothing else changes. */
  lemma DiscardShows(s: State, view: Id)
    ensures var r := RemoveView(s, view);
            && OthersStay(s, r, view) && view !in r.views
            && Moved(s.index, r.index, if view in s.views then Some(s.views[view].source) else None, None, view)
  {
  }

  // ----- another thread in a pane -----

  lemma SetThreadIs(s: State, view: Id, pane: Id, thread: Option<Id>)
    requires view in s.views && FindLeaf(s.views[view].root, pane).Some?
    requires FindLeaf(s.views[view].root, pane).value.thread != thread
    ensures var v := s.views[view];
            var leaf := FindLeaf(v.root, pane).value;
            var root := Replace(v.root, pane, leaf.(thread := thread));
            var next := if leaf.thread == Some(v.source) then NextSource(root, view, s.index) else Some(v.source);
            ReplacePaneThread(s, view, pane, thread) == Reanchor(s, view, root, if HasThread(root) then next else None)
  {
    hide Reanchor, NextSource, HasThread, Replace, FindLeaf;
  }

  /**
   * Only a pane that showed the source can cost a view its anchor. Then the view is anchored anew at its
   * first free thread, under which it is indexed, and the old entry goes exactly when it named the view.
   */
  lemma SetThreadAnchors(s: State, view: Id, pane: Id, thread: Option<Id>)
    requires Consistent(s) && view in s.views && FindLeaf(s.views[view].root, pane).Some?
    requires FindLeaf(s.views[view].root, pane).value.thread != thread
    ensures var r, v := ReplacePaneThread(s, view, pane, thread), s.views[view];
            var lost := FindLeaf(v.root, pane).value.thread == Some(v.source);
            var entry := if ViewOf(s.index, v.source) == Some(view) then Some(v.source) else None;
            && (view in r.views ==> SameView(v, r.views[view]))
            && (!lost ==> view in r.views && r.views[view].source == v.source && r.index == s.index)
            && (lost && view in r.views ==>
                  && AnchoredFirst(r.views[view], s.index)
                  && (r.views[view].source == v.source ==> r.index == s.index)
                  && (r.views[view].source != v.source ==> Moved(s.index, r.index, entry, Some(r.views[view].source), view)))
            && (view !in r.views ==> Moved(s.index, r.index, entry, None, view))
  {
    var v := s.views[view];
    var leaf := FindLeaf(v.root, pane).value;
    var root := Replace(v.root, pane, leaf.(thread := thread));
    Live(s, view);
    SetThreadIs(s, view, pane, thread);
    ReplacedLeaf(v, pane, leaf.(thread := thread));
    if leaf.thread != Some(v.source) {
      ShownHasThread(root, v.source);
    }
    hide *;
    NextSourceIff(root, view, s.index);
    ReanchorIs(s, view, root, NextSource(root, view, s.index));
    ReanchorIs(s, view, root, Some(v.source));
    ReanchorIs(s, view, root, None);
    assert NextSource(root, view, s.index).Some? ==> HasThread(root);
    AnchoredIs(View(view, v.source, v.project, root, v.focused), NextSource(root, view, s.index), s.index);
  }

  lemma AnchoredIs(v: View, next: Option<Id>, index: map<Id, Id>)
    ensures next.Some? ==>
              (FirstAnchors(Leaves(v.root), v.id, index, next) <==> AnchoredFirst(v.(source := next.value), index))
  {
    hide Leaves, FirstAnchors;
  }

  lemma ReanchorIs(s: State, view: Id, root: Pane, next: Option<Id>)
    requires view in s.views && s.views[view].id == view
    ensures var r, v := Reanchor(s, view, root, next), s.views[view];
            var entry := if ViewOf(s.index, v.source) == Some(view) then Some(v.source) else None;
            && (next.None? ==> view !in r.views && Moved(s.index, r.index, entry, None, view))
            && (next.Some? ==>
                  && view in r.views && r.views[view] == View(view, next.value, v.project, root, v.focused)
                  && (next.value == v.source ==> r.index == s.index)
                  && (next.value != v.source ==> Moved(s.index, r.index, entry, next, view)))
  {
  }

  // ----- closing a pane -----

  lemma ShrunkIs(s: State, view: Id, index: map<Id, Id>, result: Removal, next: Option<Id>)
    requires view in s.views && s.views[view].id == view && result.root.Some?
    ensures var r, v := Shrunk(s, view, index, result, next), s.views[view];
            && (next.None? ==> view !in r.views && r.index == index)
            && (next.Some? ==>
                  && view in r.views && SameView(v, r.views[view])
                  && r.views[view].source == next.value && r.views[view].root == result.root.value
                  && (next.value == v.source ==> r.index == index)
                  && (next.value != v.source ==> Moved(index, r.index, None, next, view)))
  {
  }

  lemma CloseIs(s: State, view: Id, pane: Id)
    requires view in s.views && FindLeaf(s.views[view].root, pane).Some? && RemovePane(s.views[view].root, pane).removed != []
    ensures var v := s.views[view];
            var result := RemovePane(v.root, pane);
            var loses := FindLeaf(v.root, pane).value.thread == Some(v.source);
            var index := if loses then s.index - {v.source} else s.index;
            RemovePaneFromView(s, view, pane) ==
            if result.root.None? || !HasThread(result.root.value) then State(s.views - {view}, s.index - {v.source})
            else Shrunk(s, view, index, result, if loses then NextSource(result.root.value, view, index) else Some(v.source))
  {
    hide Shrunk, NextSource, HasThread, RemovePane, FindLeaf;
  }

  lemma WithoutEntry(index: map<Id, Id>, source: Id, view: Id)
    ensures Moved(index, index - {source}, Some(source), None, view)
    ensures forall after: map<Id, Id>, next: Id :: next != source && Moved(index - {source}, after, None, Some(next), view)
              ==> Moved(index, after, Some(source), Some(next), view)
  {
  }

  /**
   * Closing a pane that does not show the source leaves anchor and index alone. Otherwise the old entry
   * goes, whichever view it named, and the view is anchored at the first thread left that is free.
   */
  lemma CloseAnchors(s: State, view: Id, pane: Id)
    requires Consistent(s) && view in s.views && FindLeaf(s.views[view].root, pane).Some?
    ensures var r, v := RemovePaneFromView(s, view, pane), s.views[view];
            var loses := FindLeaf(v.root, pane).value.thread == Some(v.source);
            && (view in r.views ==> SameView(v, r.views[view]))
            && (!loses ==> view in r.views && r.views[view].source == v.source && r.index == s.index)
            && (loses && view in r.views ==>
                  && AnchoredFirst(r.views[view], s.index - {v.source})
                  && Moved(s.index, r.index, Some(v.source),
                           if r.views[view].source == v.source then None else Some(r.views[view].source), view))
            && (view !in r.views ==> Moved(s.index, r.index, Some(v.source), None, view))
  {
    var v := s.views[view];
    var result := RemovePane(v.root, pane);
    var loses := FindLeaf(v.root, pane).value.thread == Some(v.source);
    var index := if loses then s.index - {v.source} else s.index;
    Live(s, view);
    ClosedView(v, pane);
    hide *;
    CloseIs(s, view, pane);
    WithoutEntry(s.index, v.source, view);
    if result.root.Some? {
      if ShowsThread(result.root.value, v.source) {
        ShownHasThread(result.root.value, v.source);
      }
      var next := NextSource(result.root.value, view, index);
      NextSourceIff(result.root.value, view, index);
      ShrunkIs(s, view, index, result, next);
      ShrunkIs(s, view, index, result, Some(v.source));
      AnchoredIs(View(view, v.source, v.project, result.root.value, v.focused), next, index);
      if loses && HasThread(result.root.value) && next.Some? {
        AnchoredAlike(View(view, next.value, v.project, result.root.value, v.focused),
                      RemovePaneFromView(s, view, pane).views[view], index);
      }
    }
  }

  lemma AnchoredAlike(v: View, w: View, index: map<Id, Id>)
    requires v.id == w.id && v.root == w.root && v.source == w.source
    ensures AnchoredFirst(v, index) <==> AnchoredFirst(w, index)
  {
    hide FirstAnchors, Leaves;
  }

  // ----- deleting a thread -----

  lemma DeleteIs(s: State, view: Id, thread: Id)
    requires view in s.views
    ensures var v := s.views[view];
            var result := RemoveThread(v.root, thread);
            RemoveThreadFrom(s, view, thread) ==
            if result.removed == [] then s
            else if result.root.None? || !HasThread(result.root.value) then State(s.views - {view}, s.index - {v.source})
            else if v.source == thread then
              Shrunk(s, view, s.index - {thread}, result, NextSource(result.root.value, view, s.index))
            else Shrunk(s, view, s.index, result, Some(v.source))
  {
    hide Shrunk, NextSource, HasThread, RemoveThread;
  }

  /**
   * Deleting a thread that is not a view's source leaves its anchor and the index alone. Its source's
   * entry goes, and the view is anchored at the first thread left that is free, or goes too.
   */
  lemma DeleteOneAnchors(s: State, view: Id, thread: Id)
    requires Consistent(s) && view in s.views
    ensures var r, v := RemoveThreadFrom(s, view, thread), s.views[view];
            && (view in r.views ==> SameView(v, r.views[view]))
            && (v.source != thread ==> view in r.views && r.views[view].source == v.source && r.index == s.index)
            && (v.source == thread && view in r.views ==>
                  && AnchoredFirst(r.views[view], s.index) && r.views[view].source != thread
                  && Moved(s.index, r.index, Some(thread), Some(r.views[view].source), view))
            && (view !in r.views ==> Moved(s.index, r.index, Some(thread), None, view))
  {
    var v := s.views[view];
    var result := RemoveThread(v.root, thread);
    Live(s, view);
    ThreadlessView(v, thread);
    SourceShown(v);
    NothingRemoved(v.root, thread);
    hide *;
    DeleteIs(s, view, thread);
    WithoutEntry(s.index, v.source, view);
    if result.root.Some? && result.removed != [] {
      if ShowsThread(result.root.value, v.source) {
        ShownHasThread(result.root.value, v.source);
      }
      var next := NextSource(result.root.value, view, s.index);
      NextSourceIff(result.root.value, view, s.index);
      NextSourceIs(result.root.value, view, s.index);
      ShrunkIs(s, view, s.index - {thread}, result, next);
      ShrunkIs(s, view, s.index, result, Some(v.source));
      AnchoredIs(View(view, v.source, v.project, result.root.value, v.focused), next, s.index);
      if v.source == thread && HasThread(result.root.value) && next.Some? {
        AnchoredAlike(View(view, next.value, v.project, result.root.value, v.focused),
                      RemoveThreadFrom(s, view, thread).views[view], s.index);
      }
    }
  }

  lemma SourceShown(v: View)
    requires ViewOk(v)
    ensures ShowsThread(v.root, v.source)
  {
  }

  lemma {:induction false} NothingRemoved(root: Pane, thread: Id)
    ensures RemoveThread(root, thread).removed == [] ==> RemoveThread(root, thread).root == Some(root) && !ShowsThread(root, thread)
  {
    if root.Split? {
      NothingRemoved(root.first, thread);
      NothingRemoved(root.second, thread);
    }
  }

  /** The view keeps its anchor, or had the deleted thread for one. */
  predicate Reanchored(before: View, after: View, thread: Id) {
    SameView(before, after) && (before.source != thread ==> after.source == before.source)
  }

  /** Entries of other threads stay; new ones name views that lost the thread, under their new source. */
  ghost predicate OnlyGains(s: State, r: State, thread: Id) {
    && (forall t: Id <- s.index :: t != thread ==> t in r.index && r.index[t] == s.index[t])
    && forall t: Id <- r.index :: t != thread && t !in s.index ==>
         && r.index[t] in s.views && s.views[r.index[t]].source == thread
         && r.index[t] in r.views && r.views[r.index[t]].source == t
  }

  lemma AnchorIsFree(v: View, index: map<Id, Id>)
    requires AnchoredFirst(v, index)
    ensures FreeFor(v.source, v.id, index)
  {
  }

  /** Every entry names a live view with that source, as far as the index goes. */
  ghost predicate Named(s: State) {
    forall t: Id <- s.index :: s.index[t] in s.views && s.views[s.index[t]].source == t
  }

  lemma GainsStay(s: State, m: State, r: State, view: Id, thread: Id)
    requires OnlyGains(s, m, thread) && OthersStay(m, r, view) && r.index == m.index
    requires view in m.views && view in r.views && r.views[view].source == m.views[view].source
    ensures OnlyGains(s, r, thread)
  {
    forall t: Id | t in r.index && t != thread && t !in s.index
      ensures r.index[t] in r.views && r.views[r.index[t]].source == t
    {
      assert t in m.index;
    }
  }

  lemma GainsLess(s: State, m: State, r: State, view: Id, thread: Id, next: Option<Id>)
    requires OnlyGains(s, m, thread) && OthersStay(m, r, view) && Named(m)
    requires view in s.views && view in m.views && m.views[view] == s.views[view] && s.views[view].source == thread
    requires Moved(m.index, r.index, Some(thread), next, view)
    requires next.Some? ==> next.value != thread && FreeFor(next.value, view, m.index)
    requires next.Some? ==> view in r.views && r.views[view].source == next.value
    ensures OnlyGains(s, r, thread)
  {
    forall t: Id | t in r.index && t != thread && t !in s.index
      ensures && r.index[t] in s.views && s.views[r.index[t]].source == thread
              && r.index[t] in r.views && r.views[r.index[t]].source == t
    {
      assert ViewOf(r.index, t) == Some(r.index[t]);
      if next != Some(t) {
        assert ViewOf(m.index, t) == Some(r.index[t]);
      }
    }
    forall t: Id | t in s.index && t != thread
      ensures t in r.index && r.index[t] == s.index[t]
    {
      assert ViewOf(m.index, t) == Some(s.index[t]);
      assert ViewOf(r.index, t) == if next == Some(t) then Some(view) else ViewOf(m.index, t);
    }
  }

  lemma ReanchoredStill(s: State, m: State, r: State, view: Id, thread: Id)
    requires view in s.views && view in m.views && m.views[view] == s.views[view] && OthersStay(m, r, view)
    requires forall k <- m.views :: k in s.views && Reanchored(s.views[k], m.views[k], thread)
    requires view in r.views ==> Reanchored(m.views[view], r.views[view], thread)
    ensures forall k <- r.views :: k in s.views && Reanchored(s.views[k], r.views[k], thread)
  {
    hide Reanchored;
  }

  lemma ReanchoredIs(before: View, after: View, thread: Id)
    ensures Reanchored(before, after, thread) <==> SameView(before, after) && (before.source != thread ==> after.source == before.source)
  {
  }

  /** One more view is dealt with: it was untouched so far. */
  lemma OneMoreDeleted(s: State, m: State, view: Id, thread: Id)
    requires Consistent(s) && Consistent(m) && view in s.views && view in m.views && m.views[view] == s.views[view]
    requires (forall k <- m.views :: k in s.views && Reanchored(s.views[k], m.views[k], thread)) && OnlyGains(s, m, thread)
    ensures var r := RemoveThreadFrom(m, view, thread);
            (forall k <- r.views :: k in s.views && Reanchored(s.views[k], r.views[k], thread)) && OnlyGains(s, r, thread)
  {
    Live(m, view);
    assert Named(m) by {
      hide ViewOk;
    }
    hide *;
    var r := RemoveThreadFrom(m, view, thread);
    DeleteOneShows(m, view, thread);
    DeleteOneAnchors(m, view, thread);
    if view in r.views {
      ReanchoredIs(m.views[view], r.views[view], thread);
    }
    ReanchoredStill(s, m, r, view, thread);
    if m.views[view].source != thread {
      GainsStay(s, m, r, view, thread);
    } else if view in r.views {
      AnchorIsFree(r.views[view], m.index);
      GainsLess(s, m, r, view, thread, Some(r.views[view].source));
    } else {
      GainsLess(s, m, r, view, thread, None);
    }
  }

  /** Deleting a thread everywhere moves no other view's anchor, and no other thread's entry. */
  lemma {:induction false} DeleteAnchors(s: State, order: seq<Id>, thread: Id)
    requires Consistent(s) && NoDup(order) && forall k <- order :: k in s.views
    ensures var r := RemoveThreadFromAll(s, order, thread);
            && (forall k <- r.views :: k in s.views && Reanchored(s.views[k], r.views[k], thread))
            && OnlyGains(s, r, thread)
  {
    hide Consistent, RemoveThreadFrom;
    if order != [] {
      var front, last := order[..|order| - 1], order[|order| - 1];
      assert order == front + [last] && last !in front;
      DeleteAnchors(s, front, thread);
      DeleteShows(s, front, thread);
      DeleteKeeps(s, front, thread);
      OneMoreDeleted(s, RemoveThreadFromAll(s, front, thread), last, thread);
    }
  }

  /** After a thread is deleted everywhere the index does not list it. */
  lemma DeletedIsUnlisted(s: State, order: seq<Id>, thread: Id)
    requires Consistent(s) && NoDup(order) && ToSet(order) == s.views.Keys
    ensures thread !in RemoveThreadFromAll(s, order, thread).index
  {
    hide RemoveThreadFromAll, ViewOk;
    DeleteKeeps(s, order, thread);
    DeletedIsGone(s, order, thread);
    var r := RemoveThreadFromAll(s, order, thread);
    forall k <- r.views
      ensures r.views[k].source != thread
    {
      Live(r, k);
      SourceShown(r.views[k]);
    }
  }
}
