/** The binary tree of panes behind a split view: lookup, replacement, removal and the two structural rules. */
module SplitTree {
  import opened Wrappers
  import opened Sequences

  type Id = nat

  datatype Axis = Across | Down

  datatype Panel = Panel(shown: Option<string>, turn: Option<string>, file: Option<string>, hasOpened: bool, last: string)

  datatype Pane =
    | Leaf(id: Id, thread: Option<Id>, panel: Panel)
    | Split(id: Id, axis: Axis, first: Pane, second: Pane, ratio: real)

  const MAX_DEPTH := 2
  const DEFAULT_RATIO := 0.5
  const MIN_RATIO := 0.25
  const MAX_RATIO := 0.75

  const BlankPanel := Panel(None, None, None, false, "browser")

  function Distance(a: real, b: real): real {
    if a < b then b - a else a - b
  }

  /** clampRatio: the nearest ratio within the bounds; a number that is not finite arrives as None. */
  function ClampRatio(ratio: Option<real>): (r: real)
    ensures 0.25 <= r <= 0.75
    ensures ratio.Some? ==> forall b: real :: 0.25 <= b <= 0.75 ==> Distance(ratio.value, r) <= Distance(ratio.value, b)
    ensures ratio.None? ==> r == 0.5
  {
    match ratio
    case None => DEFAULT_RATIO
    case Some(x) => if x < MIN_RATIO then MIN_RATIO else if x > MAX_RATIO then MAX_RATIO else x
  }

  // ----- lookup -----

  function FindPane(root: Pane, id: Id): (pane: Option<Pane>)
    ensures pane.Some? ==> pane.value.id == id
  {
    if root.id == id then Some(root)
    else if root.Leaf? then None
    else
      var found := FindPane(root.first, id);
      if found.Some? then found else FindPane(root.second, id)
  }

  function FindLeaf(root: Pane, id: Id): (leaf: Option<Pane>)
    ensures leaf.Some? ==> leaf.value.Leaf? && leaf.value.id == id
  {
    var found := FindPane(root, id);
    if found.Some? && found.value.Leaf? then found else None
  }

  function FindParent(root: Pane, id: Id): (parent: Option<Pane>)
    ensures parent.Some? ==> parent.value.Split?
  {
    if root.Leaf? then None
    else if root.first.id == id || root.second.id == id then Some(root)
    else
      var found := FindParent(root.first, id);
      if found.Some? then found else FindParent(root.second, id)
  }

  function FindDepth(root: Pane, id: Id): Option<nat> {
    if root.id == id then Some(0)
    else if root.Leaf? then None
    else
      var first := FindDepth(root.first, id);
      if first.Some? then Some(first.value + 1)
      else
        var second := FindDepth(root.second, id);
        if second.Some? then Some(second.value + 1) else None
  }

  function Leaves(root: Pane): (leaves: seq<Pane>)
    ensures forall leaf <- leaves :: leaf.Leaf?
  {
    if root.Leaf? then [root] else Leaves(root.first) + Leaves(root.second)
  }

  function FirstLeafId(root: Pane): Id {
    var leaves := Leaves(root);
    if leaves != [] then leaves[0].id else root.id
  }

  // ----- change -----

  function Replace(root: Pane, id: Id, replacement: Pane): Pane {
    if root.id == id then replacement
    else if root.Leaf? then root
    else root.(first := Replace(root.first, id, replacement), second := Replace(root.second, id, replacement))
  }

  datatype Removal = Removal(root: Option<Pane>, removed: seq<Id>)

  /** What is left of a split once its two sides are dealt with. */
  function Collapse(split: Pane, first: Removal, second: Removal): Removal
    requires split.Split?
  {
    var removed := first.removed + second.removed;
    if removed == [] then Removal(Some(split), removed)
    else if first.root.Some? && second.root.Some? then
      Removal(Some(split.(first := first.root.value, second := second.root.value)), removed)
    else if first.root.Some? then Removal(first.root, removed)
    else Removal(second.root, removed)
  }

  function RemoveThread(root: Pane, thread: Id): Removal {
    if root.Leaf? then
      if root.thread == Some(thread) then Removal(None, [root.id]) else Removal(Some(root), [])
    else Collapse(root, RemoveThread(root.first, thread), RemoveThread(root.second, thread))
  }

  function RemovePane(root: Pane, id: Id): Removal {
    if root.Leaf? then
      if root.id == id then Removal(None, [root.id]) else Removal(Some(root), [])
    else Collapse(root, RemovePane(root.first, id), RemovePane(root.second, id))
  }

  /** canSubdividePane: the target is a leaf above the depth cap, not inside a split of the same axis. */
  predicate CanSubdivide(root: Pane, target: Id, axis: Axis) {
    && FindLeaf(root, target).Some?
    && (var depth := FindDepth(root, target); depth.Some? && depth.value < MAX_DEPTH)
    && (var parent := FindParent(root, target); parent.Some? ==> parent.value.axis != axis)
  }

  // ----- what a well-formed tree is -----

  function Ids(root: Pane): set<Id> {
    if root.Leaf? then {root.id} else {root.id} + Ids(root.first) + Ids(root.second)
  }

  predicate Crosses(axis: Axis, child: Pane) {
    child.Split? ==> child.axis != axis
  }

  /** At most depth levels of splits, axes alternating, no id twice, every ratio within its bounds. */
  predicate TreeOk(root: Pane, depth: nat) {
    root.Split? ==>
      && depth > 0
      && Crosses(root.axis, root.first) && Crosses(root.axis, root.second)
      && MIN_RATIO <= root.ratio <= MAX_RATIO
      && root.id !in Ids(root.first) && root.id !in Ids(root.second) && Ids(root.first) !! Ids(root.second)
      && TreeOk(root.first, depth - 1) && TreeOk(root.second, depth - 1)
  }

  function Power2(n: nat): nat {
    if n == 0 then 1 else 2 * Power2(n - 1)
  }

  lemma {:induction false} LeavesWithin(root: Pane, depth: nat)
    requires TreeOk(root, depth)
    ensures 1 <= |Leaves(root)| <= Power2(depth)
    decreases root, depth
  {
    if root.Split? {
      LeavesWithin(root.first, depth - 1);
      LeavesWithin(root.second, depth - 1);
    } else if depth > 0 {
      LeavesWithin(root, depth - 1);
    }
  }

  predicate ShowsLeaf(root: Pane, id: Id) {
    exists leaf <- Leaves(root) :: leaf.id == id
  }

  predicate ShowsThread(root: Pane, thread: Id) {
    exists leaf <- Leaves(root) :: leaf.thread == Some(thread)
  }

  lemma {:induction false} LeavesAreInside(root: Pane)
    ensures forall leaf <- Leaves(root) :: leaf.Leaf? && leaf.id in Ids(root)
  {
    if root.Split? {
      LeavesAreInside(root.first);
      LeavesAreInside(root.second);
    }
  }

  /** Looking a leaf up by id finds the one leaf with that id, and nothing else counts. */
  lemma {:induction false} FindLeafIs(root: Pane, id: Id, depth: nat)
    requires TreeOk(root, depth)
    ensures var found := FindLeaf(root, id);
            && (found.Some? ==> found.value in Leaves(root))
            && (forall leaf <- Leaves(root) :: leaf.id == id ==> found == Some(leaf))
  {
    if root.Split? {
      var first, second := root.first, root.second;
      FindLeafIs(first, id, depth - 1);
      FindLeafIs(second, id, depth - 1);
      LeavesAreInside(first);
      LeavesAreInside(second);
      FoundInside(first, id);
      FoundInside(second, id);
      assert FindLeaf(root, id) == if root.id == id then None else if id in Ids(first) then FindLeaf(first, id) else FindLeaf(second, id);
      assert Leaves(root) == Leaves(first) + Leaves(second);
      assert id in Ids(first) ==> id !in Ids(second);
    }
  }

  lemma {:induction false} FoundInside(root: Pane, id: Id)
    ensures FindPane(root, id).Some? <==> id in Ids(root)
  {
    if root.Split? {
      FoundInside(root.first, id);
      FoundInside(root.second, id);
    }
  }

  // ----- replacing a pane -----

  lemma {:induction false} ReplaceAbsent(root: Pane, id: Id, replacement: Pane)
    requires id !in Ids(root)
    ensures Replace(root, id, replacement) == root
  {
    if root.Split? {
      ReplaceAbsent(root.first, id, replacement);
      ReplaceAbsent(root.second, id, replacement);
    }
  }

  /** The leaves with the one named id exchanged for others, where it stood. */
  function Substitute(leaves: seq<Pane>, id: Id, others: seq<Pane>): (r: seq<Pane>)
    ensures forall leaf :: leaf in r <==> (leaf in leaves && leaf.id != id) || (leaf in others && exists l <- leaves :: l.id == id)
    ensures (forall leaf <- leaves :: leaf.id != id) ==> r == leaves
  {
    if leaves == [] then []
    else (if leaves[0].id == id then others else [leaves[0]]) + Substitute(leaves[1..], id, others)
  }

  lemma {:induction false} SubstituteConcat(a: seq<Pane>, b: seq<Pane>, id: Id, others: seq<Pane>)
    ensures Substitute(a + b, id, others) == Substitute(a, id, others) + Substitute(b, id, others)
  {
    if a == [] {
      assert a + b == b;
    } else {
      assert (a + b)[1..] == a[1..] + b;
      SubstituteConcat(a[1..], b, id, others);
    }
  }

  /** Replacing a leaf exchanges it for the replacement's leaves, where it stood. */
  lemma {:induction false} ReplaceInPlace(root: Pane, id: Id, replacement: Pane, depth: nat)
    requires TreeOk(root, depth) && (FindPane(root, id).Some? ==> FindPane(root, id).value.Leaf?)
    ensures Leaves(Replace(root, id, replacement)) == Substitute(Leaves(root), id, Leaves(replacement))
  {
    if root.Split? {
      FoundInside(root.first, id);
      ReplaceInPlace(root.first, id, replacement, depth - 1);
      if id in Ids(root.first) {
        FoundInside(root.second, id);
      }
      ReplaceInPlace(root.second, id, replacement, depth - 1);
      SubstituteConcat(Leaves(root.first), Leaves(root.second), id, Leaves(replacement));
    } else {
      assert [root][1..] == [];
    }
  }

  /** Exchanging a pane for one of the same outline keeps the tree well formed. */
  predicate SameOutline(a: Pane, b: Pane) {
    && a.id == b.id && a.Leaf? == b.Leaf?
    && (a.Split? ==> b == a.(ratio := b.ratio) && MIN_RATIO <= b.ratio <= MAX_RATIO)
  }

  lemma {:induction false} ReplaceKeepsOutline(root: Pane, id: Id, replacement: Pane, depth: nat)
    requires TreeOk(root, depth) && FindPane(root, id).Some? && SameOutline(FindPane(root, id).value, replacement)
    ensures var r := Replace(root, id, replacement);
            && TreeOk(r, depth) && Ids(r) == Ids(root) && r.Split? == root.Split? && (r.Split? ==> r.axis == root.axis)
            && (replacement.Split? ==> Leaves(r) == Leaves(root))
  {
    if root.id != id {
      FoundInside(root.first, id);
      FoundInside(root.second, id);
      if id in Ids(root.first) {
        ReplaceAbsent(root.second, id, replacement);
        ReplaceKeepsOutline(root.first, id, replacement, depth - 1);
      } else {
        ReplaceAbsent(root.first, id, replacement);
        ReplaceKeepsOutline(root.second, id, replacement, depth - 1);
      }
    }
  }

  // ----- subdividing a leaf -----

  datatype Side = First | Second

  /** The split a thread dropped on a leaf creates. */
  function Subdivision(leaf: Pane, axis: Axis, side: Side, thread: Id, newLeaf: Id, newSplit: Id): Pane {
    var added := Leaf(newLeaf, Some(thread), BlankPanel);
    if side == First then Split(newSplit, axis, added, leaf, DEFAULT_RATIO)
    else Split(newSplit, axis, leaf, added, DEFAULT_RATIO)
  }

  lemma {:induction false} ParentOfAbsent(root: Pane, id: Id)
    requires id !in Ids(root)
    ensures FindParent(root, id).None? && FindDepth(root, id).None?
  {
    if root.Split? {
      assert root.first.id in Ids(root.first) && root.second.id in Ids(root.second);
      ParentOfAbsent(root.first, id);
      ParentOfAbsent(root.second, id);
    }
  }

  /** A subdivided leaf keeps the tree within the depth cap, its axes alternating and its ids distinct. */
  lemma {:induction false} SubdivideKeeps(root: Pane, target: Id, axis: Axis, side: Side, thread: Id,
                                          newLeaf: Id, newSplit: Id, depth: nat)
    requires TreeOk(root, depth) && FindLeaf(root, target).Some?
    requires FindDepth(root, target).Some? && FindDepth(root, target).value < depth
    requires FindParent(root, target).Some? ==> FindParent(root, target).value.axis != axis
    requires newLeaf !in Ids(root) && newSplit !in Ids(root) && newLeaf != newSplit
    ensures var r := Replace(root, target, Subdivision(FindLeaf(root, target).value, axis, side, thread, newLeaf, newSplit));
            && TreeOk(r, depth) && Ids(r) == Ids(root) + {newLeaf, newSplit}
            && r.Split? && r.axis == (if root.Split? then root.axis else axis)
  {
    var leaf := FindLeaf(root, target).value;
    var split := Subdivision(leaf, axis, side, thread, newLeaf, newSplit);
    if root.id != target {
      FoundInside(root.first, target);
      FoundInside(root.second, target);
      if target in Ids(root.first) {
        ReplaceAbsent(root.second, target, split);
        ParentOfAbsent(root.second, target);
        SubdivideKeeps(root.first, target, axis, side, thread, newLeaf, newSplit, depth - 1);
      } else {
        ReplaceAbsent(root.first, target, split);
        ParentOfAbsent(root.first, target);
        SubdivideKeeps(root.second, target, axis, side, thread, newLeaf, newSplit, depth - 1);
      }
    }
  }

  /** The guard is exact: a leaf may be subdivided precisely when the result keeps the structural rules. */
  lemma {:induction false} SubdivideOkIff(root: Pane, target: Id, axis: Axis, side: Side, thread: Id,
                                          newLeaf: Id, newSplit: Id, depth: nat)
    requires TreeOk(root, depth) && FindLeaf(root, target).Some?
    requires newLeaf !in Ids(root) && newSplit !in Ids(root) && newLeaf != newSplit
    ensures var at, parent := FindDepth(root, target), FindParent(root, target);
            TreeOk(Replace(root, target, Subdivision(FindLeaf(root, target).value, axis, side, thread, newLeaf, newSplit)), depth)
            <==> at.Some? && at.value < depth && (parent.Some? ==> parent.value.axis != axis)
  {
    var leaf := FindLeaf(root, target).value;
    var split := Subdivision(leaf, axis, side, thread, newLeaf, newSplit);
    if root.id != target {
      FoundInside(root.first, target);
      FoundInside(root.second, target);
      var inFirst := target in Ids(root.first);
      var inside, other := if inFirst then root.first else root.second, if inFirst then root.second else root.first;
      ReplaceAbsent(other, target, split);
      ParentOfAbsent(other, target);
      SubdivideOkIff(inside, target, axis, side, thread, newLeaf, newSplit, depth - 1);
      SubdividedIds(inside, target, axis, side, thread, newLeaf, newSplit);
      TargetIsBelow(inside, target);
    }
  }

  lemma {:induction false} TargetIsBelow(root: Pane, target: Id)
    requires target in Ids(root)
    ensures FindDepth(root, target).Some?
    ensures root.id != target <==> FindDepth(root, target).value > 0
    ensures root.id != target ==> FindParent(root, target).Some?
  {
    if root.id != target {
      if target in Ids(root.first) {
        TargetIsBelow(root.first, target);
      } else {
        ParentOfAbsent(root.first, target);
        TargetIsBelow(root.second, target);
      }
    }
  }

  lemma {:induction false} SubdividedIds(root: Pane, target: Id, axis: Axis, side: Side, thread: Id, newLeaf: Id, newSplit: Id)
    requires FindLeaf(root, target).Some?
    ensures var r := Replace(root, target, Subdivision(FindLeaf(root, target).value, axis, side, thread, newLeaf, newSplit));
            && r.Split? && r.axis == (if root.Split? then root.axis else axis)
            && Ids(r) <= Ids(root) + {newLeaf, newSplit}
  {
    if root.id != target {
      FoundInside(root.first, target);
      FoundInside(root.second, target);
      var split := Subdivision(FindLeaf(root, target).value, axis, side, thread, newLeaf, newSplit);
      ReplaceIds(root.first, target, split);
      ReplaceIds(root.second, target, split);
    }
  }

  lemma {:induction false} ReplaceIds(root: Pane, target: Id, replacement: Pane)
    ensures Ids(Replace(root, target, replacement)) <= Ids(root) + Ids(replacement)
  {
    if root.Split? {
      ReplaceIds(root.first, target, replacement);
      ReplaceIds(root.second, target, replacement);
    }
  }

  // ----- removing panes -----

  /** A tree without the leaves whose ids are gone. */
  function Prune(root: Pane, gone: set<Id>): Option<Pane> {
    if root.Leaf? then
      if root.id in gone then None else Some(root)
    else Join(root, Prune(root.first, gone), Prune(root.second, gone))
  }

  function Join(split: Pane, first: Option<Pane>, second: Option<Pane>): Option<Pane>
    requires split.Split?
  {
    if first.Some? && second.Some? then Some(split.(first := first.value, second := second.value))
    else if first.Some? then first
    else second
  }

  function Remaining(leaves: seq<Pane>, gone: set<Id>): (kept: seq<Pane>)
    ensures forall leaf :: leaf in kept <==> leaf in leaves && leaf.id !in gone
  {
    if leaves == [] then []
    else (if leaves[0].id in gone then [] else [leaves[0]]) + Remaining(leaves[1..], gone)
  }

  lemma {:induction false} RemainingConcat(a: seq<Pane>, b: seq<Pane>, gone: set<Id>)
    ensures Remaining(a + b, gone) == Remaining(a, gone) + Remaining(b, gone)
  {
    if a == [] {
      assert a + b == b;
    } else {
      assert (a + b)[1..] == a[1..] + b;
      RemainingConcat(a[1..], b, gone);
    }
  }

  function LeavesOf(root: Option<Pane>): seq<Pane> {
    if root.Some? then Leaves(root.value) else []
  }

  lemma {:induction false} MoreRoom(root: Pane, depth: nat)
    requires TreeOk(root, depth)
    ensures TreeOk(root, depth + 1)
  {
    if root.Split? {
      MoreRoom(root.first, depth - 1);
      MoreRoom(root.second, depth - 1);
    }
  }

  /** Pruning leaves exactly the other leaves, in order. */
  lemma {:induction false} PruneLeaves(root: Pane, gone: set<Id>)
    ensures LeavesOf(Prune(root, gone)) == Remaining(Leaves(root), gone)
  {
    if root.Split? {
      PruneLeaves(root.first, gone);
      PruneLeaves(root.second, gone);
      RemainingConcat(Leaves(root.first), Leaves(root.second), gone);
    } else {
      assert [root][1..] == [];
    }
  }

  lemma {:induction false} PruneIds(root: Pane, gone: set<Id>)
    ensures Prune(root, gone).Some? ==> Ids(Prune(root, gone).value) <= Ids(root)
  {
    if root.Split? {
      PruneIds(root.first, gone);
      PruneIds(root.second, gone);
    }
  }

  /** What pruning leaves is a well-formed tree: a collapse never puts two splits of one axis inside each other. */
  lemma {:induction false} PruneKeeps(root: Pane, gone: set<Id>, depth: nat)
    requires TreeOk(root, depth) && depth <= MAX_DEPTH
    ensures var r := Prune(root, gone);
            r.Some? ==> TreeOk(r.value, depth) && (depth <= 1 && r.value.Split? ==> root.Split? && r.value.axis == root.axis)
  {
    if root.Split? {
      var first, second := Prune(root.first, gone), Prune(root.second, gone);
      PruneKeeps(root.first, gone, depth - 1);
      PruneKeeps(root.second, gone, depth - 1);
      PruneIds(root.first, gone);
      PruneIds(root.second, gone);
      if first.Some? {
        MoreRoom(first.value, depth - 1);
      }
      if second.Some? {
        MoreRoom(second.value, depth - 1);
      }
      hide Prune;
    }
  }

  lemma {:induction false} NothingGone(root: Pane, gone: set<Id>)
    requires gone !! Ids(root)
    ensures Prune(root, gone) == Some(root)
  {
    if root.Split? {
      NothingGone(root.first, gone);
      NothingGone(root.second, gone);
    }
  }

  lemma {:induction false} PruneTwice(root: Pane, a: set<Id>, b: set<Id>)
    ensures (if Prune(root, a).Some? then Prune(Prune(root, a).value, b) else None) == Prune(root, a + b)
  {
    if root.Split? {
      PruneTwice(root.first, a, b);
      PruneTwice(root.second, a, b);
    }
  }

  /** The ids of the leaves showing a thread. */
  function Showing(root: Pane, thread: Id): set<Id> {
    if root.Leaf? then (if root.thread == Some(thread) then {root.id} else {})
    else Showing(root.first, thread) + Showing(root.second, thread)
  }

  lemma {:induction false} ShowingIsInside(root: Pane, thread: Id)
    ensures Showing(root, thread) <= Ids(root)
    ensures forall id :: id in Showing(root, thread) <==> exists leaf <- Leaves(root) :: leaf.id == id && leaf.thread == Some(thread)
  {
    if root.Split? {
      ShowingIsInside(root.first, thread);
      ShowingIsInside(root.second, thread);
    }
  }

  lemma {:induction false} PruneLocal(root: Pane, a: set<Id>, b: set<Id>)
    requires forall id <- Ids(root) :: id in a <==> id in b
    ensures Prune(root, a) == Prune(root, b)
  {
    if root.Split? {
      PruneLocal(root.first, a, b);
      PruneLocal(root.second, a, b);
    }
  }

  /** Removing one pane prunes it; a pane that is no leaf is left alone. */
  lemma {:induction false} RemovePaneIsPrune(root: Pane, id: Id)
    ensures RemovePane(root, id).root == Prune(root, {id})
    ensures forall x :: x in RemovePane(root, id).removed <==> x == id && exists leaf <- Leaves(root) :: leaf.id == id
  {
    if root.Split? {
      RemovePaneIsPrune(root.first, id);
      RemovePaneIsPrune(root.second, id);
      NothingRemoved(root, RemovePane(root.first, id), RemovePane(root.second, id), {id});
    }
  }

  lemma NothingRemoved(root: Pane, first: Removal, second: Removal, gone: set<Id>)
    requires root.Split? && first.root == Prune(root.first, gone) && second.root == Prune(root.second, gone)
    requires forall leaf <- Leaves(root) :: leaf.id in gone ==> leaf.id in first.removed + second.removed
    ensures Collapse(root, first, second).root == Prune(root, gone)
  {
    if first.removed + second.removed == [] {
      KeepsAll(root, gone);
    }
  }

  lemma {:induction false} KeepsAll(root: Pane, gone: set<Id>)
    requires forall leaf <- Leaves(root) :: leaf.id !in gone
    ensures Prune(root, gone) == Some(root)
  {
    if root.Split? {
      KeepsAll(root.first, gone);
      KeepsAll(root.second, gone);
    } else {
      assert root in Leaves(root);
    }
  }

  lemma PruneSides(root: Pane, thread: Id)
    requires root.Split? && Ids(root.first) !! Ids(root.second)
    ensures Prune(root.first, Showing(root.first, thread)) == Prune(root.first, Showing(root, thread))
    ensures Prune(root.second, Showing(root.second, thread)) == Prune(root.second, Showing(root, thread))
  {
    ShowingIsInside(root.first, thread);
    ShowingIsInside(root.second, thread);
    PruneLocal(root.first, Showing(root.first, thread), Showing(root, thread));
    PruneLocal(root.second, Showing(root.second, thread), Showing(root, thread));
  }

  /** Removing a thread prunes exactly the panes showing it. */
  lemma {:induction false} RemoveThreadIsPrune(root: Pane, thread: Id, depth: nat)
    requires TreeOk(root, depth)
    ensures RemoveThread(root, thread).root == Prune(root, Showing(root, thread))
    ensures ToSet(RemoveThread(root, thread).removed) == Showing(root, thread)
  {
    if root.Split? {
      RemoveThreadIsPrune(root.first, thread, depth - 1);
      RemoveThreadIsPrune(root.second, thread, depth - 1);
      PruneSides(root, thread);
      var a, b := RemoveThread(root.first, thread).removed, RemoveThread(root.second, thread).removed;
      assert forall x :: x in a + b <==> x in ToSet(a) || x in ToSet(b);
      if a + b == [] {
        NothingGone(root, {});
      }
    }
  }

  /** Panes removed one after the other. */
  function RemoveInTurn(root: Option<Pane>, order: seq<Id>): Option<Pane>
    decreases order
  {
    if order == [] || root.None? then root
    else RemoveInTurn(RemovePane(root.value, order[0]).root, order[1..])
  }

  lemma {:induction false} InTurnIsPrune(root: Pane, order: seq<Id>)
    ensures RemoveInTurn(Some(root), order) == Prune(root, ToSet(order))
    decreases order
  {
    if order == [] {
      assert ToSet(order) == {};
      NothingGone(root, {});
    } else {
      var rest := order[1..];
      RemovePaneIsPrune(root, order[0]);
      PruneTwice(root, {order[0]}, ToSet(rest));
      assert ToSet(order) == {order[0]} + ToSet(rest);
      var next := Prune(root, {order[0]});
      if next.Some? {
        InTurnIsPrune(next.value, rest);
      }
    }
  }

  /**
   * Removing a thread leaves precisely the leaves that do not show it, in order, and gives the tree
   * that removing its panes one at a time gives, whatever the order.
   */
  lemma RemoveThreadInAnyOrder(root: Pane, thread: Id, order: seq<Id>)
    requires TreeOk(root, MAX_DEPTH) && ToSet(order) == Showing(root, thread)
    ensures RemoveThread(root, thread).root == RemoveInTurn(Some(root), order)
    ensures LeavesOf(RemoveThread(root, thread).root) == Remaining(Leaves(root), Showing(root, thread))
    ensures forall leaf :: leaf in LeavesOf(RemoveThread(root, thread).root) <==> leaf in Leaves(root) && leaf.thread != Some(thread)
  {
    RemoveThreadIsPrune(root, thread, MAX_DEPTH);
    InTurnIsPrune(root, order);
    PruneLeaves(root, Showing(root, thread));
    ShowingIsInside(root, thread);
    forall leaf | leaf in Leaves(root)
      ensures leaf.id in Showing(root, thread) <==> leaf.thread == Some(thread)
    {
      FindLeafIs(root, leaf.id, MAX_DEPTH);
    }
  }

  /** Dropping a thread on a pane and then removing the pane it got restores the tree. */
  lemma {:induction false} RemoveUndoesDrop(root: Pane, target: Id, axis: Axis, side: Side, thread: Id, newLeaf: Id, newSplit: Id, depth: nat)
    requires TreeOk(root, depth) && FindLeaf(root, target).Some? && newLeaf !in Ids(root)
    ensures var dropped := Replace(root, target, Subdivision(FindLeaf(root, target).value, axis, side, thread, newLeaf, newSplit));
            RemovePane(dropped, newLeaf).root == Some(root) && RemovePane(dropped, newLeaf).removed == [newLeaf]
  {
    var split := Subdivision(FindLeaf(root, target).value, axis, side, thread, newLeaf, newSplit);
    if root.id != target {
      FoundInside(root.first, target);
      FoundInside(root.second, target);
      var other := if target in Ids(root.first) then root.second else root.first;
      ReplaceAbsent(other, target, split);
      RemoveAbsent(other, newLeaf);
      RemoveUndoesDrop(if target in Ids(root.first) then root.first else root.second, target, axis, side, thread, newLeaf, newSplit, depth - 1);
    }
  }

  lemma {:induction false} RemoveAbsent(root: Pane, id: Id)
    requires id !in Ids(root)
    ensures RemovePane(root, id) == Removal(Some(root), [])
  {
    if root.Split? {
      RemoveAbsent(root.first, id);
      RemoveAbsent(root.second, id);
    }
  }
}
