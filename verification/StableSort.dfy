/** Stable sorting: what it means, why its result is unique, and the shortcuts that stand in for it. */
module StableSort {

  /** A comparator fit for sorting: "not after" is total and transitive. */
  ghost predicate Preorder<T(!new)>(le: (T, T) -> bool) {
    && (forall a, b :: le(a, b) || le(b, a))
    && (forall a, b, c :: le(a, b) && le(b, c) ==> le(a, c))
  }

  predicate Sorted<T>(s: seq<T>, le: (T, T) -> bool) {
    forall i, j :: 0 <= i < j < |s| ==> le(s[i], s[j])
  }

  predicate Alike<T>(a: T, b: T, le: (T, T) -> bool) {
    le(a, b) && le(b, a)
  }

  /** The elements that compare equal to x, in order. */
  function Class<T>(s: seq<T>, x: T, le: (T, T) -> bool): (c: seq<T>)
    ensures forall y <- c :: y in s && Alike(y, x, le)
    ensures forall y <- s :: Alike(y, x, le) ==> y in c
  {
    if s == [] then [] else (if Alike(s[0], x, le) then [s[0]] else []) + Class(s[1..], x, le)
  }

  /** Elements that compare equal keep their order, and nothing is lost or added. */
  ghost predicate StablePermutation<T(!new)>(r: seq<T>, s: seq<T>, le: (T, T) -> bool) {
    forall x :: Class(r, x, le) == Class(s, x, le)
  }

  lemma {:induction false} ClassConcat<T>(a: seq<T>, b: seq<T>, x: T, le: (T, T) -> bool)
    ensures Class(a + b, x, le) == Class(a, x, le) + Class(b, x, le)
  {
    if a == [] {
      assert a + b == b;
    } else {
      assert (a + b)[1..] == a[1..] + b;
      ClassConcat(a[1..], b, x, le);
    }
  }

  lemma {:induction false} ClassCount<T>(s: seq<T>, x: T, y: T, le: (T, T) -> bool)
    ensures multiset(Class(s, x, le))[y] == if Alike(y, x, le) then multiset(s)[y] else 0
  {
    if s != [] {
      assert s == [s[0]] + s[1..];
      ClassCount(s[1..], x, y, le);
    }
  }

  lemma StablePermutationIsPermutation<T(!new)>(r: seq<T>, s: seq<T>, le: (T, T) -> bool)
    requires Preorder(le) && StablePermutation(r, s, le)
    ensures multiset(r) == multiset(s)
  {
    forall y
      ensures multiset(r)[y] == multiset(s)[y]
    {
      ClassCount(r, y, y, le);
      ClassCount(s, y, y, le);
    }
  }

  // ----- there is only one stable sort -----

  lemma {:induction false} StableSortIsUnique<T(!new)>(r: seq<T>, t: seq<T>, le: (T, T) -> bool)
    requires Preorder(le) && Sorted(r, le) && Sorted(t, le) && StablePermutation(r, t, le)
    ensures r == t
  {
    StablePermutationIsPermutation(r, t, le);
    assert |r| == |multiset(r)| == |multiset(t)| == |t|;
    if r != [] {
      SameHead(r, t, le);
      assert r == [r[0]] + r[1..] && t == [t[0]] + t[1..];
      forall x
        ensures Class(r[1..], x, le) == Class(t[1..], x, le)
      {
        assert Class(r, x, le) == Class(t, x, le);
        var head := if Alike(r[0], x, le) then [r[0]] else [];
        assert Class(r, x, le)[|head|..] == Class(r[1..], x, le);
        assert Class(t, x, le)[|head|..] == Class(t[1..], x, le);
      }
      StableSortIsUnique(r[1..], t[1..], le);
    }
  }

  lemma SameHead<T(!new)>(r: seq<T>, t: seq<T>, le: (T, T) -> bool)
    requires Preorder(le) && Sorted(r, le) && Sorted(t, le) && StablePermutation(r, t, le) && r != []
    ensures t != [] && t[0] == r[0]
  {
    var x := r[0];
    assert Class(r, x, le) == Class(t, x, le);
    assert x in Class(r, x, le);
    assert x in t;
    var k :| 0 <= k < |t| && t[k] == x;
    assert Class(r, t[0], le) == Class(t, t[0], le);
    assert t[0] in Class(t, t[0], le);
    assert t[0] in r;
    assert Alike(t[0], x, le);
    assert Class(r, x, le)[0] == r[0] && Class(t, x, le)[0] == t[0];
  }

  // ----- sorting -----

  function Insert<T(!new)>(x: T, s: seq<T>, le: (T, T) -> bool): (r: seq<T>)
    ensures forall y :: y in r <==> y == x || y in s
  {
    if s == [] || le(x, s[0]) then [x] + s else [s[0]] + Insert(x, s[1..], le)
  }

  /** Array.prototype.toSorted: the stable sort. */
  function Sort<T(!new)>(s: seq<T>, le: (T, T) -> bool): (r: seq<T>)
    ensures forall y :: y in r <==> y in s
  {
    if s == [] then [] else Insert(s[0], Sort(s[1..], le), le)
  }

  lemma {:induction false} InsertSorted<T(!new)>(x: T, s: seq<T>, le: (T, T) -> bool)
    requires Preorder(le) && Sorted(s, le)
    ensures Sorted(Insert(x, s, le), le)
  {
    if s != [] && !le(x, s[0]) {
      InsertSorted(x, s[1..], le);
      assert forall z <- Insert(x, s[1..], le) :: le(s[0], z);
    }
  }

  /** An inserted element comes before those it compares equal to. */
  lemma {:induction false} InsertClass<T(!new)>(x: T, s: seq<T>, y: T, le: (T, T) -> bool)
    requires Preorder(le)
    ensures Class(Insert(x, s, le), y, le) == Class([x] + s, y, le)
  {
    if s != [] && !le(x, s[0]) {
      var rest := Insert(x, s[1..], le);
      InsertClass(x, s[1..], y, le);
      ClassConcat([s[0]], rest, y, le);
      ClassConcat([x], s[1..], y, le);
      ClassConcat([x], s, y, le);
      ClassConcat([s[0]], s[1..], y, le);
      assert s == [s[0]] + s[1..];
      ClassOne(x, y, le);
      ClassOne(s[0], y, le);
    }
  }

  lemma ClassOne<T>(x: T, y: T, le: (T, T) -> bool)
    ensures Class([x], y, le) == if Alike(x, y, le) then [x] else []
  {
    assert [x][1..] == [];
  }

  /** The stable sort of a list exists: it is sorted, and equal elements keep their order. */
  lemma {:induction false} SortIsStable<T(!new)>(s: seq<T>, le: (T, T) -> bool)
    requires Preorder(le)
    ensures Sorted(Sort(s, le), le) && StablePermutation(Sort(s, le), s, le)
  {
    if s != [] {
      SortIsStable(s[1..], le);
      InsertSorted(s[0], Sort(s[1..], le), le);
      forall x
        ensures Class(Sort(s, le), x, le) == Class(s, x, le)
      {
        InsertClass(s[0], Sort(s[1..], le), x, le);
        assert ([s[0]] + Sort(s[1..], le))[1..] == Sort(s[1..], le);
      }
    }
  }

  /** Any list that is sorted and keeps equal elements in order is the sort. */
  lemma IsSort<T(!new)>(r: seq<T>, s: seq<T>, le: (T, T) -> bool)
    requires Preorder(le) && Sorted(r, le) && StablePermutation(r, s, le)
    ensures r == Sort(s, le)
  {
    SortIsStable(s, le);
    StableSortIsUnique(r, Sort(s, le), le);
  }

  // ----- the shortcut that skips the sort -----

  predicate Adjacent<T>(s: seq<T>, le: (T, T) -> bool) {
    forall i :: 0 < i < |s| ==> le(s[i - 1], s[i])
  }

  lemma {:induction false} AdjacentIsSorted<T(!new)>(s: seq<T>, le: (T, T) -> bool)
    requires Preorder(le)
    ensures Adjacent(s, le) <==> Sorted(s, le)
  {
    if Adjacent(s, le) {
      forall i, j | 0 <= i < j < |s|
        ensures le(s[i], s[j])
      {
        AdjacentReaches(s, i, j, le);
      }
    }
  }

  lemma {:induction false} AdjacentReaches<T(!new)>(s: seq<T>, i: nat, j: nat, le: (T, T) -> bool)
    requires Preorder(le) && Adjacent(s, le) && i < j < |s|
    ensures le(s[i], s[j])
    decreases j
  {
    if i + 1 < j {
      AdjacentReaches(s, i, j - 1, le);
    }
  }

  /** isActivityOrderStable and areTimelineEntriesOrdered: one pass over the neighbours settles the whole order. */
  method IsOrdered<T(!new)>(s: seq<T>, le: (T, T) -> bool) returns (ordered: bool)
    requires Preorder(le)
    ensures ordered <==> Sorted(s, le)
  {
    AdjacentIsSorted(s, le);
    var index := 1;
    while index < |s|
      invariant 1 <= index
      invariant forall i :: 0 < i < index && i < |s| ==> le(s[i - 1], s[i])
    {
      if !le(s[index - 1], s[index]) {
        return false;
      }
      index := index + 1;
    }
    return true;
  }

  /** Sorting only when the neighbours demand it is sorting. */
  method SortIfNeeded<T(!new)>(s: seq<T>, le: (T, T) -> bool) returns (r: seq<T>)
    requires Preorder(le)
    ensures r == Sort(s, le)
  {
    var ordered := IsOrdered(s, le);
    if ordered {
      IsSort(s, s, le);
      return s;
    }
    return Sort(s, le);
  }

  // ----- merging -----

  function Merge<T(!new)>(a: seq<T>, b: seq<T>, le: (T, T) -> bool): (r: seq<T>)
    ensures forall x :: x in r <==> x in a || x in b
  {
    if a == [] then b
    else if b == [] then a
    else if le(a[0], b[0]) then [a[0]] + Merge(a[1..], b, le)
    else [b[0]] + Merge(a, b[1..], le)
  }

  lemma {:induction false} MergeIsSorted<T(!new)>(a: seq<T>, b: seq<T>, le: (T, T) -> bool)
    requires Preorder(le) && Sorted(a, le) && Sorted(b, le)
    ensures Sorted(Merge(a, b, le), le)
  {
    if a != [] && b != [] {
      if le(a[0], b[0]) {
        MergeIsSorted(a[1..], b, le);
        assert forall z <- Merge(a[1..], b, le) :: le(a[0], z);
      } else {
        MergeIsSorted(a, b[1..], le);
        assert forall z <- Merge(a, b[1..], le) :: le(b[0], z);
      }
    }
  }

  /** Elements that compare equal come out of a merge left side first. */
  lemma {:induction false} MergeClass<T(!new)>(a: seq<T>, b: seq<T>, x: T, le: (T, T) -> bool)
    requires Preorder(le) && Sorted(a, le) && Sorted(b, le)
    ensures Class(Merge(a, b, le), x, le) == Class(a, x, le) + Class(b, x, le)
  {
    if a != [] && b != [] {
      if le(a[0], b[0]) {
        MergeClass(a[1..], b, x, le);
        assert ([a[0]] + Merge(a[1..], b, le))[1..] == Merge(a[1..], b, le);
      } else {
        MergeClass(a, b[1..], x, le);
        assert ([b[0]] + Merge(a, b[1..], le))[1..] == Merge(a, b[1..], le);
        if Alike(b[0], x, le) {
          NothingAlike(a, x, le);
        }
      }
    }
  }

  lemma {:induction false} NothingAlike<T>(a: seq<T>, x: T, le: (T, T) -> bool)
    requires forall y <- a :: !Alike(y, x, le)
    ensures Class(a, x, le) == []
  {
    if a != [] {
      NothingAlike(a[1..], x, le);
    }
  }

  lemma MergeIsSort<T(!new)>(a: seq<T>, b: seq<T>, le: (T, T) -> bool)
    requires Preorder(le)
    ensures Merge(Sort(a, le), Sort(b, le), le) == Sort(a + b, le)
  {
    var l, r := Sort(a, le), Sort(b, le);
    SortIsStable(a, le);
    SortIsStable(b, le);
    MergeIsSorted(l, r, le);
    forall x
      ensures Class(Merge(l, r, le), x, le) == Class(a + b, x, le)
    {
      MergeClass(l, r, x, le);
      ClassConcat(a, b, x, le);
    }
    IsSort(Merge(l, r, le), a + b, le);
  }

  lemma MergeStep<T(!new)>(merged: seq<T>, a: seq<T>, b: seq<T>, le: (T, T) -> bool)
    requires a != [] && b != []
    ensures merged + Merge(a, b, le) == if le(a[0], b[0]) then merged + [a[0]] + Merge(a[1..], b, le)
                                        else merged + [b[0]] + Merge(a, b[1..], le)
  {
  }

  /** mergeTimelineEntries: two indices over two lists. */
  method MergeByIndex<T(!new)>(left: seq<T>, right: seq<T>, le: (T, T) -> bool) returns (merged: seq<T>)
    ensures merged == Merge(left, right, le)
  {
    if |left| == 0 {
      return right;
    }
    if |right| == 0 {
      return left;
    }
    merged := [];
    var i, j := 0, 0;
    while i < |left| && j < |right|
      invariant i <= |left| && j <= |right|
      invariant merged + Merge(left[i..], right[j..], le) == Merge(left, right, le)
      decreases |left| - i + |right| - j
    {
      MergeStep(merged, left[i..], right[j..], le);
      if le(left[i], right[j]) {
        merged := merged + [left[i]];
        i := i + 1;
      } else {
        merged := merged + [right[j]];
        j := j + 1;
      }
    }
    while i < |left|
      invariant i <= |left| && j <= |right| && (i < |left| ==> j == |right|)
      invariant merged + left[i..] + right[j..] == Merge(left, right, le)
    {
      merged := merged + [left[i]];
      i := i + 1;
    }
    while j < |right|
      invariant i == |left| && j <= |right|
      invariant merged + right[j..] == Merge(left, right, le)
    {
      merged := merged + [right[j]];
      j := j + 1;
    }
  }

  // ----- when the input order does not matter -----

  predicate NoTies<T>(s: seq<T>, le: (T, T) -> bool) {
    forall i, j :: 0 <= i < j < |s| ==> !Alike(s[i], s[j], le)
  }

  /** When no two elements compare equal, the sort depends only on which elements there are. */
  lemma SortForgetsOrder<T(!new)>(s: seq<T>, t: seq<T>, le: (T, T) -> bool)
    requires Preorder(le) && NoTies(s, le) && multiset(s) == multiset(t)
    ensures Sort(s, le) == Sort(t, le)
  {
    SortIsStable(s, le);
    SortIsStable(t, le);
    forall x
      ensures Class(Sort(s, le), x, le) == Class(Sort(t, le), x, le)
    {
      assert Class(Sort(s, le), x, le) == Class(s, x, le) && Class(Sort(t, le), x, le) == Class(t, x, le);
      forall y
        ensures multiset(Class(s, x, le))[y] == multiset(Class(t, x, le))[y]
      {
        ClassCount(s, x, y, le);
        ClassCount(t, x, y, le);
      }
      AtMostOne(s, x, le);
      SingletonsAgree(Class(s, x, le), Class(t, x, le));
    }
    StableSortIsUnique(Sort(s, le), Sort(t, le), le);
  }

  lemma {:induction false} AtMostOne<T(!new)>(s: seq<T>, x: T, le: (T, T) -> bool)
    requires Preorder(le) && NoTies(s, le)
    ensures |Class(s, x, le)| <= 1
  {
    if s != [] {
      AtMostOne(s[1..], x, le);
      if Alike(s[0], x, le) {
        NothingAlike(s[1..], x, le);
      }
    }
  }

  lemma SingletonsAgree<T(!new)>(a: seq<T>, b: seq<T>)
    requires |a| <= 1 && multiset(a) == multiset(b)
    ensures a == b
  {
    assert |a| == |multiset(a)| == |multiset(b)| == |b|;
    if a != [] {
      assert a[0] in multiset(b);
    }
  }
}
