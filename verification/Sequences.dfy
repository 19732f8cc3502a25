/** List operations the sources use on arrays: filter, dedupe through a Set, and facts about them. */
module Sequences {

  predicate NoDup<T(==)>(s: seq<T>) {
    forall i, j :: 0 <= i < j < |s| ==> s[i] != s[j]
  }

  function ToSet<T>(s: seq<T>): set<T> {
    set x | x in s
  }

  /** s.filter((y) => y !== x) */
  function Without<T(==,!new)>(s: seq<T>, x: T): (r: seq<T>)
    ensures forall y :: y in r <==> y in s && y != x
    ensures |r| <= |s|
    ensures x !in s ==> r == s
  {
    if s == [] then []
    else if s[0] == x then Without(s[1..], x)
    else [s[0]] + Without(s[1..], x)
  }

  /** s.filter((y) => keep.has(y)) */
  function Restrict<T(==,!new)>(s: seq<T>, keep: set<T>): (r: seq<T>)
    ensures forall y :: y in r <==> y in s && y in keep
    ensures |r| <= |s|
    ensures (forall y <- s :: y in keep) ==> r == s
  {
    if s == [] then []
    else if s[0] in keep then [s[0]] + Restrict(s[1..], keep)
    else Restrict(s[1..], keep)
  }

  /** [...new Set(s)]: first occurrences, in order. */
  function Dedup<T(==,!new)>(s: seq<T>): (r: seq<T>)
    ensures forall y :: y in r <==> y in s
    ensures NoDup(r)
    ensures NoDup(s) ==> r == s
  {
    if s == [] then []
    else
      var front := Dedup(s[..|s| - 1]);
      assert s == s[..|s| - 1] + [s[|s| - 1]];
      if s[|s| - 1] in front then front else front + [s[|s| - 1]]
  }

  lemma {:induction false} RestrictNoDup<T(!new)>(s: seq<T>, keep: set<T>)
    requires NoDup(s)
    ensures NoDup(Restrict(s, keep))
  {
    if s != [] {
      RestrictNoDup(s[1..], keep);
      assert s[0] !in s[1..];
    }
  }

  lemma {:induction false} WithoutNoDup<T(!new)>(s: seq<T>, x: T)
    requires NoDup(s)
    ensures NoDup(Without(s, x))
  {
    if s != [] {
      WithoutNoDup(s[1..], x);
      assert s[0] !in s[1..];
    }
  }

  lemma {:induction false} WithoutConcat<T(!new)>(s: seq<T>, t: seq<T>, x: T)
    ensures Without(s + t, x) == Without(s, x) + Without(t, x)
  {
    if s == [] {
      assert s + t == t;
    } else {
      assert (s + t)[1..] == s[1..] + t;
      WithoutConcat(s[1..], t, x);
    }
  }

  lemma NoDupConcat<T>(s: seq<T>, t: seq<T>)
    ensures NoDup(s + t) <==> NoDup(s) && NoDup(t) && (forall x <- s :: x !in t)
  {
    var u := s + t;
    assert forall i :: 0 <= i < |s| ==> u[i] == s[i];
    assert forall j :: 0 <= j < |t| ==> u[|s| + j] == t[j];
    if NoDup(u) {
      forall x | x in s
        ensures x !in t
      {
        var i :| 0 <= i < |s| && s[i] == x;
        assert forall j :: 0 <= j < |t| ==> t[j] == u[|s| + j] != u[i];
      }
      forall i, j | 0 <= i < j < |t|
        ensures t[i] != t[j]
      {
        assert u[|s| + i] == t[i] && u[|s| + j] == t[j];
      }
    }
    if NoDup(s) && NoDup(t) && (forall x <- s :: x !in t) {
      forall i, j | 0 <= i < j < |u|
        ensures u[i] != u[j]
      {
        if i < |s| <= j {
          assert u[i] in s && u[j] == t[j - |s|];
        } else if |s| <= i {
          assert u[i] == t[i - |s|] && u[j] == t[j - |s|];
        }
      }
    }
  }

  // ----- order -----

  /** s.indexOf(x) for an element of s. */
  function IndexOf<T(==)>(s: seq<T>, x: T): (i: nat)
    requires x in s
    ensures i < |s| && s[i] == x && x !in s[..i]
  {
    if s[0] == x then 0 else 1 + IndexOf(s[1..], x)
  }

  /** The elements of r come from s, in the order in which s first has them. */
  predicate InOrder<T(==)>(r: seq<T>, s: seq<T>) {
    && (forall x <- r :: x in s)
    && forall i, j :: 0 <= i < j < |r| ==> r[i] in s && r[j] in s && IndexOf(s, r[i]) < IndexOf(s, r[j])
  }

  lemma IndexOfIs<T>(s: seq<T>, i: nat)
    requires i < |s| && s[i] !in s[..i]
    ensures IndexOf(s, s[i]) == i
  {
    var k := IndexOf(s, s[i]);
    assert forall j :: 0 <= j < i ==> s[..i][j] == s[j];
    assert forall j :: 0 <= j < k ==> s[..k][j] == s[j];
  }

  lemma IndexOfLonger<T>(s: seq<T>, t: seq<T>, x: T)
    requires x in s
    ensures IndexOf(s + t, x) == IndexOf(s, x)
  {
    var u, i := s + t, IndexOf(s, x);
    assert u[i] == x && u[..i] == s[..i];
    IndexOfIs(u, i);
  }

  lemma {:induction false} DedupInOrder<T(!new)>(s: seq<T>)
    ensures InOrder(Dedup(s), s)
  {
    if s != [] {
      var front, last := s[..|s| - 1], s[|s| - 1];
      DedupInOrder(front);
      assert s == front + [last];
      var d := Dedup(front);
      forall x | x in front
        ensures IndexOf(s, x) == IndexOf(front, x)
      {
        IndexOfLonger(front, [last], x);
      }
      if last !in d {
        IndexOfIs(s, |front|);
      }
    }
  }

  /** A filter that keeps distinct elements keeps their order. */
  lemma {:induction false} RestrictInOrder<T(!new)>(s: seq<T>, keep: set<T>)
    requires NoDup(s)
    ensures InOrder(Restrict(s, keep), s)
  {
    if s != [] {
      RestrictInOrder(s[1..], keep);
      TailOrder(s, Restrict(s[1..], keep));
    }
  }

  lemma {:induction false} WithoutInOrder<T(!new)>(s: seq<T>, x: T)
    requires NoDup(s)
    ensures InOrder(Without(s, x), s)
  {
    if s != [] {
      WithoutInOrder(s[1..], x);
      TailOrder(s, Without(s[1..], x));
    }
  }

  lemma TailOrder<T(!new)>(s: seq<T>, r: seq<T>)
    requires s != [] && NoDup(s) && InOrder(r, s[1..])
    ensures InOrder(r, s) && InOrder([s[0]] + r, s)
  {
    IndexOfIs(s, 0);
    forall x | x in s[1..]
      ensures IndexOf(s, x) == 1 + IndexOf(s[1..], x)
    {
      assert s[0] != x by {
        var k :| 0 <= k < |s[1..]| && s[1..][k] == x;
        assert s[k + 1] == x;
      }
    }
  }

  lemma InOrderTrans<T(!new)>(r: seq<T>, s: seq<T>, t: seq<T>)
    requires InOrder(r, s) && InOrder(s, t)
    ensures InOrder(r, t)
  {
    forall i, j | 0 <= i < j < |r|
      ensures r[i] in t && r[j] in t && IndexOf(t, r[i]) < IndexOf(t, r[j])
    {
      var a, b := IndexOf(s, r[i]), IndexOf(s, r[j]);
      assert s[a] == r[i] && s[b] == r[j];
    }
  }

  lemma MiddleApart(before: seq<string>, id: string, after: seq<string>)
    requires NoDup(before + [id] + after)
    ensures id !in before && id !in after && NoDup(before + after)
  {
    NoDupConcat(before + [id], after);
    NoDupConcat(before, [id]);
    NoDupConcat(before, after);
    assert forall x <- before :: x in before + [id];
    assert id in before + [id];
  }
}
