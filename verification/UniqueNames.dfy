/** Searches for a free name: numbered titles and group ids, and script ids under a length cap. */
module UniqueNames {
  import opened Strings

  ghost predicate Injective(name: nat -> string) {
    forall i, j :: name(i) == name(j) ==> i == j
  }

  /** The taken names the search can still meet from index start on. */
  ghost function Pending(name: nat -> string, taken: set<string>, start: nat): set<string> {
    set s | s in taken && exists k :: k >= start && name(k) == s
  }

  lemma PendingShrinks(name: nat -> string, taken: set<string>, start: nat)
    requires Injective(name) && name(start) in taken
    ensures |Pending(name, taken, start + 1)| < |Pending(name, taken, start)|
  {
    var now, later := Pending(name, taken, start), Pending(name, taken, start + 1);
    assert name(start) in now && name(start) !in later;
    SubsetSize(later, now - {name(start)});
  }

  lemma {:induction false} SubsetSize<T>(a: set<T>, b: set<T>)
    requires a <= b
    ensures |a| <= |b|
  {
    if a != {} {
      var x :| x in a;
      SubsetSize(a - {x}, b - {x});
    }
  }

  /** The index of the first free name: it exists, and is reached after at most one step per taken name. */
  function FirstFree(name: nat -> string, taken: set<string>, start: nat): (k: nat)
    requires Injective(name)
    ensures k >= start && name(k) !in taken
    ensures forall j :: start <= j < k ==> name(j) in taken
    ensures k <= start + |Pending(name, taken, start)|
    decreases |Pending(name, taken, start)|
  {
    if name(start) in taken then
      PendingShrinks(name, taken, start);
      FirstFree(name, taken, start + 1)
    else start
  }

  lemma FirstFreeWithin(name: nat -> string, taken: set<string>, start: nat)
    requires Injective(name)
    ensures FirstFree(name, taken, start) <= start + |taken|
  {
    SubsetSize(Pending(name, taken, start), taken);
  }

  lemma AllTriedMeansFull(name: nat -> string, taken: set<string>, tries: nat)
    requires Injective(name) && forall k: nat :: k < tries ==> name(k) in taken
    ensures |taken| >= tries
  {
    FirstFreeWithin(name, taken, 0);
    assert FirstFree(name, taken, 0) >= tries;
  }

  // ----- "base 1", "base 2", ... -----

  function TitleName(base: string): nat -> string {
    (k: nat) => base + [' '] + Decimal(k + 1)
  }

  lemma TitlesDiffer(base: string)
    ensures Injective(TitleName(base))
  {
    forall i: nat, j: nat | TitleName(base)(i) == TitleName(base)(j)
      ensures i == j
    {
      NumeralSuffixInjective(base, i + 1, base, j + 1, ' ');
    }
  }

  function UniqueTitle(base: string, taken: set<string>): (title: string)
    ensures title !in taken
  {
    TitlesDiffer(base);
    TitleName(base)(FirstFree(TitleName(base), taken, 0))
  }

  /** The search loop of createUniqueTerminalTitle. */
  method CreateUniqueTitle(base: string, taken: set<string>) returns (title: string)
    ensures title == UniqueTitle(base, taken)
    ensures title !in taken
    ensures exists k: nat :: k <= |taken| && title == TitleName(base)(k) && forall j: nat :: j < k ==> TitleName(base)(j) in taken
  {
    TitlesDiffer(base);
    FirstFreeWithin(TitleName(base), taken, 0);
    ghost var found := FirstFree(TitleName(base), taken, 0);
    var index := 1;
    while true
      invariant 1 <= index <= found + 1
      decreases found + 1 - index
    {
      var candidate := base + [' '] + Decimal(index);
      assert candidate == TitleName(base)(index - 1);
      if candidate !in taken {
        return candidate;
      }
      index := index + 1;
    }
  }

  // ----- base, "base-2", "base-3", ... -----

  function GroupName(base: string): nat -> string {
    (k: nat) => if k == 0 then base else base + ['-'] + Decimal(k + 1)
  }

  lemma GroupNamesDiffer(base: string)
    ensures Injective(GroupName(base))
  {
    forall i: nat, j: nat | GroupName(base)(i) == GroupName(base)(j)
      ensures i == j
    {
      if i > 0 && j > 0 {
        NumeralSuffixInjective(base, i + 1, base, j + 1, '-');
      } else {
        assert |GroupName(base)(i)| == |GroupName(base)(j)|;
      }
    }
  }

  function UniqueGroupId(base: string, used: set<string>): (id: string)
    ensures id !in used
    ensures base !in used ==> id == base
    ensures Clean(base) ==> Clean(id)
  {
    GroupNamesDiffer(base);
    var k := FirstFree(GroupName(base), used, 0);
    var id := GroupName(base)(k);
    assert Clean(base) ==> Clean(id) by {
      if Clean(base) && k > 0 {
        NumeralTextIsClean(base + ['-'], k + 1);
      }
    }
    id
  }

  /** The base when that is free, else the base with the first number from 2 on that is. */
  ghost predicate FirstGroupId(id: string, base: string, used: set<string>) {
    || (id == base && base !in used)
    || (base in used && exists k: nat :: k >= 2 && id == base + "-" + Decimal(k) && id !in used
                                         && forall j: nat :: 2 <= j < k ==> base + "-" + Decimal(j) in used)
  }

  lemma GroupIdIsFirst(base: string, used: set<string>)
    ensures FirstGroupId(UniqueGroupId(base, used), base, used)
  {
    hide Decimal;
    GroupNamesDiffer(base);
    var k := FirstFree(GroupName(base), used, 0);
    assert base + ['-'] == base + "-";
    if base in used {
      assert GroupName(base)(0) == base;
      assert UniqueGroupId(base, used) == GroupName(base)(k) == base + "-" + Decimal(k + 1);
      forall j: nat | 2 <= j < k + 1
        ensures base + "-" + Decimal(j) in used
      {
        assert GroupName(base)(j - 1) in used;
      }
    }
  }

  /** assignUniqueGroupId, which also records the id it hands out. */
  method AssignUniqueGroupId(base: string, used: set<string>) returns (id: string, usedAfter: set<string>)
    ensures id == UniqueGroupId(base, used) && FirstGroupId(id, base, used)
    ensures id !in used && usedAfter == used + {id}
  {
    GroupNamesDiffer(base);
    GroupIdIsFirst(base, used);
    ghost var found := FirstFree(GroupName(base), used, 0);
    id := base;
    var index := 2;
    while id in used
      invariant 2 <= index <= found + 2
      invariant id == GroupName(base)(index - 2)
      decreases found + 2 - index
    {
      id := base + ['-'] + Decimal(index);
      index := index + 1;
    }
    usedAfter := used + {id};
  }

  // ----- script ids, at most cap characters long -----

  predicate Plain(c: char) {
    'a' <= c <= 'z' || '0' <= c <= '9'
  }

  /** Every stretch of other characters becomes one dash. */
  function Dashed(s: string): string {
    if s == "" then ""
    else if Plain(s[0]) then [s[0]] + Dashed(s[1..])
    else if |s| > 1 && !Plain(s[1]) then Dashed(s[1..])
    else ['-'] + Dashed(s[1..])
  }

  function DropLeadingDashes(s: string): string {
    if s != "" && s[0] == '-' then DropLeadingDashes(s[1..]) else s
  }

  function DropTrailingDashes(s: string): string {
    if s != "" && s[|s| - 1] == '-' then DropTrailingDashes(s[..|s| - 1]) else s
  }

  /** normalizeScriptId; lower is how texts are put into lower case. */
  function NormalizeScriptId(value: string, cap: nat, lower: string -> string): string {
    var cleaned := DropTrailingDashes(DropLeadingDashes(Dashed(lower(Trim(value)))));
    if cleaned == "" then "script"
    else if |cleaned| <= cap then cleaned
    else
      var cut := DropTrailingDashes(cleaned[..cap]);
      if cut != "" then cut else "script"
  }

  /** Plain characters and single dashes. */
  predicate Tokens(s: string) {
    && (forall i :: 0 <= i < |s| ==> Plain(s[i]) || s[i] == '-')
    && (forall i :: 0 < i < |s| ==> s[i - 1] != '-' || s[i] != '-')
  }

  /** Words of plain characters joined by single dashes. */
  predicate Slug(s: string) {
    s != "" && Tokens(s) && s[0] != '-' && s[|s| - 1] != '-'
  }

  lemma {:induction false} DashedTokens(s: string)
    ensures Tokens(Dashed(s))
    ensures s != "" && Plain(s[0]) ==> Dashed(s) != "" && Dashed(s)[0] == s[0]
    ensures Slug(s) ==> Dashed(s) == s
  {
    if s != "" {
      DashedTokens(s[1..]);
      if Slug(s) && |s| > 1 {
        SlugTail(s);
      }
    }
  }

  /** Without its first character a slug is dashed to itself, whether it starts with a dash or not. */
  lemma {:induction false} SlugTail(s: string)
    requires |s| > 1 && Tokens(s) && s[|s| - 1] != '-'
    ensures Dashed(s[1..]) == s[1..]
  {
    var t := s[1..];
    assert forall i :: 0 <= i < |t| ==> t[i] == s[i + 1];
    if |t| > 1 {
      assert Tokens(t);
      SlugTail(t);
      assert Plain(t[0]) || Plain(t[1]);
    } else {
      assert t[1..] == "";
    }
  }

  lemma {:induction false} LeadingTokens(s: string)
    requires Tokens(s)
    ensures var r := DropLeadingDashes(s); Tokens(r) && (r != "" ==> r[0] != '-')
    ensures s != "" && s[0] != '-' ==> DropLeadingDashes(s) == s
  {
    if s != "" && s[0] == '-' {
      assert forall i :: 0 <= i < |s[1..]| ==> s[1..][i] == s[i + 1];
      LeadingTokens(s[1..]);
    }
  }

  lemma {:induction false} TrailingTokens(s: string)
    requires Tokens(s)
    ensures var r := DropTrailingDashes(s); Tokens(r) && r <= s && (r != "" ==> r[|r| - 1] != '-')
    ensures s != "" && s[|s| - 1] != '-' ==> DropTrailingDashes(s) == s
  {
    if s != "" && s[|s| - 1] == '-' {
      TrailingTokens(s[..|s| - 1]);
    }
  }

  /** Any name becomes words joined by single dashes, within the cap; a name that is one already stays. */
  lemma ScriptIdIsSlug(value: string, cap: nat, lower: string -> string)
    requires cap >= 6
    ensures var id := NormalizeScriptId(value, cap, lower); Slug(id) && |id| <= cap
    ensures Slug(value) && |value| <= cap && lower(value) == value ==> NormalizeScriptId(value, cap, lower) == value
  {
    hide Dashed, DropLeadingDashes, DropTrailingDashes;
    var dashed := Dashed(lower(Trim(value)));
    DashedTokens(lower(Trim(value)));
    LeadingTokens(dashed);
    TrailingTokens(DropLeadingDashes(dashed));
    var cleaned := DropTrailingDashes(DropLeadingDashes(dashed));
    if |cleaned| > cap {
      TrailingTokens(cleaned[..cap]);
    }
    if Slug(value) {
      SlugIsTrimmed(value);
    }
    assert Slug("script");
  }

  /** The stretches of plain characters. */
  function Words(s: string): (words: seq<string>)
    ensures s != "" && Plain(s[0]) ==> words != []
    ensures forall i :: 0 <= i < |words| ==> words[i] != ""
  {
    if s == "" then []
    else if !Plain(s[0]) then Words(s[1..])
    else
      var rest := Words(s[1..]);
      if |s| == 1 || !Plain(s[1]) then [[s[0]]] + rest else [[s[0]] + rest[0]] + rest[1..]
  }

  function Hyphened(words: seq<string>): string {
    if words == [] then "" else if |words| == 1 then words[0] else words[0] + "-" + Hyphened(words[1..])
  }

  function Dash(here: bool): string {
    if here then "-" else ""
  }

  lemma NoDash(s: string)
    ensures s + Dash(false) == Dash(false) + s == s
  {
  }

  lemma Regrouped(a: string, b: string, c: string)
    ensures (a + b) + c == a + (b + c)
  {
  }

  lemma TrailingCons(c: char, t: string)
    ensures DropTrailingDashes([c] + t) ==
            if DropTrailingDashes(t) != "" then [c] + DropTrailingDashes(t) else if c == '-' then "" else [c]
  {
    var s := [c] + t;
    if t == "" {
      assert s == [c] && s[..0] == "";
    } else if t[|t| - 1] == '-' {
      assert s[..|s| - 1] == [c] + t[..|t| - 1];
      TrailingCons(c, t[..|t| - 1]);
    }
  }

  lemma {:induction false} DashedWords(s: string)
    ensures DropTrailingDashes(Dashed(s)) ==
            Dash(s != "" && !Plain(s[0]) && Words(s) != []) + Hyphened(Words(s))
  {
    hide *;
    if s == "" {
      NothingDashed();
    } else {
      var rest := s[1..];
      DashedWords(rest);
      HyphenedSome(Words(rest));
      DashedCons(s);
      NoDash(Hyphened(Words(rest)));
      if Plain(s[0]) {
        TrailingCons(s[0], Dashed(rest));
        WordsCons(s);
        PlainIsNoDash(s[0]);
        Regrouped([s[0]], Dash(rest != "" && !Plain(rest[0]) && Words(rest) != []), Hyphened(Words(rest)));
      } else {
        SkippedWords(s);
        if rest == "" || Plain(rest[0]) {
          TrailingCons('-', Dashed(rest));
          DashSplit(Hyphened(Words(rest)));
        }
      }
    }
  }

  lemma NothingDashed()
    ensures DropTrailingDashes(Dashed("")) == Dash(false) + Hyphened(Words(""))
  {
  }

  lemma DashedCons(s: string)
    requires s != ""
    ensures Plain(s[0]) ==> Dashed(s) == [s[0]] + Dashed(s[1..])
    ensures !Plain(s[0]) ==> Dashed(s) == if |s| > 1 && !Plain(s[1]) then Dashed(s[1..]) else ['-'] + Dashed(s[1..])
  {
  }

  /** The characters a script id is made of. */
  lemma PlainAre(c: char)
    ensures Plain(c) <==>
            || c in {'a', 'b', 'c', 'd', 'e', 'f', 'g', 'h', 'i', 'j', 'k', 'l', 'm'}
            || c in {'n', 'o', 'p', 'q', 'r', 's', 't', 'u', 'v', 'w', 'x', 'y', 'z'}
            || c in {'0', '1', '2', '3', '4', '5', '6', '7', '8', '9'}
  {
  }

  lemma PlainIsNoDash(c: char)
    requires Plain(c)
    ensures c != '-'
  {
  }

  lemma SkippedWords(s: string)
    requires s != "" && !Plain(s[0])
    ensures Words(s) == Words(s[1..])
  {
  }

  lemma DashSplit(s: string)
    ensures Dash(true) + s == ['-'] + s && Dash(false) + s == s
    ensures s == "" ==> Dash(false) + s == ""
  {
  }

  lemma HyphenedSome(words: seq<string>)
    requires forall i :: 0 <= i < |words| ==> words[i] != ""
    ensures Hyphened(words) == "" <==> words == []
  {
  }

  lemma WordsCons(s: string)
    requires s != "" && Plain(s[0])
    ensures Hyphened(Words(s)) ==
            [s[0]] + Dash(|s| > 1 && !Plain(s[1]) && Words(s[1..]) != []) + Hyphened(Words(s[1..]))
  {
    hide *;
    var rest := Words(s[1..]);
    WordsIs(s);
    if |s| == 1 || !Plain(s[1]) {
      WordBefore([s[0]], rest);
      if |s| == 1 {
        NoWords(s[1..]);
      }
    } else {
      LongerWord(s[0], rest);
      NoDash([s[0]]);
    }
  }

  lemma WordsIs(s: string)
    requires s != "" && Plain(s[0])
    ensures var rest := Words(s[1..]);
            && (|s| == 1 || !Plain(s[1]) ==> Words(s) == [[s[0]]] + rest)
            && (|s| > 1 && Plain(s[1]) ==> rest != [] && Words(s) == [[s[0]] + rest[0]] + rest[1..])
  {
  }

  lemma NoWords(s: string)
    requires s == ""
    ensures Words(s) == []
  {
  }

  lemma WordBefore(word: string, rest: seq<string>)
    ensures Hyphened([word] + rest) == word + Dash(rest != []) + Hyphened(rest)
  {
    assert ([word] + rest)[1..] == rest;
  }

  lemma LongerWord(c: char, words: seq<string>)
    requires words != []
    ensures Hyphened([[c] + words[0]] + words[1..]) == [c] + Hyphened(words)
  {
    var longer := [[c] + words[0]] + words[1..];
    assert longer[1..] == words[1..];
    if |words| > 1 {
      hide Hyphened;
      HyphenedUncons(words);
      HyphenedUncons(longer);
      Regrouped([c], words[0], "-" + Hyphened(words[1..]));
    }
  }

  lemma HyphenedUncons(words: seq<string>)
    requires |words| > 1
    ensures Hyphened(words) == words[0] + ("-" + Hyphened(words[1..]))
  {
    hide *;
    HyphenedIs(words);
    Regrouped(words[0], "-", Hyphened(words[1..]));
  }

  lemma HyphenedIs(words: seq<string>)
    requires |words| > 1
    ensures Hyphened(words) == words[0] + "-" + Hyphened(words[1..])
  {
  }

  lemma {:induction false} LeadingWords(s: string)
    ensures DropTrailingDashes(DropLeadingDashes(Dashed(s))) == Hyphened(Words(s))
  {
    if s == "" || Plain(s[0]) {
      DashedWords(s);
      LeadingStays(Dashed(s));
    } else {
      LeadingWords(s[1..]);
      if |s| == 1 || Plain(s[1]) {
        assert Dashed(s)[1..] == Dashed(s[1..]);
      }
    }
  }

  lemma LeadingStays(s: string)
    ensures s == "" || s[0] != '-' ==> DropLeadingDashes(s) == s
  {
  }

  /** The id is the words of the name, in lower case, joined by dashes; cut at the cap, and not left ending in a dash. */
  lemma ScriptIdReads(value: string, cap: nat, lower: string -> string)
    requires cap >= 6
    ensures var text, id := Hyphened(Words(lower(Trim(value)))), NormalizeScriptId(value, cap, lower);
            && (text == "" ==> id == "script")
            && (0 < |text| <= cap ==> id == text)
            && (|text| > cap ==> id == if text[cap - 1] == '-' then text[..cap - 1] else text[..cap])
  {
    hide Dashed, DropLeadingDashes, DropTrailingDashes, Hyphened, Words;
    var source := lower(Trim(value));
    var text := Hyphened(Words(source));
    LeadingWords(source);
    DashedTokens(source);
    LeadingTokens(Dashed(source));
    TrailingTokens(DropLeadingDashes(Dashed(source)));
    if |text| > cap {
      CutOnce(text[..cap]);
      assert text[..cap][..cap - 1] == text[..cap - 1];
    }
  }

  lemma CutOnce(s: string)
    requires |s| > 1 && Tokens(s)
    ensures DropTrailingDashes(s) == if s[|s| - 1] == '-' then s[..|s| - 1] else s
  {
  }

  lemma SlugIsTrimmed(s: string)
    requires Slug(s)
    ensures Trim(s) == s
  {
    TrimIsTrimmed(s);
  }

  const SUFFIX_LIMIT := 10_000

  function Take(s: string, n: int): string {
    if n < 0 then [] else if n <= |s| then s[..n] else s
  }

  /** The part of the base kept in front of the numeral for suffix k + 2, cut so that the numeral fits. */
  function KeptBase(base: string, cap: nat, k: nat): string {
    if |base + ['-'] + Decimal(k + 2)| <= cap then base
    else
      var room := cap - |Decimal(k + 2)| - 1;
      Take(base, if room > 1 then room else 1)
  }

  /** The candidate for suffix k + 2. */
  function ScriptName(base: string, cap: nat): nat -> string {
    (k: nat) => KeptBase(base, cap, k) + ['-'] + Decimal(k + 2)
  }

  lemma ScriptNamesDiffer(base: string, cap: nat)
    ensures Injective(ScriptName(base, cap))
  {
    hide KeptBase, Decimal;
    forall i: nat, j: nat | ScriptName(base, cap)(i) == ScriptName(base, cap)(j)
      ensures i == j
    {
      NumeralSuffixInjective(KeptBase(base, cap, i), i + 2, KeptBase(base, cap, j), j + 2, '-');
    }
  }

  function Power10(d: nat): nat {
    if d == 0 then 1 else 10 * Power10(d - 1)
  }

  lemma {:induction false} NumeralLength(n: nat, digits: nat)
    requires digits >= 1 && n < Power10(digits)
    ensures |Decimal(n)| <= digits
  {
    if n >= 10 {
      NumeralLength(n / 10, digits - 1);
    }
  }

  lemma ScriptNameFits(base: string, cap: nat, k: nat)
    requires cap >= 6 && k + 2 < SUFFIX_LIMIT
    ensures |ScriptName(base, cap)(k)| <= cap
    ensures var candidate := base + ['-'] + Decimal(k + 2);
            var room := cap - |Decimal(k + 2)| - 1;
            ScriptName(base, cap)(k) ==
            if |candidate| <= cap then candidate else Take(base, if room > 1 then room else 1) + ['-'] + Decimal(k + 2)
  {
    assert Power10(4) == 10 * (10 * (10 * (10 * Power10(0))));
    NumeralLength(k + 2, 4);
  }

  /** The base and the number, the base cut only as far as the cap asks. */
  ghost predicate CutTo(id: string, base: string, cap: nat, number: nat) {
    exists m: nat :: m <= |base| && IsCut(id, base, m, cap, number)
  }

  predicate IsCut(id: string, base: string, m: nat, cap: nat, number: nat)
    requires m <= |base|
  {
    id == base[..m] + "-" + Decimal(number) && |id| <= cap && (m == |base| || |id| == cap)
  }

  lemma ScriptNameIsCut(base: string, cap: nat, k: nat, id: string)
    requires cap >= 6 && k + 2 < SUFFIX_LIMIT
    ensures CutTo(id, base, cap, k + 2) <==> id == ScriptName(base, cap)(k)
  {
    assert Power10(4) == 10 * (10 * (10 * (10 * Power10(0))));
    NumeralLength(k + 2, 4);
    hide Decimal, Power10;
    var number := Decimal(k + 2);
    var name := ScriptName(base, cap)(k);
    var m := if |base| + 1 + |number| <= cap then |base| else cap - |number| - 1;
    assert name == base[..m] + "-" + number by {
      assert base[..|base|] == base;
    }
    assert IsCut(name, base, m, cap, k + 2);
    if CutTo(id, base, cap, k + 2) {
      var n: nat :| n <= |base| && IsCut(id, base, n, cap, k + 2);
      assert n == m;
    }
  }

  /** The first numbered candidate that is free. */
  ghost predicate FirstScriptId(id: string, base: string, cap: nat, taken: set<string>) {
    exists number: nat :: 2 <= number < SUFFIX_LIMIT && CutTo(id, base, cap, number) && id !in taken && EarlierTaken(base, cap, number, taken)
  }

  ghost predicate EarlierTaken(base: string, cap: nat, number: nat, taken: set<string>) {
    forall earlier: nat, other: string :: 2 <= earlier < number && CutTo(other, base, cap, earlier) ==> other in taken
  }

  predicate AllTried(base: string, cap: nat, number: nat, taken: set<string>) {
    forall k: nat :: k < number - 2 ==> ScriptName(base, cap)(k) in taken
  }

  lemma NoneTried(base: string, cap: nat, taken: set<string>)
    ensures AllTried(base, cap, 2, taken)
  {
  }

  lemma OneMoreTried(base: string, cap: nat, number: nat, taken: set<string>)
    requires AllTried(base, cap, number, taken) && number >= 2 && ScriptName(base, cap)(number - 2) in taken
    ensures AllTried(base, cap, number + 1, taken)
  {
    hide ScriptName;
  }

  lemma NoneLeft(base: string, cap: nat, taken: set<string>)
    requires AllTried(base, cap, SUFFIX_LIMIT, taken)
    ensures |taken| >= SUFFIX_LIMIT - 2
  {
    ScriptNamesDiffer(base, cap);
    hide ScriptName, Injective;
    AllTriedMeansFull(ScriptName(base, cap), taken, SUFFIX_LIMIT - 2);
  }

  lemma AllEarlierTaken(base: string, cap: nat, number: nat, taken: set<string>)
    requires cap >= 6 && 2 <= number <= SUFFIX_LIMIT
    requires AllTried(base, cap, number, taken)
    ensures EarlierTaken(base, cap, number, taken)
  {
    hide ScriptName, CutTo;
    forall earlier: nat, other: string | 2 <= earlier < number && CutTo(other, base, cap, earlier)
      ensures other in taken
    {
      ScriptNameIsCut(base, cap, earlier - 2, other);
    }
  }

  lemma IsFirstScriptId(id: string, base: string, cap: nat, number: nat, taken: set<string>)
    requires cap >= 6 && 2 <= number < SUFFIX_LIMIT && id == ScriptName(base, cap)(number - 2) && id !in taken
    requires AllTried(base, cap, number, taken)
    ensures FirstScriptId(id, base, cap, taken)
  {
    hide ScriptName, CutTo, EarlierTaken, AllTried;
    ScriptNameIsCut(base, cap, number - 2, id);
    AllEarlierTaken(base, cap, number, taken);
  }

  /**
   * nextProjectScriptId; lastResort is the stamped id of the final fallback. While fewer than 9998 ids
   * are taken the result is free and within the cap.
   */
  method NextProjectScriptId(name: string, taken: set<string>, cap: nat, lower: string -> string, lastResort: string) returns (id: string)
    requires cap >= 6
    ensures var base := NormalizeScriptId(name, cap, lower);
            && (base !in taken ==> id == base)
            && (base in taken ==>
                  || FirstScriptId(id, base, cap, taken)
                  || (EarlierTaken(base, cap, SUFFIX_LIMIT, taken) && id <= base + "-" + lastResort
                      && (|id| == cap || id == base + "-" + lastResort)))
    ensures |id| <= cap
    ensures |taken| < SUFFIX_LIMIT - 2 ==> id !in taken
  {
    var base := NormalizeScriptId(name, cap, lower);
    ScriptIdIsSlug(name, cap, lower);
    hide NormalizeScriptId, Slug, ScriptName;
    if base !in taken {
      return base;
    }
    hide Take, Decimal, CutTo, EarlierTaken, FirstScriptId, AllTried;
    NoneTried(base, cap, taken);
    var suffix := 2;
    while suffix < SUFFIX_LIMIT
      invariant 2 <= suffix <= SUFFIX_LIMIT
      invariant AllTried(base, cap, suffix, taken)
    {
      var candidate := base + ['-'] + Decimal(suffix);
      var room := cap - |Decimal(suffix)| - 1;
      var safeCandidate := if |candidate| <= cap then candidate
                           else Take(base, if room > 1 then room else 1) + ['-'] + Decimal(suffix);
      ScriptNameFits(base, cap, suffix - 2);
      if safeCandidate !in taken {
        IsFirstScriptId(safeCandidate, base, cap, suffix, taken);
        return safeCandidate;
      }
      OneMoreTried(base, cap, suffix, taken);
      suffix := suffix + 1;
    }
    NoneLeft(base, cap, taken);
    AllEarlierTaken(base, cap, SUFFIX_LIMIT, taken);
    id := Take(base + "-" + lastResort, cap);
    TakeIs(base + "-" + lastResort, cap);
  }

  lemma TakeIs(s: string, n: nat)
    ensures Take(s, n) <= s && |Take(s, n)| <= n && (|Take(s, n)| == n || Take(s, n) == s)
  {
  }
}
