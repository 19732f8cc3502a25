/** Moving a cursor between the composer, where a chip is one character wide, and the prompt text. */
module ComposerCursor {
  import opened Wrappers
  import StableSort
  import opened ComposerSegments

  /** How many text characters the code counts for a segment. */
  function ExpandedLength(s: Segment): nat {
    match s
    case TextSegment(text) => |text|
    case ContextSegment(_) => 1
    case ChipSegment(Mention(path, _)) => |path| + 1
    case ChipSegment(Skill(name, _)) => |name| + 1
    case ChipSegment(SlashCommand(command)) => |command| + 1
    case ChipSegment(Agent(alias, _)) => |alias| + 1
    case ChipSegment(Link(url)) => |url|
  }

  function CollapsedLength(s: Segment): nat {
    if s.TextSegment? then |s.text| else 1
  }

  function ExpandedTotal(segments: seq<Segment>): nat {
    if segments == [] then 0 else ExpandedLength(segments[0]) + ExpandedTotal(segments[1..])
  }

  function CollapsedTotal(segments: seq<Segment>): nat {
    if segments == [] then 0 else CollapsedLength(segments[0]) + CollapsedTotal(segments[1..])
  }

  /** clampCursor and the clamp over segments; a number that is not finite arrives as None. */
  function Clamp(length: nat, cursor: Option<real>): (r: nat)
    ensures r <= length
    ensures cursor.None? || cursor.value >= length as real ==> r == length
    ensures cursor.Some? && cursor.value < 0.0 ==> r == 0
    ensures cursor.Some? && 0.0 <= cursor.value < length as real ==> r as real <= cursor.value < r as real + 1.0
  {
    match cursor
    case None => length
    case Some(x) => if x.Floor < 0 then 0 else if x.Floor > length then length else x.Floor
  }

  function Expand(segments: seq<Segment>, c: nat): nat {
    if segments == [] then 0
    else
      var s, rest := segments[0], segments[1..];
      if s.TextSegment? then
        if c <= |s.text| then c else |s.text| + Expand(rest, c - |s.text|)
      else if c == 0 then 0
      else if c == 1 then ExpandedLength(s)
      else ExpandedLength(s) + Expand(rest, c - 1)
  }

  function Collapse(segments: seq<Segment>, e: nat): nat {
    if segments == [] then 0
    else
      var s, rest := segments[0], segments[1..];
      if s.TextSegment? then
        if e <= |s.text| then e else |s.text| + Collapse(rest, e - |s.text|)
      else if e == 0 then 0
      else if e <= ExpandedLength(s) then 1
      else 1 + Collapse(rest, e - ExpandedLength(s))
  }

  /** expandCollapsedComposerCursor */
  method ExpandCollapsedCursor(prompt: string, find: string -> Found, cursor: Option<real>) returns (expanded: nat)
    requires Faithful(find)
    ensures expanded == Expand(Segments(Compose(prompt, [], find, 0)), Clamp(|prompt|, cursor))
  {
    hide Compose, Faithful, Clamp;
    var segments := SplitPrompt(prompt, [], find);
    var remaining: nat := Clamp(|prompt|, cursor);
    expanded := 0;
    assert segments[0..] == segments;
    for i := 0 to |segments|
      invariant expanded + Expand(segments[i..], remaining) == Expand(segments, Clamp(|prompt|, cursor))
    {
      var s := segments[i];
      assert segments[i..][1..] == segments[i + 1..];
      if s.TextSegment? {
        if remaining <= |s.text| {
          return expanded + remaining;
        }
        remaining := remaining - |s.text|;
      } else {
        if remaining <= 1 {
          return expanded + if remaining == 0 then 0 else ExpandedLength(s);
        }
        remaining := remaining - 1;
      }
      expanded := expanded + ExpandedLength(s);
    }
  }

  /** collapseExpandedComposerCursor */
  method CollapseExpandedCursor(prompt: string, find: string -> Found, cursor: Option<real>) returns (collapsed: nat)
    requires Faithful(find)
    ensures collapsed == Collapse(Segments(Compose(prompt, [], find, 0)), Clamp(|prompt|, cursor))
  {
    hide Compose, Faithful, Clamp;
    var segments := SplitPrompt(prompt, [], find);
    var remaining: nat := Clamp(|prompt|, cursor);
    collapsed := 0;
    assert segments[0..] == segments;
    for i := 0 to |segments|
      invariant collapsed + Collapse(segments[i..], remaining) == Collapse(segments, Clamp(|prompt|, cursor))
    {
      var s := segments[i];
      assert segments[i..][1..] == segments[i + 1..];
      if s.TextSegment? {
        if remaining <= |s.text| {
          return collapsed + remaining;
        }
        remaining := remaining - |s.text|;
        collapsed := collapsed + |s.text|;
      } else {
        if remaining == 0 {
          return collapsed;
        }
        if remaining <= ExpandedLength(s) {
          return collapsed + 1;
        }
        remaining := remaining - ExpandedLength(s);
        collapsed := collapsed + 1;
      }
    }
  }

  // ----- the two directions belong together -----

  /** Every segment takes up some text. */
  predicate Sound(segments: seq<Segment>) {
    forall s <- segments :: ExpandedLength(s) >= 1
  }

  lemma ComposedIsSound(prompt: string, find: string -> Found)
    requires Faithful(find)
    ensures Sound(Segments(Compose(prompt, [], find, 0)))
  {
    ComposeSpells(prompt, [], find, 0);
    hide *;
    ShownIsSound(Compose(prompt, [], find, 0));
  }

  lemma ShownIsSound(pieces: seq<Piece>)
    requires TextsShow(pieces)
    ensures Sound(Segments(pieces))
  {
    forall s <- Segments(pieces)
      ensures ExpandedLength(s) >= 1
    {
      var i :| 0 <= i < |pieces| && Segments(pieces)[i] == s;
      assert pieces[i] in pieces;
    }
  }

  /** Collapsing and expanding are a Galois connection on the positions the code counts. */
  lemma {:induction false} Galois(segments: seq<Segment>, c: nat, e: nat)
    requires Sound(segments) && e <= ExpandedTotal(segments)
    ensures Collapse(segments, e) <= c <==> e <= Expand(segments, c)
  {
    if segments != [] {
      var s, rest := segments[0], segments[1..];
      if e > ExpandedLength(s) && c > CollapsedLength(s) {
        Galois(rest, c - CollapsedLength(s), e - ExpandedLength(s));
      } else if e > ExpandedLength(s) {
        Galois(rest, 0, e - ExpandedLength(s));
        ExpandNothing(rest);
      }
    }
  }

  lemma ExpandNothing(segments: seq<Segment>)
    ensures Expand(segments, 0) == 0
  {
  }

  lemma {:induction false} Ends(segments: seq<Segment>, e: nat)
    requires Sound(segments)
    ensures Expand(segments, CollapsedTotal(segments)) == ExpandedTotal(segments)
    ensures Collapse(segments, e) <= CollapsedTotal(segments)
    ensures CollapsedTotal(segments) == 0 ==> segments == []
  {
    if segments != [] {
      Ends(segments[1..], if e > ExpandedLength(segments[0]) then e - ExpandedLength(segments[0]) else 0);
    }
  }

  /** Expanding never steps back, and moves on within the collapsed positions. */
  lemma {:induction false} ExpandGrows(segments: seq<Segment>, b: nat, c: nat)
    requires Sound(segments) && b < c
    ensures Expand(segments, b) <= Expand(segments, c) <= ExpandedTotal(segments)
    ensures c <= CollapsedTotal(segments) ==> Expand(segments, b) < Expand(segments, c)
  {
    if segments != [] {
      var l := CollapsedLength(segments[0]);
      if c > l {
        if b > l {
          ExpandGrows(segments[1..], b - l, c - l);
        } else {
          ExpandGrows(segments[1..], 0, c - l);
          ExpandNothing(segments[1..]);
        }
      }
    }
  }

  /** Collapsing undoes expanding, and expanding what was collapsed gives the next place the cursor can be. */
  lemma RoundTrips(segments: seq<Segment>, c: nat, e: nat)
    requires Sound(segments) && c <= CollapsedTotal(segments) && e <= ExpandedTotal(segments)
    ensures Collapse(segments, Expand(segments, c)) == c
    ensures e <= Expand(segments, Collapse(segments, e))
    ensures e <= Expand(segments, c) ==> Expand(segments, Collapse(segments, e)) <= Expand(segments, c)
  {
    hide *;
    Ends(segments, e);
    var x := Expand(segments, c);
    if c > 0 {
      ExpandGrows(segments, c - 1, c);
      Galois(segments, c - 1, x);
    } else {
      ExpandNothing(segments);
      ExpandGrows(segments, 0, 1);
    }
    Galois(segments, c, x);
    Galois(segments, Collapse(segments, e), e);
    Galois(segments, c, e);
    if Collapse(segments, e) < c {
      ExpandGrows(segments, Collapse(segments, e), c);
    }
  }

  // ----- on whole prompts: when the counted lengths do not add up to the text -----

  ghost predicate Connected(prompt: string, segments: seq<Segment>) {
    forall c: nat, e: nat | c <= CollapsedTotal(segments) && e <= |prompt| ::
      Collapse(segments, e) <= c <==> e <= Expand(segments, c)
  }

  /** The connection holds for every place in the prompt exactly when the counted lengths cover the prompt. */
  lemma ConnectedIff(prompt: string, segments: seq<Segment>)
    requires Sound(segments)
    ensures Connected(prompt, segments) <==> |prompt| <= ExpandedTotal(segments)
  {
    Ends(segments, |prompt|);
    if |prompt| <= ExpandedTotal(segments) {
      forall c: nat, e: nat | c <= CollapsedTotal(segments) && e <= |prompt|
        ensures Collapse(segments, e) <= c <==> e <= Expand(segments, c)
      {
        Galois(segments, c, e);
      }
    }
    if Connected(prompt, segments) {
      assert Collapse(segments, |prompt|) <= CollapsedTotal(segments) <==> |prompt| <= Expand(segments, CollapsedTotal(segments));
    }
  }

  function Least(a: nat, b: nat): nat {
    if a < b then a else b
  }

  ghost predicate Returns(prompt: string, segments: seq<Segment>) {
    forall c: nat | c <= CollapsedTotal(segments) :: Collapse(segments, Least(Expand(segments, c), |prompt|)) == c
  }

  /** The expanded place one step before the end: the last chip's start, or one character into the end of a last text. */
  function LastStart(segments: seq<Segment>): nat
    requires segments != [] && Sound(segments)
  {
    var last := segments[|segments| - 1];
    assert last in segments;
    ExpandedTotal(segments[..|segments| - 1]) + if last.TextSegment? then |last.text| - 1 else 0
  }

  lemma {:induction false} ExpandBeforeEnd(segments: seq<Segment>)
    requires segments != [] && Sound(segments)
    ensures CollapsedTotal(segments) > 0
    ensures Expand(segments, CollapsedTotal(segments) - 1) == LastStart(segments)
  {
    var rest := segments[1..];
    assert segments[0] in segments;
    if rest == [] {
      assert segments[..0] == [];
    } else {
      ExpandBeforeEnd(rest);
      ExpandNothing(rest);
      assert segments[..|segments| - 1][1..] == rest[..|rest| - 1];
    }
  }

  /**
   * Every collapsed cursor comes back through the prompt exactly when the prompt reaches past the counted
   * start of the last step: past the segments before a last chip, or to the last character of a last text.
   */
  lemma ReturnsIff(prompt: string, segments: seq<Segment>)
    requires Sound(segments)
    ensures Returns(prompt, segments) <==> segments == [] || LastStart(segments) < |prompt|
  {
    hide LastStart;
    var last := CollapsedTotal(segments);
    Ends(segments, |prompt|);
    if segments != [] {
      ExpandBeforeEnd(segments);
      ExpandGrows(segments, last - 1, last);
      if Expand(segments, last - 1) < |prompt| {
        forall c: nat | c <= last
          ensures Collapse(segments, Least(Expand(segments, c), |prompt|)) == c
        {
          ComesBack(segments, c, |prompt|);
        }
      } else {
        Galois(segments, last - 1, Least(Expand(segments, last), |prompt|));
      }
    }
  }

  lemma ComesBack(segments: seq<Segment>, c: nat, length: nat)
    requires Sound(segments) && segments != [] && c <= CollapsedTotal(segments)
    requires CollapsedTotal(segments) > 0 && Expand(segments, CollapsedTotal(segments) - 1) < length
    ensures Collapse(segments, Least(Expand(segments, c), length)) == c
  {
    var last := CollapsedTotal(segments);
    if c < last {
      if c < last - 1 {
        ExpandGrows(segments, c, last - 1);
      }
      RoundTrips(segments, c, 0);
    } else {
      var e := Least(Expand(segments, c), length);
      Ends(segments, e);
      ExpandGrows(segments, last - 1, last);
      Galois(segments, last - 1, e);
    }
  }

  /** Both laws on the prompt's own segments. */
  lemma PromptLaws(prompt: string, find: string -> Found)
    requires Faithful(find)
    ensures var segments := Segments(Compose(prompt, [], find, 0));
            && Sound(segments)
            && (Connected(prompt, segments) <==> |prompt| <= ExpandedTotal(segments))
            && (Returns(prompt, segments) <==> segments == [] || LastStart(segments) < |prompt|)
  {
    hide *;
    ComposedIsSound(prompt, find);
    var segments := Segments(Compose(prompt, [], find, 0));
    ConnectedIff(prompt, segments);
    ReturnsIff(prompt, segments);
  }

  // ----- the position in the prompt itself -----

  /** Where a collapsed cursor really is, by the stretches the segments stand for. */
  function Position(pieces: seq<Piece>, c: nat): nat {
    if pieces == [] then 0
    else
      var p, rest := pieces[0], pieces[1..];
      if p.segment.TextSegment? && c <= |p.span| then c
      else if c == 0 then 0
      else |p.span| + Position(rest, if c > CollapsedLength(p.segment) then c - CollapsedLength(p.segment) else 0)
  }

  predicate Honest(pieces: seq<Piece>) {
    forall p <- pieces :: ExpandedLength(p.segment) == |p.span|
  }

  lemma {:induction false} PositionNothing(pieces: seq<Piece>)
    ensures Position(pieces, 0) == 0
  {
  }

  lemma {:induction false} PositionFrom(pieces: seq<Piece>, c: nat)
    requires TextsShow(pieces) && pieces != []
    ensures Position(pieces, CollapsedLength(pieces[0].segment) + c) == |pieces[0].span| + Position(pieces[1..], c)
    ensures Expand(Segments(pieces), CollapsedLength(pieces[0].segment) + c)
         == ExpandedLength(pieces[0].segment) + Expand(Segments(pieces[1..]), c)
  {
    assert Segments(pieces)[1..] == Segments(pieces[1..]);
    PositionNothing(pieces[1..]);
    ExpandNothing(Segments(pieces[1..]));
  }

  ghost predicate Lands(pieces: seq<Piece>) {
    forall c: nat | c <= CollapsedTotal(Segments(pieces)) :: Expand(Segments(pieces), c) == Position(pieces, c)
  }

  /** Expanding lands where the cursor really is exactly when every chip is counted as long as the text it stands for. */
  lemma {:induction false} LandsIff(pieces: seq<Piece>)
    requires TextsShow(pieces)
    ensures Lands(pieces) <==> Honest(pieces)
  {
    if pieces != [] {
      var first, rest := pieces[0], pieces[1..];
      var l := CollapsedLength(first.segment);
      assert Segments(pieces)[1..] == Segments(rest);
      assert first in pieces;
      LandsIff(rest);
      PositionFrom(pieces, 0);
      PositionNothing(rest);
      ExpandNothing(Segments(rest));
      if Lands(pieces) {
        assert l <= CollapsedTotal(Segments(pieces));
        assert ExpandedLength(first.segment) == |first.span|;
        forall c: nat | c <= CollapsedTotal(Segments(rest))
          ensures Expand(Segments(rest), c) == Position(rest, c)
        {
          PositionFrom(pieces, c);
          assert l + c <= CollapsedTotal(Segments(pieces));
        }
      }
      if Honest(pieces) {
        forall c: nat | c <= CollapsedTotal(Segments(pieces))
          ensures Expand(Segments(pieces), c) == Position(pieces, c)
        {
          if c >= l {
            PositionFrom(pieces, c - l);
          }
        }
      }
    }
  }

  lemma {:induction false} HonestTotal(pieces: seq<Piece>)
    requires Honest(pieces)
    ensures ExpandedTotal(Segments(pieces)) == |Spell(pieces)|
  {
    if pieces != [] {
      assert Segments(pieces)[1..] == Segments(pieces[1..]);
      assert pieces[0] in pieces;
      HonestTotal(pieces[1..]);
    }
  }

  /** When every chip is counted as long as its text, the cursor maps are exact on the whole prompt. */
  lemma HonestPrompt(prompt: string, find: string -> Found)
    requires Faithful(find) && Honest(Compose(prompt, [], find, 0))
    ensures var segments := Segments(Compose(prompt, [], find, 0));
            && Connected(prompt, segments) && Returns(prompt, segments) && Lands(Compose(prompt, [], find, 0))
            && (forall e: nat | e <= |prompt| :: e <= Expand(segments, Collapse(segments, e)) <= |prompt|)
  {
    ComposeSpells(prompt, [], find, 0);
    hide *;
    HonestPieces(prompt, Compose(prompt, [], find, 0));
  }

  lemma HonestPieces(prompt: string, pieces: seq<Piece>)
    requires Spell(pieces) == prompt && TextsShow(pieces) && Honest(pieces)
    ensures var segments := Segments(pieces);
            && Connected(prompt, segments) && Returns(prompt, segments) && Lands(pieces)
            && (forall e: nat | e <= |prompt| :: e <= Expand(segments, Collapse(segments, e)) <= |prompt|)
  {
    hide Connected, Returns, Lands, Honest, TextsShow, Segments, Sound, Expand, Collapse, ExpandedTotal, Spell;
    var segments := Segments(pieces);
    ShownIsSound(pieces);
    HonestTotal(pieces);
    LandsIff(pieces);
    ConnectedIff(prompt, segments);
    ReturnsIff(prompt, segments);
    Ends(segments, 0);
    if segments != [] {
      ExpandBeforeEnd(segments);
      ExpandGrows(segments, CollapsedTotal(segments) - 1, CollapsedTotal(segments));
    }
    forall e: nat | e <= |prompt|
      ensures e <= Expand(segments, Collapse(segments, e)) <= |prompt|
    {
      RoundTrips(segments, 0, e);
      ExpandGrows(segments, Collapse(segments, e), Collapse(segments, e) + 1);
    }
  }

  // ----- two prompts the counting gets wrong -----

  function FindIn(text: string, f: Found): string -> Found {
    (t: string) => if t == text then f else Found([], [], [], [])
  }

  lemma TwoSegments(s: Segment, t: Segment)
    requires !s.TextSegment?
    ensures CollapsedTotal([s, t]) == 1 + CollapsedLength(t)
    ensures ExpandedTotal([s, t]) == ExpandedLength(s) + ExpandedLength(t)
    ensures Expand([s, t], 1) == ExpandedLength(s)
  {
    assert [s, t][1..] == [t] && [t][1..] == [];
    assert CollapsedTotal([t]) == CollapsedLength(t) + CollapsedTotal([]);
    assert ExpandedTotal([t]) == ExpandedLength(t) + ExpandedTotal([]);
  }

  /** A quoted mention is counted without its quotes, so its prompt is longer than the count. */
  lemma QuotedMentionFallsShort()
    ensures exists prompt, find :: Faithful(find) && !Connected(prompt, Segments(Compose(prompt, [], find, 0)))
  {
    hide Expand, CollapsedTotal, ExpandedTotal, Compose, Connected, Faithful;
    var prompt, m := "@\"a b\" ", Match(Mention("a b", false), 0, 6);
    var f, segments := Found([], [], [m], []), [ChipSegment(m.chip), TextSegment(" ")];
    TwoSegments(segments[0], segments[1]);
    OneToken(prompt, f, m, " ");
    ConnectedIff(prompt, segments);
  }

  /** A bare domain is counted with the scheme put in front of it, so the cursor does not come back. */
  lemma BareDomainOvershoots()
    ensures exists prompt, find :: Faithful(find) && !Returns(prompt, Segments(Compose(prompt, [], find, 0)))
  {
    hide Expand, CollapsedTotal, ExpandedTotal, Compose, Returns, Faithful;
    var prompt, m := "a.io ", Match(Link("https://a.io"), 0, 4);
    var f, segments := Found([m], [], [], []), [ChipSegment(m.chip), TextSegment(" ")];
    TwoSegments(segments[0], segments[1]);
    OneToken(prompt, f, m, " ");
    ExpandBeforeEnd(segments);
    ReturnsIff(prompt, segments);
  }

  lemma OneToken(prompt: string, f: Found, m: Match, tail: string)
    requires f == Found([m], [], [], []) || f == Found([], [], [m], [])
    requires Fits(m, |prompt|) && m.start == 0 && prompt[m.end..] == tail != ""
    requires forall k :: 0 <= k < |prompt| ==> prompt[k] != PLACEHOLDER
    ensures Faithful(FindIn(prompt, f))
    ensures Segments(Compose(prompt, [], FindIn(prompt, f), 0)) == [ChipSegment(m.chip), TextSegment(tail)]
  {
    hide *;
    TokenizeOne(prompt, f, m, tail);
    OnlyIn(prompt, f);
    ComposeFrom(prompt, |prompt|, [], FindIn(prompt, f), 0);
    assert prompt[..|prompt|] == prompt;
  }

  lemma OnlyIn(prompt: string, f: Found)
    requires FoundFits(f, |prompt|)
    ensures Faithful(FindIn(prompt, f)) && Cut(prompt, FindIn(prompt, f)) == Tokenize(prompt, f)
  {
    hide Tokenize;
    assert forall length :: FoundFits(Found([], [], [], []), length);
  }

  lemma TokenizeOne(prompt: string, f: Found, m: Match, tail: string)
    requires f == Found([m], [], [], []) || f == Found([], [], [m], [])
    requires Fits(m, |prompt|) && m.start == 0 && prompt[m.end..] == tail != ""
    ensures FoundFits(f, |prompt|)
    ensures Tokenize(prompt, f) == [Piece(ChipSegment(m.chip), prompt[0..m.end]), Piece(TextSegment(tail), tail)]
  {
    CollectOne(f, m);
    hide Collect, Kept;
    assert FoundFits(f, |prompt|);
    assert [m][1..] == [] && Plain(prompt[0..0]) == [];
    assert Chained([m], 0, |prompt|);
    assert Pieces(prompt, [], m.end) == Plain(tail);
  }

  lemma CollectOne(f: Found, m: Match)
    requires f == Found([m], [], [], []) || f == Found([], [], [m], [])
    requires m.start == 0
    ensures Kept(Collect(f), 0) == [m]
  {
    assert [m][1..] == [];
    var none: seq<Match> := [];
    assert Outside(none, f.links) == [] && Outside(none, none + f.links) == [];
    assert Outside([m], none) == [m] + Outside([], none);
    assert none + none == none;
    assert StableSort.Sort([m], StartsNotAfter) == StableSort.Insert(m, StableSort.Sort(none, StartsNotAfter), StartsNotAfter);
    assert Collect(f) == [m];
    assert Kept(none, m.end) == [];
  }
}
