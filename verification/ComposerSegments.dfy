/** Cutting a composer prompt into text, chips and terminal contexts. */
module ComposerSegments {
  import opened Wrappers
  import opened StableSort

  const PLACEHOLDER: char := '\U{FFFC}'

  datatype Chip =
    | Mention(path: string, plugin: bool)
    | Skill(name: string, prefix: string)
    | SlashCommand(command: string)
    | Agent(alias: string, color: string)
    | Link(url: string)

  datatype Segment =
    | TextSegment(text: string)
    | ChipSegment(chip: Chip)
    | ContextSegment(context: Option<string>)

  /** A token some expression matched, and the stretch of text it stands for. */
  datatype Match = Match(chip: Chip, start: nat, end: nat)

  /** What each expression finds in a text: links, resolved agent aliases, mentions, and skills with slash commands. */
  datatype Found = Found(links: seq<Match>, agents: seq<Match>, mentions: seq<Match>, skills: seq<Match>)

  /** A match stands for some of the text, and a link match has an address. */
  predicate Fits(m: Match, length: nat) {
    m.start < m.end <= length && (m.chip.Link? ==> m.chip.url != "")
  }

  predicate AllFit(ms: seq<Match>, length: nat) {
    forall m <- ms :: Fits(m, length)
  }

  predicate FoundFits(f: Found, length: nat) {
    AllFit(f.links, length) && AllFit(f.agents, length) && AllFit(f.mentions, length) && AllFit(f.skills, length)
  }

  predicate Covered(pos: nat, ranges: seq<Match>) {
    exists r <- ranges :: r.start <= pos < r.end
  }

  /** The matches that do not start inside one of the ranges. */
  function Outside(ms: seq<Match>, ranges: seq<Match>): (r: seq<Match>)
    ensures forall m :: m in r <==> m in ms && !Covered(m.start, ranges)
  {
    if ms == [] then []
    else (if Covered(ms[0].start, ranges) then [] else [ms[0]]) + Outside(ms[1..], ranges)
  }

  predicate StartsNotAfter(a: Match, b: Match) {
    a.start <= b.start
  }

  /** collectInlineTokenMatches: links first, then agents, then mentions and skills, sorted by where they start. */
  function Collect(f: Found): seq<Match> {
    var agents := Outside(f.agents, f.links);
    Sort(f.links + agents + Outside(f.mentions, agents + f.links) + Outside(f.skills, agents + f.links), StartsNotAfter)
  }

  /** The matches the cutting loop keeps from a cursor on. */
  function Kept(ms: seq<Match>, cursor: nat): seq<Match> {
    if ms == [] then []
    else if ms[0].start < cursor then Kept(ms[1..], cursor)
    else [ms[0]] + Kept(ms[1..], ms[0].end)
  }

  /** One after the other between cursor and length. */
  predicate Chained(kept: seq<Match>, cursor: nat, length: nat) {
    if kept == [] then cursor <= length
    else cursor <= kept[0].start && Fits(kept[0], length) && Chained(kept[1..], kept[0].end, length)
  }

  /** A segment and the stretch of the prompt it stands for. */
  datatype Piece = Piece(segment: Segment, span: string)

  function Plain(text: string): seq<Piece> {
    if text == "" then [] else [Piece(TextSegment(text), text)]
  }

  function Pieces(text: string, kept: seq<Match>, cursor: nat): seq<Piece>
    requires Chained(kept, cursor, |text|)
  {
    if kept == [] then Plain(text[cursor..])
    else
      var k := kept[0];
      Plain(text[cursor..k.start]) + [Piece(ChipSegment(k.chip), text[k.start..k.end])] + Pieces(text, kept[1..], k.end)
  }

  lemma {:induction false} KeptChained(ms: seq<Match>, cursor: nat, length: nat)
    requires AllFit(ms, length) && cursor <= length
    ensures Chained(Kept(ms, cursor), cursor, length)
  {
    if ms != [] {
      assert Fits(ms[0], length);
      if ms[0].start < cursor {
        KeptChained(ms[1..], cursor, length);
      } else {
        KeptChained(ms[1..], ms[0].end, length);
      }
    }
  }

  lemma CollectFits(f: Found, length: nat)
    requires FoundFits(f, length)
    ensures AllFit(Collect(f), length) && Sorted(Collect(f), StartsNotAfter)
  {
    var agents := Outside(f.agents, f.links);
    SortIsStable(f.links + agents + Outside(f.mentions, agents + f.links) + Outside(f.skills, agents + f.links), StartsNotAfter);
  }

  /** splitTextIntoPromptSegments, with the stretch behind each segment. */
  function Tokenize(text: string, f: Found): seq<Piece>
    requires FoundFits(f, |text|)
  {
    CollectFits(f, |text|);
    KeptChained(Collect(f), 0, |text|);
    Pieces(text, Kept(Collect(f), 0), 0)
  }

  // ----- what the cutting keeps -----

  lemma {:induction false} ChainedApart(kept: seq<Match>, cursor: nat, length: nat)
    requires Chained(kept, cursor, length)
    ensures forall i :: 0 <= i < |kept| ==> cursor <= kept[i].start < kept[i].end <= length
    ensures forall i, j :: 0 <= i < j < |kept| ==> kept[i].end <= kept[j].start
  {
    if kept != [] {
      ChainedApart(kept[1..], kept[0].end, length);
    }
  }

  predicate Within(m: Match, kept: seq<Match>) {
    exists k <- kept :: k.start <= m.start < k.end
  }

  /** A match is dropped only if it starts inside a kept token. */
  lemma {:induction false} DroppedStartsInside(ms: seq<Match>, cursor: nat, before: seq<Match>)
    requires Sorted(ms, StartsNotAfter)
    requires cursor > 0 ==> exists p <- before :: p.end == cursor && forall m <- ms :: p.start <= m.start
    ensures forall m <- ms :: m in Kept(ms, cursor) || Within(m, before + Kept(ms, cursor))
  {
    if ms != [] {
      var first, rest := ms[0], ms[1..];
      assert ms == [first] + rest;
      if first.start < cursor {
        DroppedStartsInside(rest, cursor, before);
        var p :| p in before && p.end == cursor && forall m <- ms :: p.start <= m.start;
        assert p in before + Kept(ms, cursor);
      } else {
        assert forall m <- rest :: first.start <= m.start;
        assert first in before + [first];
        DroppedStartsInside(rest, first.end, before + [first]);
        assert before + [first] + Kept(rest, first.end) == before + Kept(ms, cursor);
      }
    }
  }

  /** The kept tokens do not overlap, and every other match starts inside one of them. */
  lemma KeptIsGreedy(f: Found, length: nat)
    requires FoundFits(f, length)
    ensures var kept := Kept(Collect(f), 0);
            && (forall i, j :: 0 <= i < j < |kept| ==> kept[i].end <= kept[j].start)
            && (forall m <- Collect(f) :: m in kept || Within(m, kept))
  {
    CollectFits(f, length);
    KeptChained(Collect(f), 0, length);
    ChainedApart(Kept(Collect(f), 0), 0, length);
    DroppedStartsInside(Collect(f), 0, []);
    assert [] + Kept(Collect(f), 0) == Kept(Collect(f), 0);
  }

  /** All that the expressions found, whether collected or not. */
  function AllFound(f: Found): seq<Match> {
    f.links + f.agents + f.mentions + f.skills
  }

  lemma CoveredByMore(pos: nat, a: seq<Match>, b: seq<Match>)
    requires Covered(pos, b)
    ensures Covered(pos, a + b)
  {
    var r :| r in b && r.start <= pos < r.end;
    assert r in a + b;
  }

  lemma CollectHas(f: Found)
    ensures var agents := Outside(f.agents, f.links);
            var rest := Outside(f.mentions, agents + f.links) + Outside(f.skills, agents + f.links);
            forall m :: m in Collect(f) <==> m in f.links || m in agents || m in rest
  {
    hide Outside, Sort;
  }

  lemma CollectedOrReserved(f: Found)
    ensures var agents := Outside(f.agents, f.links);
            forall m <- AllFound(f) :: m in Collect(f) || Covered(m.start, agents + f.links)
  {
    hide Collect, Covered;
    CollectHas(f);
    var agents := Outside(f.agents, f.links);
    forall m <- AllFound(f)
      ensures m in Collect(f) || Covered(m.start, agents + f.links)
    {
      if m in f.agents && m !in agents {
        CoveredByMore(m.start, agents, f.links);
      }
    }
  }

  /** Every match found is kept, or starts inside a kept token, or inside a link or an agent mention collected before it. */
  lemma FoundIsKeptOrInside(f: Found, length: nat)
    requires FoundFits(f, length)
    ensures var kept := Kept(Collect(f), 0);
            forall m <- AllFound(f) :: m in kept || Within(m, kept) || Covered(m.start, Outside(f.agents, f.links) + f.links)
  {
    hide Collect, Kept, Outside, Covered;
    KeptIsGreedy(f, length);
    CollectedOrReserved(f);
  }

  function Spell(pieces: seq<Piece>): string {
    if pieces == [] then "" else pieces[0].span + Spell(pieces[1..])
  }

  lemma {:induction false} SpellConcat(a: seq<Piece>, b: seq<Piece>)
    ensures Spell(a + b) == Spell(a) + Spell(b)
  {
    if a == [] {
      assert a + b == b;
    } else {
      assert (a + b)[1..] == a[1..] + b;
      SpellConcat(a[1..], b);
    }
  }

  lemma SpellOne(p: Piece)
    ensures Spell([p]) == p.span
  {
    assert [p][1..] == [] && Spell([]) == "";
  }

  lemma SpellPlain(text: string)
    ensures Spell(Plain(text)) == text
  {
    SpellOne(Piece(TextSegment(text), text));
  }

  lemma {:induction false} PiecesSpell(text: string, kept: seq<Match>, cursor: nat)
    requires Chained(kept, cursor, |text|)
    ensures Spell(Pieces(text, kept, cursor)) == text[cursor..]
  {
    hide Plain, Spell;
    if kept == [] {
      SpellPlain(text[cursor..]);
    } else {
      var k := kept[0];
      var plain, chip, rest := Plain(text[cursor..k.start]), Piece(ChipSegment(k.chip), text[k.start..k.end]), Pieces(text, kept[1..], k.end);
      SpellConcat(plain + [chip], rest);
      SpellConcat(plain, [chip]);
      SpellPlain(text[cursor..k.start]);
      SpellOne(chip);
      PiecesSpell(text, kept[1..], k.end);
    }
  }

  predicate NoTwoTexts(pieces: seq<Piece>) {
    forall i :: 0 < i < |pieces| ==> !pieces[i - 1].segment.TextSegment? || !pieces[i].segment.TextSegment?
  }

  predicate TextsShow(pieces: seq<Piece>) {
    forall p <- pieces ::
      && p.span != ""
      && (p.segment.TextSegment? ==> p.segment.text == p.span)
      && (p.segment.ChipSegment? && p.segment.chip.Link? ==> p.segment.chip.url != "")
  }

  lemma {:induction false} PiecesAreTidy(text: string, kept: seq<Match>, cursor: nat)
    requires Chained(kept, cursor, |text|)
    ensures NoTwoTexts(Pieces(text, kept, cursor)) && TextsShow(Pieces(text, kept, cursor))
    ensures forall p <- Pieces(text, kept, cursor) :: !p.segment.ContextSegment?
  {
    if kept != [] {
      PiecesAreTidy(text, kept[1..], kept[0].end);
    }
  }

  // ----- the whole prompt -----

  function FirstPlaceholder(prompt: string): (i: nat)
    ensures i <= |prompt|
    ensures i < |prompt| ==> prompt[i] == PLACEHOLDER
    ensures forall k :: 0 <= k < i ==> prompt[k] != PLACEHOLDER
  {
    if prompt == "" || prompt[0] == PLACEHOLDER then 0 else 1 + FirstPlaceholder(prompt[1..])
  }

  /** The expressions only match inside the text they are given. */
  ghost predicate Faithful(find: string -> Found) {
    forall text :: FoundFits(find(text), |text|)
  }

  function ContextAt(contexts: seq<string>, i: nat): Option<string> {
    if i < |contexts| then Some(contexts[i]) else None
  }

  function Cut(text: string, find: string -> Found): seq<Piece>
    requires Faithful(find)
  {
    Tokenize(text, find(text))
  }

  function ContextPiece(contexts: seq<string>, i: nat): Piece {
    Piece(ContextSegment(ContextAt(contexts, i)), [PLACEHOLDER])
  }

  /** splitPromptIntoComposerSegments, with the stretch behind each segment. */
  function Compose(prompt: string, contexts: seq<string>, find: string -> Found, next: nat): seq<Piece>
    requires Faithful(find)
    decreases |prompt|, 1
  {
    var i := FirstPlaceholder(prompt);
    Cut(prompt[..i], find) + FromPlaceholder(prompt[i..], contexts, find, next)
  }

  function FromPlaceholder(prompt: string, contexts: seq<string>, find: string -> Found, next: nat): seq<Piece>
    requires Faithful(find)
    decreases |prompt|, 0
  {
    if prompt == "" then [] else [ContextPiece(contexts, next)] + Compose(prompt[1..], contexts, find, next + 1)
  }

  /** The pieces of a prompt spell it back, and no two texts stand side by side. */
  lemma {:induction false} ComposeSpells(prompt: string, contexts: seq<string>, find: string -> Found, next: nat)
    requires Faithful(find)
    ensures var pieces := Compose(prompt, contexts, find, next);
            Spell(pieces) == prompt && NoTwoTexts(pieces) && TextsShow(pieces)
    decreases |prompt|
  {
    hide Cut, Faithful, Spell, NoTwoTexts, TextsShow;
    var i := FirstPlaceholder(prompt);
    var cut, tail := Cut(prompt[..i], find), FromPlaceholder(prompt[i..], contexts, find, next);
    CutSpells(prompt[..i], find);
    SpellConcat(cut, tail);
    if i < |prompt| {
      var rest := Compose(prompt[i + 1..], contexts, find, next + 1);
      ComposeSpells(prompt[i + 1..], contexts, find, next + 1);
      assert prompt[i..][1..] == prompt[i + 1..];
      SpellConcat([ContextPiece(contexts, next)], rest);
      SpellOne(ContextPiece(contexts, next));
      JoinTidy(cut, ContextPiece(contexts, next), rest);
      assert prompt == prompt[..i] + ([PLACEHOLDER] + prompt[i + 1..]);
    } else {
      SpellNothing();
      assert prompt[..i] == prompt && cut + [] == cut;
    }
  }

  lemma JoinTidy(a: seq<Piece>, context: Piece, b: seq<Piece>)
    requires NoTwoTexts(a) && TextsShow(a) && NoTwoTexts(b) && TextsShow(b)
    requires context.segment.ContextSegment? && context.span != ""
    ensures NoTwoTexts(a + ([context] + b)) && TextsShow(a + ([context] + b))
  {
  }

  lemma SpellNothing()
    ensures Spell([]) == ""
  {
  }

  lemma CutSpells(text: string, find: string -> Found)
    requires Faithful(find)
    ensures var pieces := Cut(text, find);
            && Spell(pieces) == text && NoTwoTexts(pieces) && TextsShow(pieces)
            && Contexts(pieces) == []
  {
    hide Tokenize;
    TokenizeSpells(text, find(text));
    NoContexts(Cut(text, find));
  }

  lemma TokenizeSpells(text: string, f: Found)
    requires FoundFits(f, |text|)
    ensures var pieces := Tokenize(text, f);
            && Spell(pieces) == text && NoTwoTexts(pieces) && TextsShow(pieces)
            && forall p <- pieces :: !p.segment.ContextSegment?
  {
    CollectFits(f, |text|);
    KeptChained(Collect(f), 0, |text|);
    PiecesSpell(text, Kept(Collect(f), 0), 0);
    PiecesAreTidy(text, Kept(Collect(f), 0), 0);
  }

  function Contexts(pieces: seq<Piece>): seq<Option<string>> {
    if pieces == [] then []
    else (if pieces[0].segment.ContextSegment? then [pieces[0].segment.context] else []) + Contexts(pieces[1..])
  }

  function Placeholders(prompt: string): nat {
    if prompt == "" then 0 else (if prompt[0] == PLACEHOLDER then 1 else 0) + Placeholders(prompt[1..])
  }

  lemma {:induction false} ContextsConcat(a: seq<Piece>, b: seq<Piece>)
    ensures Contexts(a + b) == Contexts(a) + Contexts(b)
  {
    if a == [] {
      assert a + b == b;
    } else {
      var u := a + b;
      assert u[1..] == a[1..] + b && u[0] == a[0];
      ContextsConcat(a[1..], b);
      var head := if a[0].segment.ContextSegment? then [a[0].segment.context] else [];
      assert Contexts(u) == head + Contexts(u[1..]) && Contexts(a) == head + Contexts(a[1..]);
    }
  }

  lemma {:induction false} NoContexts(pieces: seq<Piece>)
    requires forall p <- pieces :: !p.segment.ContextSegment?
    ensures Contexts(pieces) == []
  {
    if pieces != [] {
      NoContexts(pieces[1..]);
    }
  }

  lemma {:induction false} PlaceholdersFrom(prompt: string)
    ensures var i := FirstPlaceholder(prompt);
            Placeholders(prompt) == if i == |prompt| then 0 else 1 + Placeholders(prompt[i + 1..])
  {
    if prompt != "" && prompt[0] != PLACEHOLDER {
      PlaceholdersFrom(prompt[1..]);
      var i := FirstPlaceholder(prompt[1..]);
      if i < |prompt[1..]| {
        assert prompt[1..][i + 1..] == prompt[i + 2..];
      }
    }
  }

  /** The i-th placeholder of the prompt receives the i-th context, or none when they run out. */
  lemma {:induction false} PlaceholderGetsContext(prompt: string, contexts: seq<string>, find: string -> Found, next: nat)
    requires Faithful(find)
    ensures var got := Contexts(Compose(prompt, contexts, find, next));
            && |got| == Placeholders(prompt)
            && forall i :: 0 <= i < |got| ==> got[i] == if next + i < |contexts| then Some(contexts[next + i]) else None
    decreases |prompt|
  {
    hide Cut, Faithful, Contexts, Placeholders;
    var i := FirstPlaceholder(prompt);
    CutSpells(prompt[..i], find);
    PlaceholdersFrom(prompt);
    ContextsConcat(Cut(prompt[..i], find), FromPlaceholder(prompt[i..], contexts, find, next));
    if i < |prompt| {
      var rest := Compose(prompt[i + 1..], contexts, find, next + 1);
      PlaceholderGetsContext(prompt[i + 1..], contexts, find, next + 1);
      assert prompt[i..][1..] == prompt[i + 1..];
      ContextsConcat([ContextPiece(contexts, next)], rest);
      OneContext(contexts, next);
    } else {
      NoContexts([]);
    }
  }

  lemma OneContext(contexts: seq<string>, next: nat)
    ensures Contexts([ContextPiece(contexts, next)]) == [ContextAt(contexts, next)]
  {
    assert [ContextPiece(contexts, next)][1..] == [];
  }

  // ----- the loops -----

  function Segments(pieces: seq<Piece>): (r: seq<Segment>)
    ensures |r| == |pieces| && forall i :: 0 <= i < |pieces| ==> r[i] == pieces[i].segment
  {
    seq(|pieces|, i requires 0 <= i < |pieces| => pieces[i].segment)
  }

  lemma SegmentsConcat(a: seq<Piece>, b: seq<Piece>)
    ensures Segments(a + b) == Segments(a) + Segments(b)
  {
  }

  /** pushTextSegment: a text extends the text before it. */
  function PushText(segments: seq<Segment>, text: string): seq<Segment> {
    if text == "" then segments
    else if segments != [] && segments[|segments| - 1].TextSegment? then
      segments[..|segments| - 1] + [TextSegment(segments[|segments| - 1].text + text)]
    else segments + [TextSegment(text)]
  }

  lemma SegmentsOfPlain(segments: seq<Segment>, text: string)
    requires segments != [] ==> !segments[|segments| - 1].TextSegment?
    ensures PushText(segments, text) == segments + Segments(Plain(text))
  {
  }

  /** What the next match adds to the segments still to come. */
  lemma NextMatch(text: string, ms: seq<Match>, cursor: nat)
    requires ms != [] && Chained(Kept(ms, cursor), cursor, |text|)
    ensures ms[0].start < cursor ==> Kept(ms, cursor) == Kept(ms[1..], cursor)
    ensures ms[0].start >= cursor ==>
              && ms[0].start < ms[0].end <= |text|
              && Chained(Kept(ms[1..], ms[0].end), ms[0].end, |text|)
              && Segments(Pieces(text, Kept(ms, cursor), cursor))
                 == Segments(Plain(text[cursor..ms[0].start])) + [ChipSegment(ms[0].chip)]
                  + Segments(Pieces(text, Kept(ms[1..], ms[0].end), ms[0].end))
  {
    hide Segments, Plain;
    var m := ms[0];
    if m.start >= cursor {
      var plain, chip := Plain(text[cursor..m.start]), Piece(ChipSegment(m.chip), text[m.start..m.end]);
      SegmentsConcat(plain + [chip], Pieces(text, Kept(ms[1..], m.end), m.end));
      SegmentsConcat(plain, [chip]);
      SegmentsOfOne(chip);
    }
  }

  /** The segments still to come from a cursor on. */
  function Todo(text: string, ms: seq<Match>, cursor: nat): seq<Segment>
    requires Chained(Kept(ms, cursor), cursor, |text|)
  {
    Segments(Pieces(text, Kept(ms, cursor), cursor))
  }

  lemma Advance(segments: seq<Segment>, text: string, ms: seq<Match>, cursor: nat)
    requires segments != [] ==> !segments[|segments| - 1].TextSegment?
    requires ms != [] && Chained(Kept(ms, cursor), cursor, |text|) && ms[0].start >= cursor
    ensures ms[0].start < ms[0].end <= |text| && Chained(Kept(ms[1..], ms[0].end), ms[0].end, |text|)
    ensures segments + Todo(text, ms, cursor)
         == PushText(segments, text[cursor..ms[0].start]) + [ChipSegment(ms[0].chip)] + Todo(text, ms[1..], ms[0].end)
  {
    hide Kept, Chained, Pieces, Plain, Segments;
    NextMatch(text, ms, cursor);
    SegmentsOfPlain(segments, text[cursor..ms[0].start]);
  }

  method SplitText(text: string, f: Found) returns (segments: seq<Segment>)
    requires FoundFits(f, |text|)
    ensures segments == Segments(Tokenize(text, f))
  {
    hide *;
    segments := [];
    var matches := Collect(f);
    AllTodo(text, f);
    assert matches[0..] == matches;
    var cursor: nat := 0;
    for i := 0 to |matches|
      invariant cursor <= |text|
      invariant segments != [] ==> !segments[|segments| - 1].TextSegment?
      invariant Chained(Kept(matches[i..], cursor), cursor, |text|)
      invariant segments + Todo(text, matches[i..], cursor) == Segments(Tokenize(text, f))
    {
      var m := matches[i];
      assert matches[i..][1..] == matches[i + 1..];
      if m.start < cursor {
        SkipMatch(text, matches[i..], cursor);
        continue;
      }
      Advance(segments, text, matches[i..], cursor);
      if m.start > cursor {
        segments := PushText(segments, text[cursor..m.start]);
      } else {
        PushNothing(segments, text[cursor..m.start]);
      }
      segments := segments + [ChipSegment(m.chip)];
      cursor := m.end;
    }
    assert matches[|matches|..] == [];
    TodoText(segments, text, cursor);
    if cursor < |text| {
      segments := PushText(segments, text[cursor..]);
    } else {
      PushNothing(segments, text[cursor..]);
    }
  }

  lemma AllTodo(text: string, f: Found)
    requires FoundFits(f, |text|)
    ensures Chained(Kept(Collect(f), 0), 0, |text|) && [] + Todo(text, Collect(f), 0) == Segments(Tokenize(text, f))
  {
    hide Collect, Kept, Pieces, FoundFits, Segments;
    CollectFits(f, |text|);
    KeptChained(Collect(f), 0, |text|);
  }

  lemma SkipMatch(text: string, ms: seq<Match>, cursor: nat)
    requires ms != [] && Chained(Kept(ms, cursor), cursor, |text|) && ms[0].start < cursor
    ensures Chained(Kept(ms[1..], cursor), cursor, |text|) && Todo(text, ms[1..], cursor) == Todo(text, ms, cursor)
  {
  }

  lemma PushNothing(segments: seq<Segment>, text: string)
    requires text == ""
    ensures PushText(segments, text) == segments
  {
  }

  lemma TodoText(segments: seq<Segment>, text: string, cursor: nat)
    requires segments != [] ==> !segments[|segments| - 1].TextSegment?
    requires cursor <= |text|
    ensures Chained(Kept([], cursor), cursor, |text|)
    ensures segments + Todo(text, [], cursor) == PushText(segments, text[cursor..])
  {
    SegmentsOfPlain(segments, text[cursor..]);
  }

  lemma SegmentsOfOne(p: Piece)
    ensures Segments([p]) == [p.segment]
  {
  }

  /** Where the next placeholder is at i, or there is none left and i is the length. */
  lemma ComposeFrom(prompt: string, i: nat, contexts: seq<string>, find: string -> Found, next: nat)
    requires Faithful(find) && i <= |prompt| && forall k :: 0 <= k < i ==> prompt[k] != PLACEHOLDER
    requires i < |prompt| ==> prompt[i] == PLACEHOLDER
    ensures Segments(Compose(prompt, contexts, find, next)) == Segments(Cut(prompt[..i], find))
            + if i == |prompt| then [] else [ContextSegment(ContextAt(contexts, next))] + Segments(Compose(prompt[i + 1..], contexts, find, next + 1))
  {
    hide Cut, Faithful, Segments;
    assert i == FirstPlaceholder(prompt);
    SegmentsConcat(Cut(prompt[..i], find), FromPlaceholder(prompt[i..], contexts, find, next));
    if i < |prompt| {
      assert prompt[i..][1..] == prompt[i + 1..];
      SegmentsConcat([ContextPiece(contexts, next)], Compose(prompt[i + 1..], contexts, find, next + 1));
      SegmentsOfOne(ContextPiece(contexts, next));
    } else {
      assert Segments([]) == [];
    }
  }

  method SplitChunk(text: string, find: string -> Found) returns (segments: seq<Segment>)
    requires Faithful(find)
    ensures segments == Segments(Cut(text, find))
  {
    segments := SplitText(text, find(text));
  }

  method SplitPrompt(prompt: string, contexts: seq<string>, find: string -> Found) returns (segments: seq<Segment>)
    requires Faithful(find)
    ensures segments == Segments(Compose(prompt, contexts, find, 0))
  {
    hide Cut, Compose, Segments, Faithful;
    segments := [];
    var textCursor, contextIndex := 0, 0;
    assert prompt[0..] == prompt;
    for index := 0 to |prompt|
      invariant textCursor <= index
      invariant forall k :: textCursor <= k < index ==> prompt[k] != PLACEHOLDER
      invariant segments + Segments(Compose(prompt[textCursor..], contexts, find, contextIndex)) == Segments(Compose(prompt, contexts, find, 0))
    {
      if prompt[index] != PLACEHOLDER {
        continue;
      }
      var chunk, rest := prompt[textCursor..index], prompt[textCursor..];
      ComposeFrom(rest, index - textCursor, contexts, find, contextIndex);
      assert rest[..index - textCursor] == chunk && rest[index - textCursor + 1..] == prompt[index + 1..];
      var part := SplitChunk(chunk, find);
      segments := segments + part + [ContextSegment(ContextAt(contexts, contextIndex))];
      contextIndex := contextIndex + 1;
      textCursor := index + 1;
    }
    var last := prompt[textCursor..];
    ComposeFrom(last, |last|, contexts, find, contextIndex);
    assert last[..|last|] == last;
    var part := SplitChunk(last, find);
    segments := segments + part;
  }
}
