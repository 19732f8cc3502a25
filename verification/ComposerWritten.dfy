/** How chips are written in a prompt, and why the cursor maps are exact on prompts that write them so. */
module ComposerWritten {
  import opened Wrappers
  import opened ComposerSegments
  import opened ComposerCursor

  /** The text a chip stands for when it is written plainly. */
  function Written(chip: Chip): string {
    match chip
    case Mention(path, _) => "@" + path
    case Skill(name, prefix) => prefix + name
    case SlashCommand(command) => "/" + command
    case Agent(alias, _) => "@" + alias
    case Link(url) => url
  }

  /** The match stands for exactly its chip's text; a skill's prefix is one sign. */
  predicate SpeltAt(text: string, m: Match) {
    && m.start <= m.end <= |text| && text[m.start..m.end] == Written(m.chip)
    && (m.chip.Skill? ==> |m.chip.prefix| == 1)
  }

  predicate AllSpelt(text: string, ms: seq<Match>) {
    forall m <- ms :: SpeltAt(text, m)
  }

  /** Whatever the expressions find is written plainly: no quoted path, no address without its scheme. */
  ghost predicate Plainly(find: string -> Found) {
    forall text :: AllSpelt(text, AllFound(find(text)))
  }

  lemma PlainIsHonest(text: string)
    ensures Honest(Plain(text))
  {
  }

  lemma ChipIsHonest(text: string, m: Match)
    requires SpeltAt(text, m)
    ensures ExpandedLength(ChipSegment(m.chip)) == m.end - m.start
  {
    assert |text[m.start..m.end]| == |Written(m.chip)|;
  }

  lemma {:induction false} PiecesHonest(text: string, kept: seq<Match>, cursor: nat)
    requires Chained(kept, cursor, |text|) && AllSpelt(text, kept)
    ensures Honest(Pieces(text, kept, cursor))
  {
    if kept == [] {
      PlainIsHonest(text[cursor..]);
    } else {
      var k := kept[0];
      assert k in kept;
      ChipIsHonest(text, k);
      PlainIsHonest(text[cursor..k.start]);
      PiecesHonest(text, kept[1..], k.end);
    }
  }

  lemma {:induction false} KeptAreFound(ms: seq<Match>, cursor: nat)
    ensures forall m <- Kept(ms, cursor) :: m in ms
  {
    if ms != [] {
      KeptAreFound(ms[1..], cursor);
      KeptAreFound(ms[1..], ms[0].end);
    }
  }

  lemma CutHonest(text: string, find: string -> Found)
    requires Faithful(find) && AllSpelt(text, AllFound(find(text)))
    ensures Honest(Cut(text, find))
  {
    var f := find(text);
    CollectFits(f, |text|);
    KeptChained(Collect(f), 0, |text|);
    KeptAreFound(Collect(f), 0);
    CollectHas(f);
    hide Collect, Kept, SpeltAt, Pieces, Chained;
    assert forall m <- Kept(Collect(f), 0) :: m in AllFound(f);
    PiecesHonest(text, Kept(Collect(f), 0), 0);
  }

  lemma HonestJoin(a: seq<Piece>, b: seq<Piece>)
    requires Honest(a) && Honest(b)
    ensures Honest(a + b)
  {
  }

  /** On a prompt that writes its chips plainly every chip is counted as long as its text. */
  lemma {:induction false} PlainlyIsHonest(prompt: string, contexts: seq<string>, find: string -> Found, next: nat)
    requires Faithful(find) && Plainly(find)
    ensures Honest(Compose(prompt, contexts, find, next))
    decreases |prompt|
  {
    hide Cut, Faithful, Honest;
    var i := FirstPlaceholder(prompt);
    CutHonest(prompt[..i], find);
    if i < |prompt| {
      PlainlyIsHonest(prompt[i + 1..], contexts, find, next + 1);
      assert prompt[i..][1..] == prompt[i + 1..];
      ContextHonest(contexts, next);
      HonestJoin([ContextPiece(contexts, next)], Compose(prompt[i + 1..], contexts, find, next + 1));
      HonestJoin(Cut(prompt[..i], find), FromPlaceholder(prompt[i..], contexts, find, next));
    } else {
      assert Cut(prompt[..i], find) + [] == Cut(prompt[..i], find);
    }
  }

  lemma ContextHonest(contexts: seq<string>, next: nat)
    ensures Honest([ContextPiece(contexts, next)])
  {
  }

  /**
   * So there the cursor maps are exact: expanding a cursor gives its place in the text, collapsing that
   * gives the cursor back, and from inside a chip one comes out behind it.
   */
  lemma PlainPrompt(prompt: string, find: string -> Found)
    requires Faithful(find) && Plainly(find)
    ensures var pieces := Compose(prompt, [], find, 0);
            var segments := Segments(pieces);
            && (forall c: nat | c <= CollapsedTotal(segments) :: Expand(segments, c) == Position(pieces, c))
            && Connected(prompt, segments) && Returns(prompt, segments)
            && (forall e: nat | e <= |prompt| :: e <= Expand(segments, Collapse(segments, e)) <= |prompt|)
  {
    hide Compose, Faithful, Plainly, Connected, Returns, Expand, Position, Collapse, Honest;
    PlainlyIsHonest(prompt, [], find, 0);
    HonestPrompt(prompt, find);
  }

  // ----- the chips are the kept matches -----

  function Chips(pieces: seq<Piece>): seq<(Chip, string)> {
    if pieces == [] then []
    else (if pieces[0].segment.ChipSegment? then [(pieces[0].segment.chip, pieces[0].span)] else []) + Chips(pieces[1..])
  }

  function Stretches(text: string, kept: seq<Match>): seq<(Chip, string)>
    requires forall m <- kept :: m.start <= m.end <= |text|
  {
    seq(|kept|, i requires 0 <= i < |kept| => assert kept[i] in kept; (kept[i].chip, text[kept[i].start..kept[i].end]))
  }

  lemma ChipsUncons(pieces: seq<Piece>)
    requires pieces != []
    ensures Chips(pieces) ==
            (if pieces[0].segment.ChipSegment? then [(pieces[0].segment.chip, pieces[0].span)] else []) + Chips(pieces[1..])
  {
  }

  lemma {:induction false} ChipsConcat(a: seq<Piece>, b: seq<Piece>)
    ensures Chips(a + b) == Chips(a) + Chips(b)
  {
    if a == [] {
      assert a + b == b;
    } else {
      hide Chips;
      ChipsUncons(a);
      ChipsUncons(a + b);
      assert (a + b)[1..] == a[1..] + b;
      ChipsConcat(a[1..], b);
    }
  }

  lemma ChipBetween(plain: seq<Piece>, chip: Piece, rest: seq<Piece>)
    requires chip.segment.ChipSegment? && Chips(plain) == []
    ensures Chips(plain + [chip] + rest) == [(chip.segment.chip, chip.span)] + Chips(rest)
  {
    assert [chip][1..] == [] && Chips([chip]) == [(chip.segment.chip, chip.span)] + Chips([]);
    ChipsConcat(plain, [chip]);
    ChipsConcat(plain + [chip], rest);
  }

  lemma {:induction false} ChipsAreKept(text: string, kept: seq<Match>, cursor: nat)
    requires Chained(kept, cursor, |text|)
    ensures forall m <- kept :: m.start <= m.end <= |text|
    ensures Chips(Pieces(text, kept, cursor)) == Stretches(text, kept)
  {
    if kept == [] {
      assert Chips(Plain(text[cursor..])) == [];
    } else {
      var k := kept[0];
      var plain, chip, rest := Plain(text[cursor..k.start]), Piece(ChipSegment(k.chip), text[k.start..k.end]), Pieces(text, kept[1..], k.end);
      ChipsAreKept(text, kept[1..], k.end);
      ChipBetween(plain, chip, rest);
      assert Chips(plain) == [];
      assert kept == [k] + kept[1..];
      assert Stretches(text, kept) == [(k.chip, chip.span)] + Stretches(text, kept[1..]);
    }
  }

  /** A text's chips are its kept matches, in order, each over its own stretch. */
  lemma TokenChips(text: string, f: Found)
    requires FoundFits(f, |text|)
    ensures var kept := Kept(Collect(f), 0);
            && (forall m <- kept :: m.start <= m.end <= |text|)
            && Chips(Tokenize(text, f)) == Stretches(text, kept)
  {
    CollectFits(f, |text|);
    KeptChained(Collect(f), 0, |text|);
    ChipsAreKept(text, Kept(Collect(f), 0), 0);
  }

  /** The place is within a link. */
  predicate InLink(pos: nat, f: Found) {
    exists l <- f.links :: l.start <= pos < l.end
  }

  /** The place is within an agent mention that does not itself start within a link. */
  predicate InAgent(pos: nat, f: Found) {
    exists a <- f.agents :: !InLink(a.start, f) && a.start <= pos < a.end
  }

  lemma CoveredIs(pos: nat, f: Found)
    ensures Covered(pos, f.links) <==> InLink(pos, f)
    ensures Covered(pos, Outside(f.agents, f.links)) <==> InAgent(pos, f)
  {
    forall m <- f.agents
      ensures Covered(m.start, f.links) <==> InLink(m.start, f)
    {
    }
  }

  /** No kept agent mention starts within a link, and no other kept mention, skill or command within a link or such an agent mention. */
  lemma KeptAreFree(f: Found)
    ensures forall m <- Kept(Collect(f), 0) ::
              || m in f.links
              || (m in f.agents && !InLink(m.start, f))
              || (m in f.mentions + f.skills && !InLink(m.start, f) && !InAgent(m.start, f))
  {
    forall pos: nat
      ensures Covered(pos, f.links) <==> InLink(pos, f)
      ensures Covered(pos, Outside(f.agents, f.links)) <==> InAgent(pos, f)
    {
      CoveredIs(pos, f);
    }
    hide InLink, InAgent;
    hide Collect, Covered;
    KeptAreFound(Collect(f), 0);
    CollectHas(f);
    hide Kept, Outside;
    var agents := Outside(f.agents, f.links);
    forall m <- Kept(Collect(f), 0)
      ensures || m in f.links || (m in f.agents && !InLink(m.start, f))
              || (m in f.mentions + f.skills && !InLink(m.start, f) && !InAgent(m.start, f))
    {
      CoveredByEither(m.start, agents, f.links);
    }
  }

  lemma CoveredByEither(pos: nat, a: seq<Match>, b: seq<Match>)
    ensures Covered(pos, a + b) <==> Covered(pos, a) || Covered(pos, b)
  {
    if Covered(pos, a) {
      var r :| r in a && r.start <= pos < r.end;
      assert r in a + b;
    }
    if Covered(pos, b) {
      CoveredByMore(pos, a, b);
    }
  }
}
