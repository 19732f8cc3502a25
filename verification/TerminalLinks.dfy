/** Links in a terminal whose long lines wrap over several buffer rows. */
module TerminalLinks {
  import opened Wrappers
  import opened Strings
  import opened StableSort

  // ----- joining wrapped rows -----

  /** A buffer row: whether it continues the row above, its full text, and its text without trailing blanks. */
  datatype Row = Row(wrapped: bool, full: string, trimmed: string)

  datatype Segment = Segment(row: nat, text: string, start: nat, end: nat)

  datatype WrappedLine = WrappedLine(text: string, segments: seq<Segment>)

  function GetRow(rows: seq<Row>, index: int): Option<Row> {
    if 0 <= index < |rows| then Some(rows[index]) else None
  }

  function FirstRow(rows: seq<Row>, i: nat): (r: nat)
    requires i < |rows|
    ensures r <= i
  {
    if i > 0 && rows[i].wrapped then FirstRow(rows, i - 1) else i
  }

  predicate Continues(rows: seq<Row>, i: nat) {
    i + 1 < |rows| && rows[i + 1].wrapped
  }

  function LastRow(rows: seq<Row>, i: nat): (r: nat)
    requires i < |rows|
    ensures i <= r < |rows|
    decreases |rows| - i
  {
    if Continues(rows, i) then LastRow(rows, i + 1) else i
  }

  /** What a row shows: its trailing blanks too when the next row continues it. */
  function RowText(rows: seq<Row>, i: nat): string
    requires i < |rows|
  {
    if Continues(rows, i) then rows[i].full else rows[i].trimmed
  }

  function SegmentAt(rows: seq<Row>, i: nat, start: nat): Segment
    requires i < |rows|
  {
    Segment(i + 1, RowText(rows, i), start, start + |RowText(rows, i)|)
  }

  /** The segments of the rows from i to the end of its line, the first one starting at this index. */
  function SegmentsFrom(rows: seq<Row>, i: nat, start: nat): seq<Segment>
    requires i < |rows|
    decreases |rows| - i
  {
    var here := SegmentAt(rows, i, start);
    if Continues(rows, i) then [here] + SegmentsFrom(rows, i + 1, here.end) else [here]
  }

  function JoinTexts(segments: seq<Segment>): string {
    if segments == [] then "" else segments[0].text + JoinTexts(segments[1..])
  }

  /** The line a row belongs to. */
  function LineOf(rows: seq<Row>, i: nat): WrappedLine
    requires i < |rows|
  {
    var segments := SegmentsFrom(rows, FirstRow(rows, i), 0);
    WrappedLine(JoinTexts(segments), segments)
  }

  lemma {:induction false} JoinTextsConcat(a: seq<Segment>, b: seq<Segment>)
    ensures JoinTexts(a + b) == JoinTexts(a) + JoinTexts(b)
  {
    if a == [] {
      assert a + b == b;
    } else {
      assert (a + b)[1..] == a[1..] + b;
      JoinTextsConcat(a[1..], b);
    }
  }

  lemma SegmentsStep(rows: seq<Row>, i: nat, start: nat, continues: bool, text: string)
    requires i < |rows| && continues == (i + 1 < |rows| && rows[i + 1].wrapped) && text == if continues then rows[i].full else rows[i].trimmed
    ensures var here := Segment(i + 1, text, start, start + |text|);
            SegmentsFrom(rows, i, start) == [here] + if continues then SegmentsFrom(rows, i + 1, here.end) else []
  {
  }

  predicate Makes(done: seq<Segment>, rest: seq<Segment>, all: seq<Segment>) {
    done + rest == all
  }

  /** The next segment moves from what is left to what is done. */
  lemma MakesNext(done: seq<Segment>, here: Segment, rest: seq<Segment>, all: seq<Segment>)
    requires Makes(done, [here] + rest, all)
    ensures Makes(done + [here], rest, all) && (rest == [] ==> done + [here] == all)
  {
    assert done + ([here] + rest) == (done + [here]) + rest;
  }

  lemma MakesAll(all: seq<Segment>)
    ensures Makes([], all, all)
  {
  }

  lemma LineOfIs(rows: seq<Row>, i: nat)
    requires i < |rows|
    ensures LineOf(rows, i) == WrappedLine(JoinTexts(SegmentsFrom(rows, FirstRow(rows, i), 0)), SegmentsFrom(rows, FirstRow(rows, i), 0))
  {
    hide SegmentsFrom, JoinTexts;
  }

  /** The first loop: from a row upwards to the first row of its line. */
  method FindStart(rowNumber: nat, rows: seq<Row>) returns (startNumber: nat)
    requires 1 <= rowNumber <= |rows|
    ensures 1 <= startNumber <= rowNumber && startNumber - 1 == FirstRow(rows, rowNumber - 1)
  {
    var startRow;
    startNumber, startRow := rowNumber, rows[rowNumber - 1];
    while startNumber > 1 && startRow.wrapped
      invariant 1 <= startNumber <= rowNumber && startRow == rows[startNumber - 1]
      invariant FirstRow(rows, startNumber - 1) == FirstRow(rows, rowNumber - 1)
    {
      startNumber := startNumber - 1;
      startRow := rows[startNumber - 1];
    }
  }

  /** The second loop: from the first row of a line down to its last. */
  method CollectFrom(startNumber: nat, rows: seq<Row>) returns (segments: seq<Segment>)
    requires 1 <= startNumber <= |rows|
    ensures segments == SegmentsFrom(rows, startNumber - 1, 0)
  {
    hide SegmentsFrom, Makes;
    segments := [];
    var nextStart: nat := 0;
    var current := startNumber;
    ghost var all := SegmentsFrom(rows, startNumber - 1, 0);
    MakesAll(all);
    while true
      invariant startNumber <= current <= |rows|
      invariant Makes(segments, SegmentsFrom(rows, current - 1, nextStart), all)
      decreases |rows| - current
    {
      var row := rows[current - 1];
      var next := GetRow(rows, current);
      var continues := next.Some? && next.value.wrapped;
      var text := if continues then row.full else row.trimmed;
      var here := Segment(current, text, nextStart, nextStart + |text|);
      SegmentsStep(rows, current - 1, nextStart, continues, text);
      MakesNext(segments, here, if continues then SegmentsFrom(rows, current, here.end) else [], all);
      segments := segments + [here];
      nextStart := here.end;
      if !continues {
        return;
      }
      current := current + 1;
    }
  }

  /** collectWrappedTerminalLinkLine; rows are numbered from 1. */
  method CollectWrappedLine(rowNumber: int, rows: seq<Row>) returns (line: Option<WrappedLine>)
    ensures 1 <= rowNumber <= |rows| ==> line == Some(LineOf(rows, rowNumber - 1))
    ensures !(1 <= rowNumber <= |rows|) ==> line == None
  {
    var anchor := GetRow(rows, rowNumber - 1);
    if anchor.None? {
      return None;
    }
    var startNumber := FindStart(rowNumber, rows);
    var segments := CollectFrom(startNumber, rows);
    LineOfIs(rows, rowNumber - 1);
    return Some(WrappedLine(JoinTexts(segments), segments));
  }

  // ----- every row of a line gives the line -----

  lemma {:induction false} SameFirst(rows: seq<Row>, i: nat, j: nat)
    requires j < |rows| && FirstRow(rows, j) <= i <= j
    ensures FirstRow(rows, i) == FirstRow(rows, j) && LastRow(rows, i) == LastRow(rows, j)
    decreases j
  {
    if i < j {
      SameFirst(rows, i, j - 1);
    }
  }

  lemma {:induction false} LastRowReaches(rows: seq<Row>, i: nat, j: nat)
    requires i < |rows| && i <= j <= LastRow(rows, i)
    ensures FirstRow(rows, j) <= i && LastRow(rows, j) == LastRow(rows, i)
    decreases j - i
  {
    if i < j {
      LastRowReaches(rows, i + 1, j);
      FirstRowSteps(rows, i, j);
    }
  }

  lemma {:induction false} FirstRowSteps(rows: seq<Row>, i: nat, j: nat)
    requires i < j < |rows| && FirstRow(rows, j) <= i + 1 && rows[i + 1].wrapped
    ensures FirstRow(rows, j) <= i
    decreases j
  {
    if i + 1 < j {
      FirstRowSteps(rows, i, j - 1);
    }
  }

  /** Any row of a wrapped line yields the same line, and that row is one of its segments. */
  lemma RowsAgree(rows: seq<Row>, i: nat, j: nat)
    requires i < |rows| && FirstRow(rows, i) <= j <= LastRow(rows, i)
    ensures LineOf(rows, j) == LineOf(rows, i)
    ensures exists s <- LineOf(rows, i).segments :: s.row == j + 1
  {
    if j <= i {
      SameFirst(rows, j, i);
    } else {
      LastRowReaches(rows, i, j);
      SameFirst(rows, i, j);
    }
    FirstReachesLast(rows, i);
    var first := FirstRow(rows, i);
    HasRow(rows, first, j, 0);
    var segments := LineOf(rows, i).segments;
    assert segments[j - first] in segments;
  }

  lemma FirstReachesLast(rows: seq<Row>, i: nat)
    requires i < |rows|
    ensures LastRow(rows, FirstRow(rows, i)) == LastRow(rows, i)
  {
    SameFirst(rows, FirstRow(rows, i), i);
  }

  lemma {:induction false} HasRow(rows: seq<Row>, i: nat, j: nat, start: nat)
    requires i < |rows| && i <= j <= LastRow(rows, i)
    ensures j - i < |SegmentsFrom(rows, i, start)| && SegmentsFrom(rows, i, start)[j - i].row == j + 1
    decreases j - i
  {
    if i < j {
      HasRow(rows, i + 1, j, SegmentAt(rows, i, start).end);
    }
  }

  /** The line of a row is the whole stretch of rows that continue one another around it. */
  lemma LineIsBlock(rows: seq<Row>, i: nat)
    requires i < |rows|
    ensures var first, last := FirstRow(rows, i), LastRow(rows, i);
            && first <= i <= last < |rows|
            && (forall k :: first < k <= last ==> rows[k].wrapped)
            && (first > 0 ==> !rows[first].wrapped) && (last + 1 < |rows| ==> !rows[last + 1].wrapped)
  {
    FirstIs(rows, i);
    LastIs(rows, i);
  }

  lemma {:induction false} FirstIs(rows: seq<Row>, i: nat)
    requires i < |rows|
    ensures var first := FirstRow(rows, i); (forall k :: first < k <= i ==> rows[k].wrapped) && (first > 0 ==> !rows[first].wrapped)
  {
    if i > 0 && rows[i].wrapped {
      FirstIs(rows, i - 1);
    }
  }

  lemma {:induction false} LastIs(rows: seq<Row>, i: nat)
    requires i < |rows|
    ensures var last := LastRow(rows, i);
            (forall k :: i < k <= last ==> rows[k].wrapped) && (last + 1 < |rows| ==> !rows[last + 1].wrapped)
    decreases |rows| - i
  {
    if Continues(rows, i) {
      LastIs(rows, i + 1);
    }
  }

  /** What rows i to j show when only the last of them ends the line. */
  function Shown(rows: seq<Row>, i: nat, j: nat): string
    requires i <= j < |rows|
    decreases j - i
  {
    if i == j then rows[j].trimmed else rows[i].full + Shown(rows, i + 1, j)
  }

  /** The joined line is every row's full text up to the last row, which loses its trailing blanks. */
  lemma LineShowsRows(rows: seq<Row>, i: nat)
    requires i < |rows|
    ensures FirstRow(rows, i) <= LastRow(rows, i)
    ensures LineOf(rows, i).text == Shown(rows, FirstRow(rows, i), LastRow(rows, i))
  {
    FirstReachesLast(rows, i);
    SegmentsShow(rows, FirstRow(rows, i), 0);
  }

  lemma {:induction false} SegmentsShow(rows: seq<Row>, i: nat, start: nat)
    requires i < |rows|
    ensures JoinTexts(SegmentsFrom(rows, i, start)) == Shown(rows, i, LastRow(rows, i))
    decreases |rows| - i
  {
    var here := SegmentAt(rows, i, start);
    assert [here][1..] == [];
    JoinTextsConcat([here], SegmentsFrom(rows, i, start)[1..]);
    if Continues(rows, i) {
      SegmentsShow(rows, i + 1, here.end);
      assert SegmentsFrom(rows, i, start)[1..] == SegmentsFrom(rows, i + 1, here.end);
    } else {
      assert SegmentsFrom(rows, i, start) == [here];
    }
  }

  // ----- where a character is -----

  datatype Position = Position(x: int, y: int)

  function ResolveFrom(segments: seq<Segment>, index: int): Option<Position> {
    if segments == [] then None
    else if index < segments[0].end then Some(Position(index - segments[0].start + 1, segments[0].row))
    else ResolveFrom(segments[1..], index)
  }

  /** Laid out end to end from a start, over rows from a first one on. */
  predicate LaidOut(segments: seq<Segment>, start: nat, row: nat) {
    segments == [] ||
    (segments[0].start == start && segments[0].end == start + |segments[0].text| && segments[0].row == row
     && LaidOut(segments[1..], segments[0].end, row + 1))
  }

  lemma {:induction false} LineIsLaidOut(rows: seq<Row>, i: nat, start: nat)
    requires i < |rows|
    ensures LaidOut(SegmentsFrom(rows, i, start), start, i + 1)
    decreases |rows| - i
  {
    var here := SegmentAt(rows, i, start);
    if Continues(rows, i) {
      LineIsLaidOut(rows, i + 1, here.end);
      assert SegmentsFrom(rows, i, start)[1..] == SegmentsFrom(rows, i + 1, here.end);
    } else {
      assert SegmentsFrom(rows, i, start)[1..] == [];
    }
  }

  /** resolveCharacterPosition: past the end it names the last character. */
  method ResolveCharacterPosition(segments: seq<Segment>, index: int) returns (p: Position)
    ensures ResolveFrom(segments, index).Some? ==> Some(p) == ResolveFrom(segments, index)
    ensures ResolveFrom(segments, index).None? ==>
              p == if segments == [] then Position(1, 1)
                   else Position(if |segments[|segments| - 1].text| > 1 then |segments[|segments| - 1].text| else 1, segments[|segments| - 1].row)
  {
    assert segments[0..] == segments;
    for i := 0 to |segments|
      invariant ResolveFrom(segments[i..], index) == ResolveFrom(segments, index)
    {
      assert segments[i..][1..] == segments[i + 1..];
      if index < segments[i].end {
        return Position(index - segments[i].start + 1, segments[i].row);
      }
    }
    if segments == [] {
      return Position(1, 1);
    }
    var last := segments[|segments| - 1];
    return Position(if |last.text| > 1 then |last.text| else 1, last.row);
  }

  predicate Before(p: Position, q: Position) {
    p.y < q.y || (p.y == q.y && p.x < q.x)
  }

  /** The character at a position of the joined line is the one that row shows there. */
  lemma {:induction false} PositionShowsCharacter(segments: seq<Segment>, start: nat, row: nat, index: nat)
    requires LaidOut(segments, start, row) && start <= index < start + |JoinTexts(segments)|
    ensures var p := ResolveFrom(segments, index);
            && p.Some? && row <= p.value.y < row + |segments|
            && segments[p.value.y - row].row == p.value.y
            && 1 <= p.value.x <= |segments[p.value.y - row].text|
            && segments[p.value.y - row].text[p.value.x - 1] == JoinTexts(segments)[index - start]
  {
    if index >= segments[0].end {
      PositionShowsCharacter(segments[1..], segments[0].end, row + 1, index);
    }
  }

  /** Later characters are at later positions. */
  lemma {:induction false} PositionsIncrease(segments: seq<Segment>, start: nat, row: nat, i: nat, j: nat)
    requires LaidOut(segments, start, row) && start <= i < j < start + |JoinTexts(segments)|
    ensures ResolveFrom(segments, i).Some? && ResolveFrom(segments, j).Some?
    ensures Before(ResolveFrom(segments, i).value, ResolveFrom(segments, j).value)
  {
    if j >= segments[0].end {
      PositionShowsCharacter(segments[1..], segments[0].end, row + 1, j);
      if i >= segments[0].end {
        PositionsIncrease(segments[1..], segments[0].end, row + 1, i, j);
      }
    }
  }

  /** For every line the buffer holds: each index of its text resolves to its own character, in reading order. */
  lemma LinePositions(rows: seq<Row>, i: nat, a: nat, b: nat)
    requires i < |rows| && a < |LineOf(rows, i).text| && b < |LineOf(rows, i).text|
    ensures var line := LineOf(rows, i);
            var p, q, first := ResolveFrom(line.segments, a), ResolveFrom(line.segments, b), FirstRow(rows, i) + 1;
            && p.Some? && q.Some?
            && first <= p.value.y < first + |line.segments| && line.segments[p.value.y - first].row == p.value.y
            && 1 <= p.value.x <= |line.segments[p.value.y - first].text|
            && line.segments[p.value.y - first].text[p.value.x - 1] == line.text[a]
            && (a < b <==> Before(p.value, q.value))
  {
    hide SegmentsFrom, JoinTexts, ResolveFrom, LaidOut, FirstRow;
    var segments, first := LineOf(rows, i).segments, FirstRow(rows, i) + 1;
    LineIsLaidOut(rows, FirstRow(rows, i), 0);
    PositionShowsCharacter(segments, 0, first, a);
    PositionShowsCharacter(segments, 0, first, b);
    if a < b {
      PositionsIncrease(segments, 0, first, a, b);
    } else if b < a {
      PositionsIncrease(segments, 0, first, b, a);
    }
  }

  // ----- the links of a line -----

  datatype Link = Link(isUrl: bool, text: string, start: nat, end: nat)

  /** A stretch of the line an expression matched. */
  datatype Raw = Raw(text: string, start: nat)

  function Count(s: string, c: char): nat {
    if s == "" then 0 else (if s[0] == c then 1 else 0) + Count(s[1..], c)
  }

  function StripPunctuation(s: string): (r: string)
    ensures r <= s
  {
    if s != "" && s[|s| - 1] in ".,;!?" then StripPunctuation(s[..|s| - 1]) else s
  }

  function TrimUnbalanced(s: string, open: char, close: char): (r: string)
    ensures r <= s
  {
    if s != "" && s[|s| - 1] == close && Count(s, open) < Count(s, close) then TrimUnbalanced(s[..|s| - 1], open, close) else s
  }

  function TrimClosingDelimiters(s: string): (r: string)
    ensures r <= s
  {
    TrimUnbalanced(TrimUnbalanced(TrimUnbalanced(StripPunctuation(s), '(', ')'), '[', ']'), '{', '}')
  }

  lemma {:induction false} StripIs(s: string, mark: char)
    requires mark in ".,;!?"
    ensures var r := StripPunctuation(s);
            && (r != "" ==> r[|r| - 1] !in ".,;!?") && (forall i :: |r| <= i < |s| ==> s[i] in ".,;!?")
            && StripPunctuation(s + [mark]) == r
  {
    assert (s + [mark])[..|s|] == s;
    if s != "" && s[|s| - 1] in ".,;!?" {
      StripIs(s[..|s| - 1], s[|s| - 1]);
      assert s[..|s| - 1] + [s[|s| - 1]] == s;
    }
  }

  lemma {:induction false} CountSnoc(s: string, x: char, c: char)
    ensures Count(s + [x], c) == Count(s, c) + if x == c then 1 else 0
  {
    if s == "" {
      assert s + [x] == [x] && [x][1..] == "";
    } else {
      assert (s + [x])[1..] == s[1..] + [x];
      CountSnoc(s[1..], x, c);
    }
  }

  /** Closing brackets go from the end while there are more of them than opening ones, and no longer. */
  lemma {:induction false} TrimUnbalancedIs(s: string, open: char, close: char)
    requires open != close
    ensures var r := TrimUnbalanced(s, open, close);
            && (forall i :: |r| <= i < |s| ==> s[i] == close)
            && (r != "" && r[|r| - 1] == close ==> Count(r, close) <= Count(r, open))
            && (forall n :: |r| < n <= |s| ==> Count(s[..n], open) < Count(s[..n], close))
  {
    if s != "" && s[|s| - 1] == close && Count(s, open) < Count(s, close) {
      var front := s[..|s| - 1];
      TrimUnbalancedIs(front, open, close);
      var r := TrimUnbalanced(s, open, close);
      forall n | |r| < n <= |s|
        ensures Count(s[..n], open) < Count(s[..n], close)
      {
        if n < |s| {
          assert s[..n] == front[..n];
        } else {
          assert s[..n] == s;
        }
      }
    } else {
      assert s[..|s|] == s;
    }
  }

  predicate Balanced(s: string, open: char, close: char) {
    Count(s, close) <= Count(s, open)
  }

  /** A link whose brackets pair up keeps them; punctuation behind it goes, as does a closing bracket too many. */
  lemma ClosingDelimitersGo(s: string, mark: char)
    requires s != "" && s[|s| - 1] !in ".,;!?" && mark in ".,;!?"
    requires Balanced(s, '(', ')') && Balanced(s, '[', ']') && Balanced(s, '{', '}')
    ensures TrimClosingDelimiters(s) == s && TrimClosingDelimiters(s + [mark]) == s
    ensures Count(s, '(') == Count(s, ')') ==> TrimClosingDelimiters(s + ")") == s
    ensures Count(s, '[') == Count(s, ']') ==> TrimClosingDelimiters(s + "]") == s
    ensures Count(s, '{') == Count(s, '}') ==> TrimClosingDelimiters(s + "}") == s
  {
    hide *;
    StripIs(s, mark);
    NothingToStrip(s);
    OneTooMany(s, '(', ')');
    OneTooMany(s, '[', ']');
    OneTooMany(s, '{', '}');
    TrimmedIs(s);
    TrimmedIs(s + [mark]);
    if Count(s, '(') == Count(s, ')') {
      BracketGoes(s, ')');
    }
    if Count(s, '[') == Count(s, ']') {
      BracketGoes(s, ']');
    }
    if Count(s, '{') == Count(s, '}') {
      BracketGoes(s, '}');
    }
  }

  lemma TrimmedIs(s: string)
    ensures TrimClosingDelimiters(s) ==
            TrimUnbalanced(TrimUnbalanced(TrimUnbalanced(StripPunctuation(s), '(', ')'), '[', ']'), '{', '}')
  {
    hide StripPunctuation, TrimUnbalanced;
  }

  lemma BracketGoes(s: string, close: char)
    requires s != "" && close in ")]}"
    requires Balanced(s, '(', ')') && Balanced(s, '[', ']') && Balanced(s, '{', '}')
    requires var open := if close == ')' then '(' else if close == ']' then '[' else '{'; Count(s, open) == Count(s, close)
    ensures TrimClosingDelimiters(s + [close]) == s
  {
    hide *;
    NothingToStrip(s + [close]);
    TrimmedIs(s + [close]);
    OneTooMany(s, '(', ')');
    OneTooMany(s, '[', ']');
    OneTooMany(s, '{', '}');
    OtherStays(s, close, '(', ')');
    OtherStays(s, close, '[', ']');
    OtherStays(s, close, '{', '}');
  }

  lemma OtherStays(s: string, other: char, open: char, close: char)
    ensures other != close ==> TrimUnbalanced(s + [other], open, close) == s + [other]
  {
  }

  lemma NothingToStrip(s: string)
    requires s != "" && s[|s| - 1] !in ".,;!?"
    ensures StripPunctuation(s) == s
  {
  }

  lemma OneTooMany(s: string, open: char, close: char)
    requires open != close && Balanced(s, open, close)
    ensures TrimUnbalanced(s, open, close) == s
    ensures Count(s, open) == Count(s, close) ==> TrimUnbalanced(s + [close], open, close) == s
  {
    CountSnoc(s, close, open);
    CountSnoc(s, close, close);
    assert (s + [close])[..|s|] == s;
  }

  predicate Overlaps(a: Link, b: Link) {
    a.start < b.end && b.start < a.end
  }

  predicate InLine(l: Link, line: string) {
    l.start < l.end <= |line| && l.text == line[l.start..l.end]
  }

  predicate Apart(links: seq<Link>) {
    forall i, j :: 0 <= i < j < |links| ==> !Overlaps(links[i], links[j])
  }

  predicate Reads(r: Raw, line: string) {
    r.start + |r.text| <= |line| && r.text == line[r.start..r.start + |r.text|]
  }

  /** The link is one of these matches, without the delimiters that close the text around it. */
  predicate ReadOff(l: Link, raws: seq<Raw>) {
    exists r <- raws :: l.start == r.start && l.text == TrimClosingDelimiters(r.text) && l.end == r.start + |l.text|
  }

  /** The k-th match, if it counts as a link, is one, or overlaps one found before. */
  predicate Handled(raws: seq<Raw>, k: nat, isUrl: bool, url: string -> bool, existing: seq<Link>, links: seq<Link>)
    requires k < |raws|
  {
    var t := TrimClosingDelimiters(raws[k].text);
    t != "" && (isUrl || !url(t)) ==>
      exists o <- existing + links ::
        Overlaps(Link(isUrl, t, raws[k].start, raws[k].start + |t|), o) && (o in existing || ReadOff(o, raws[..k + 1]))
  }

  /** collectMatches: url tells the texts that read as addresses. */
  method CollectMatches(line: string, isUrl: bool, raws: seq<Raw>, url: string -> bool, existing: seq<Link>) returns (links: seq<Link>)
    requires forall r <- raws :: Reads(r, line)
    requires Apart(existing)
    ensures Apart(existing + links)
    ensures forall l <- links :: InLine(l, line) && l.isUrl == isUrl && (!isUrl ==> !url(l.text)) && ReadOff(l, raws)
    ensures forall k :: 0 <= k < |raws| ==> Handled(raws, k, isUrl, url, existing, links)
  {
    hide TrimClosingDelimiters, InLine, Apart, Handled, Reads, ReadOff;
    links := [];
    assert existing + [] == existing;
    for i := 0 to |raws|
      invariant Apart(existing + links)
      invariant forall l <- links :: InLine(l, line) && l.isUrl == isUrl && (!isUrl ==> !url(l.text)) && ReadOff(l, raws[..i])
      invariant forall k :: 0 <= k < i ==> Handled(raws, k, isUrl, url, existing, links)
    {
      var trimmed := TrimClosingDelimiters(raws[i].text);
      var candidate := Link(isUrl, trimmed, raws[i].start, raws[i].start + |trimmed|);
      forall l <- links
        ensures ReadOff(l, raws[..i + 1])
      {
        ReadOffMore(l, raws, i);
      }
      HandledIf(raws, i, isUrl, url, existing, links);
      if trimmed == "" || (!isUrl && url(trimmed)) {
        continue;
      }
      if exists other <- existing + links :: Overlaps(candidate, other) {
        continue;
      }
      CandidateInLine(raws[i], candidate, line);
      ReadOffNow(candidate, raws, i);
      ApartSnoc(existing + links, candidate);
      ghost var before := links;
      links := links + [candidate];
      assert existing + links == existing + before + [candidate];
      assert candidate in existing + links && Overlaps(candidate, candidate);
      HandledIf(raws, i, isUrl, url, existing, links);
      forall k | 0 <= k < i
        ensures Handled(raws, k, isUrl, url, existing, links)
      {
        HandledGrows(raws, k, isUrl, url, existing, before, candidate);
      }
    }
    assert raws[..|raws|] == raws;
  }

  lemma ReadOffMore(l: Link, raws: seq<Raw>, i: nat)
    requires i < |raws| && ReadOff(l, raws[..i])
    ensures ReadOff(l, raws[..i + 1])
  {
    hide TrimClosingDelimiters;
    assert forall r <- raws[..i] :: r in raws[..i + 1];
  }

  lemma ReadOffNow(l: Link, raws: seq<Raw>, i: nat)
    requires i < |raws| && l.start == raws[i].start && l.text == TrimClosingDelimiters(raws[i].text) && l.end == l.start + |l.text|
    ensures ReadOff(l, raws[..i + 1])
  {
    hide TrimClosingDelimiters;
    assert raws[i] in raws[..i + 1];
  }

  lemma CandidateInLine(r: Raw, l: Link, line: string)
    requires Reads(r, line) && l.text <= r.text && l.text != "" && l.start == r.start && l.end == r.start + |l.text|
    ensures InLine(l, line)
  {
  }

  lemma HandledIf(raws: seq<Raw>, k: nat, isUrl: bool, url: string -> bool, existing: seq<Link>, links: seq<Link>)
    requires k < |raws| && forall l <- links :: ReadOff(l, raws[..k + 1])
    ensures var t := TrimClosingDelimiters(raws[k].text);
            Handled(raws, k, isUrl, url, existing, links) <==>
            (t != "" && (isUrl || !url(t)) ==> exists o <- existing + links :: Overlaps(Link(isUrl, t, raws[k].start, raws[k].start + |t|), o))
  {
    hide TrimClosingDelimiters, ReadOff;
    assert forall o <- existing + links :: o in existing || o in links;
  }

  lemma HandledGrows(raws: seq<Raw>, k: nat, isUrl: bool, url: string -> bool, existing: seq<Link>, links: seq<Link>, l: Link)
    requires k < |raws| && Handled(raws, k, isUrl, url, existing, links)
    ensures Handled(raws, k, isUrl, url, existing, links + [l])
  {
    hide TrimClosingDelimiters, ReadOff;
    assert forall o <- existing + links :: o in existing + (links + [l]);
  }

  /** resolveWrappedTerminalLinkRange: the range of a link starts at its first character and ends at its last, in reading order. */
  lemma LinkRange(rows: seq<Row>, i: nat, l: Link)
    requires i < |rows| && InLine(l, LineOf(rows, i).text)
    ensures var line, first := LineOf(rows, i), FirstRow(rows, i) + 1;
            var from, to := ResolveFrom(line.segments, l.start), ResolveFrom(line.segments, l.end - 1);
            && from.Some? && to.Some?
            && first <= from.value.y <= to.value.y < first + |line.segments|
            && 1 <= from.value.x <= |line.segments[from.value.y - first].text| && 1 <= to.value.x <= |line.segments[to.value.y - first].text|
            && line.segments[from.value.y - first].text[from.value.x - 1] == l.text[0]
            && line.segments[to.value.y - first].text[to.value.x - 1] == l.text[|l.text| - 1]
            && (from == to || Before(from.value, to.value))
  {
    hide LineOf, ResolveFrom, FirstRow;
    LinePositions(rows, i, l.start, l.end - 1);
    LinePositions(rows, i, l.end - 1, l.start);
  }

  predicate StartsNotAfter(a: Link, b: Link) {
    a.start <= b.start
  }

  /** The match, without closing delimiters, overlaps the link or is it. */
  predicate TakenBy(r: Raw, isUrl: bool, o: Link) {
    var t := TrimClosingDelimiters(r.text);
    Overlaps(Link(isUrl, t, r.start, r.start + |t|), o)
  }

  /** Every match that counts as a link is one, or overlaps one. */
  lemma AllTaken(raws: seq<Raw>, isUrl: bool, url: string -> bool, existing: seq<Link>, found: seq<Link>)
    requires forall k :: 0 <= k < |raws| ==> Handled(raws, k, isUrl, url, existing, found)
    ensures forall r <- raws :: TrimClosingDelimiters(r.text) != "" && (isUrl || !url(TrimClosingDelimiters(r.text))) ==>
              exists o <- existing + found :: TakenBy(r, isUrl, o)
  {
    hide TrimClosingDelimiters, ReadOff, Overlaps;
    forall r <- raws | TrimClosingDelimiters(r.text) != "" && (isUrl || !url(TrimClosingDelimiters(r.text)))
      ensures exists o <- existing + found :: TakenBy(r, isUrl, o)
    {
      var k :| 0 <= k < |raws| && raws[k] == r;
      var t := TrimClosingDelimiters(r.text);
      assert Handled(raws, k, isUrl, url, existing, found);
      var o :| o in existing + found && Overlaps(Link(isUrl, t, r.start, r.start + |t|), o);
      assert TakenBy(r, isUrl, o);
    }
  }

  /**
   * extractTerminalLinks: addresses first, then paths, each match a link unless it overlaps an earlier one;
   * all in the order of the line, none overlapping another.
   */
  method ExtractLinks(line: string, urls: seq<Raw>, paths: seq<Raw>, url: string -> bool) returns (links: seq<Link>)
    requires forall r <- urls + paths :: Reads(r, line)
    ensures forall i, j :: 0 <= i < j < |links| ==> links[i].end <= links[j].start
    ensures forall l <- links :: InLine(l, line) && ReadOff(l, if l.isUrl then urls else paths) && (!l.isUrl ==> !url(l.text))
    ensures forall r <- urls :: TrimClosingDelimiters(r.text) != "" ==> exists o <- links :: o.isUrl && TakenBy(r, true, o)
    ensures forall r <- paths :: TrimClosingDelimiters(r.text) != "" && !url(TrimClosingDelimiters(r.text)) ==>
              exists o <- links :: TakenBy(r, false, o)
  {
    hide TrimClosingDelimiters, Sort, ReadOff, Reads, InLine, Apart, Handled, TakenBy, Sorted;
    assert forall r <- urls :: r in urls + paths;
    assert forall r <- paths :: r in urls + paths;
    var urlLinks := CollectMatches(line, true, urls, url, []) by {
      assert Apart([]) by {
        ApartNothing();
      }
    }
    assert [] + urlLinks == urlLinks;
    var pathLinks := CollectMatches(line, false, paths, url, urlLinks);
    var all := urlLinks + pathLinks;
    links := Sort(all, StartsNotAfter);
    InSorted(all, links, line);
    AllTaken(urls, true, url, [], urlLinks);
    AllTaken(paths, false, url, urlLinks, pathLinks);
  }

  lemma ApartNothing()
    ensures Apart([])
  {
  }

  lemma InSorted(all: seq<Link>, links: seq<Link>, line: string)
    requires Apart(all) && (forall l <- all :: InLine(l, line)) && links == Sort(all, StartsNotAfter)
    ensures forall l :: l in links <==> l in all
    ensures forall i, j :: 0 <= i < j < |links| ==> links[i].end <= links[j].start
  {
    SortIsStable(all, StartsNotAfter);
    StablePermutationIsPermutation(links, all, StartsNotAfter);
    hide Sort, InLine, Apart;
    SortedApart(links, all, line);
  }

  lemma ApartSnoc(links: seq<Link>, l: Link)
    requires Apart(links) && forall o <- links :: !Overlaps(l, o)
    ensures Apart(links + [l])
  {
    var more := links + [l];
    forall i, j | 0 <= i < j < |more|
      ensures !Overlaps(more[i], more[j])
    {
      assert more[i] in links;
    }
  }

  lemma SortedApart(links: seq<Link>, all: seq<Link>, line: string)
    requires Sorted(links, StartsNotAfter) && multiset(links) == multiset(all) && Apart(all)
    requires forall l <- links :: InLine(l, line)
    ensures forall i, j :: 0 <= i < j < |links| ==> links[i].end <= links[j].start
  {
    forall i, j | 0 <= i < j < |links|
      ensures links[i].end <= links[j].start
    {
      assert StartsNotAfter(links[i], links[j]) && InLine(links[i], line) && InLine(links[j], line);
      TwoIn(links, i, j);
      TwoPlaces(all, links[i], links[j]);
    }
  }

  lemma TwoIn(s: seq<Link>, i: nat, j: nat)
    requires i < j < |s|
    ensures s[i] in multiset(s) && s[j] in multiset(s) && (s[i] == s[j] ==> multiset(s)[s[i]] >= 2)
  {
    assert s == s[..j] + s[j..] && s[..j][i] == s[i] && s[j..][0] == s[j];
    assert s[i] in s[..j] && s[j] in s[j..];
    assert multiset(s) == multiset(s[..j]) + multiset(s[j..]);
  }

  lemma TwoPlaces(s: seq<Link>, a: Link, b: Link)
    requires Apart(s) && a in s && b in s && (a == b ==> multiset(s)[a] >= 2)
    ensures !Overlaps(a, b)
  {
    var i :| 0 <= i < |s| && s[i] == a;
    if a == b {
      assert s == s[..i] + [a] + s[i + 1..];
      assert a in s[..i] + s[i + 1..];
    }
    var j :| 0 <= j < |s| && j != i && s[j] == b;
    if i < j {
      assert !Overlaps(s[i], s[j]);
    } else {
      assert !Overlaps(s[j], s[i]);
    }
  }

  // ----- a path with a line and a column -----

  datatype PathPosition = PathPosition(path: string, row: Option<string>, column: Option<string>)

  function DigitRun(s: string): (n: nat)
    ensures n <= |s|
    ensures forall i :: |s| - n <= i < |s| ==> s[i] in DIGITS
    ensures n < |s| ==> s[|s| - n - 1] !in DIGITS
  {
    if s != "" && s[|s| - 1] in DIGITS then 1 + DigitRun(s[..|s| - 1]) else 0
  }

  /** Where the colon of a number at the end stands. */
  function NumberAt(s: string): (colon: Option<nat>)
    ensures colon.Some? ==> colon.value + 1 < |s| && s[colon.value] == ':' && forall i :: colon.value < i < |s| ==> s[i] in DIGITS
  {
    var n := DigitRun(s);
    if 0 < n < |s| && s[|s| - n - 1] == ':' then Some(|s| - n - 1) else None
  }

  /** splitPathAndPosition: a single number is a line, two are a line and a column. */
  function SplitPath(value: string): PathPosition {
    var last := NumberAt(value);
    if last.None? then PathPosition(value, None, None)
    else
      var path := value[..last.value];
      var first := NumberAt(path);
      if first.None? then PathPosition(path, Some(value[last.value + 1..]), None)
      else PathPosition(path[..first.value], Some(path[first.value + 1..]), Some(value[last.value + 1..]))
  }

  function Rejoin(p: PathPosition): string {
    p.path + (if p.row.Some? then ":" + p.row.value else "") + if p.column.Some? then ":" + p.column.value else ""
  }

  lemma NumberAtIs(path: string, number: string)
    requires number != "" && forall c <- number :: c in DIGITS
    ensures NumberAt(path + ":" + number) == Some(|path|)
  {
    var s := path + ":" + number;
    assert forall i :: |path| < i < |s| ==> s[i] == number[i - |path| - 1];
    var n := DigitRun(s);
    assert s[|path|] == ':' && ':' !in DIGITS;
    assert s[|s| - 1] in DIGITS;
  }

  /** Splitting loses nothing. */
  lemma SplitPathRejoins(value: string)
    ensures Rejoin(SplitPath(value)) == value
  {
    hide NumberAt;
    var last := NumberAt(value);
    if last.Some? {
      var path := value[..last.value];
      assert value == path + ":" + value[last.value + 1..];
      var first := NumberAt(path);
      if first.Some? {
        assert path == path[..first.value] + ":" + path[first.value + 1..];
      }
    }
  }

  /** A path followed by a line, or by a line and a column, comes apart into just these. */
  lemma SplitPathTakesNumbers(path: string, row: string, column: string)
    requires row != "" && column != "" && (forall c <- row :: c in DIGITS) && (forall c <- column :: c in DIGITS)
    ensures SplitPath(path + ":" + row + ":" + column) == PathPosition(path, Some(row), Some(column))
    ensures NumberAt(path).None? ==> SplitPath(path + ":" + row) == PathPosition(path, Some(row), None)
  {
    hide NumberAt;
    NumberAtIs(path, row);
    NumberAtIs(path + ":" + row, column);
    var shorter := path + ":" + row;
    assert (shorter + ":" + column)[..|shorter|] == shorter && (shorter + ":" + column)[|shorter| + 1..] == column;
    assert shorter[..|path|] == path && shorter[|path| + 1..] == row;
  }
}
