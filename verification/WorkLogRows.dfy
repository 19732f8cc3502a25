/** Which neighbouring work log entries share a row, in the entries' own fields. */
module WorkLogRows {
  import opened Wrappers
  import opened Strings
  import opened Sequences
  import opened WorkLog

  // ----- the run still open -----

  /** The run behind the last row. */
  function OpenRun<T>(h: Helpers<T>, entries: seq<Entry<T>>): (run: seq<Entry<T>>)
    requires entries != []
  {
    var runs := Runs(h, entries);
    runs[|runs| - 1]
  }

  lemma OpenRunIs<T>(h: Helpers<T>, entries: seq<Entry<T>>)
    requires entries != []
    ensures var run, rows := OpenRun(h, entries), Collapse(h, entries);
            run != [] && run[|run| - 1] == entries[|entries| - 1] && rows[|rows| - 1] == Blend(h, run)
  {
    hide Joins, Blend, MergeEntries;
    RowsAreRuns(h, entries);
    LastPair(Collapse(h, entries), Runs(h, entries), IsBlend(h));
    hide Collapse, Paired;
  }

  // ----- when the next entry joins it -----

  /** They have a file in common, or one of them names none. */
  predicate ShareFiles<T>(run: seq<Entry<T>>, n: Entry<T>) {
    AllFiles(run) == [] || n.changedFiles.GetOr([]) == [] || exists f <- AllFiles(run) :: f in n.changedFiles.GetOr([])
  }

  /** One command starts with the other, or one of them names none. */
  predicate ShareCommand<T>(run: seq<Entry<T>>, n: Entry<T>) {
    var a, b := LastDefined(run, (e: Entry<T>) => e.collapseCommand).GetOr(""), n.collapseCommand.GetOr("");
    a == "" || b == "" || a <= b || b <= a
  }

  function LastKey<T>(run: seq<Entry<T>>): Option<string> {
    LastDefined(run, (e: Entry<T>) => e.collapseKey)
  }

  /** The run's last key is the next entry's too. */
  predicate SameKey<T>(run: seq<Entry<T>>, n: Entry<T>) {
    LastKey(run).Some? && LastKey(run) == n.collapseKey
  }

  /** The next entry has lost the call id the run has, and otherwise looks like it. */
  predicate LooksAlike<T>(h: Helpers<T>, run: seq<Entry<T>>, n: Entry<T>)
    requires run != []
  {
    && LastDefined(run, (e: Entry<T>) => e.toolCallId).Some? && n.toolCallId.None?
    && LastDefined(run, (e: Entry<T>) => e.itemType) == n.itemType
    && h.compact(Blend(h, run).toolTitle.GetOr(run[|run| - 1].text)) == h.compact(n.toolTitle.GetOr(n.text))
  }

  predicate IsTool(kind: Kind) {
    kind == ToolStarted || kind == ToolUpdated || kind == ToolCompleted
  }

  /** A tool call is running, and the next entry is part of it. */
  predicate Continues<T>(h: Helpers<T>, run: seq<Entry<T>>, n: Entry<T>)
    requires run != []
  {
    && (run[|run| - 1].kind == ToolStarted || run[|run| - 1].kind == ToolUpdated) && IsTool(n.kind)
    && (|| (SameKey(run, n) && "tool:" <= n.collapseKey.value)
        || ((if SameKey(run, n) then true else LooksAlike(h, run, n)) && ShareFiles(run, n) && ShareCommand(run, n)))
  }

  lemma JoinsIff<T(!new)>(h: Helpers<T>, run: seq<Entry<T>>, n: Entry<T>)
    requires run != []
    ensures Joins(h, Blend(h, run), n) <==> Continues(h, run, n)
  {
    RowCarries(h, run);
    FilesOfRow(h, run);
    hide Blend, LastDefined, AllFiles;
  }

  lemma FilesOfRow<T>(h: Helpers<T>, run: seq<Entry<T>>)
    requires run != []
    ensures forall f :: f in Files(Blend(h, run)) <==> f in AllFiles(run)
    ensures Files(Blend(h, run)) == [] <==> AllFiles(run) == []
  {
    if |run| >= 2 {
      BlendFiles(h, run);
      if AllFiles(run) != [] {
        assert AllFiles(run)[0] in Dedup(AllFiles(run));
      }
      if Dedup(AllFiles(run)) != [] {
        assert Dedup(AllFiles(run))[0] in AllFiles(run);
      }
    } else {
      assert run[..0] == [] && AllFiles(run) == [] + Files(run[0]);
    }
  }

  lemma NextRow<T>(h: Helpers<T>, entries: seq<Entry<T>>, i: nat)
    requires i + 1 < |entries|
    ensures var rows := Collapse(h, entries[..i + 1]);
            RowOf(h, entries, i + 1) == if Joins(h, rows[|rows| - 1], entries[i + 1]) then RowOf(h, entries, i) else RowOf(h, entries, i) + 1
  {
    hide Joins, MergeEntries;
    assert entries[..i + 2][..i + 1] == entries[..i + 1];
  }

  /** Neighbours share a row exactly when the second continues the run the first ends; otherwise it starts the next row. */
  lemma NextJoinsIff<T(!new)>(h: Helpers<T>, entries: seq<Entry<T>>, i: nat)
    requires i + 1 < |entries|
    ensures var run := OpenRun(h, entries[..i + 1]);
            && run != [] && run[|run| - 1] == entries[i]
            && RowOf(h, entries, i + 1) == if Continues(h, run, entries[i + 1]) then RowOf(h, entries, i) else RowOf(h, entries, i) + 1
  {
    hide *;
    OpenRunIs(h, entries[..i + 1]);
    NextRow(h, entries, i);
    JoinsIff(h, OpenRun(h, entries[..i + 1]), entries[i + 1]);
  }

  lemma LastKeyIs<T>(run: seq<Entry<T>>)
    requires run != [] && run[|run| - 1].collapseKey.Some?
    ensures LastKey(run) == run[|run| - 1].collapseKey
  {
  }

  /** Two calls side by side stay two rows: keys that differ, the second entry with a call id of its own. */
  lemma OtherCallOtherRow<T(!new)>(h: Helpers<T>, entries: seq<Entry<T>>, i: nat)
    requires i + 1 < |entries|
    requires var e, f := entries[i], entries[i + 1]; e.collapseKey.Some? && e.collapseKey != f.collapseKey && f.toolCallId.Some?
    ensures RowOf(h, entries, i + 1) == RowOf(h, entries, i) + 1
  {
    hide RowOf, OpenRun, LastKey;
    NextJoinsIff(h, entries, i);
    LastKeyIs(OpenRun(h, entries[..i + 1]));
  }

  /** With one key that is not a call's, neighbours share a row exactly when the row's files and command agree with the next. */
  lemma LikelySameRowIff<T(!new)>(h: Helpers<T>, entries: seq<Entry<T>>, i: nat)
    requires i + 1 < |entries|
    requires var e, f := entries[i], entries[i + 1];
             && (e.kind == ToolStarted || e.kind == ToolUpdated) && IsTool(f.kind)
             && e.collapseKey.Some? && e.collapseKey == f.collapseKey && !("tool:" <= e.collapseKey.value)
    ensures var run := OpenRun(h, entries[..i + 1]);
            RowOf(h, entries, i + 1) == RowOf(h, entries, i) <==> ShareFiles(run, entries[i + 1]) && ShareCommand(run, entries[i + 1])
  {
    hide RowOf, OpenRun, LastKey, ShareFiles, ShareCommand, LooksAlike;
    NextJoinsIff(h, entries, i);
    LastKeyIs(OpenRun(h, entries[..i + 1]));
  }

  /** An entry that lost its call id joins the run before it exactly when it looks alike and files and command agree. */
  lemma NamelessSameRowIff<T(!new)>(h: Helpers<T>, entries: seq<Entry<T>>, i: nat)
    requires i + 1 < |entries|
    requires var e, f := entries[i], entries[i + 1];
             && (e.kind == ToolStarted || e.kind == ToolUpdated) && IsTool(f.kind)
             && e.collapseKey.Some? && e.collapseKey != f.collapseKey && f.toolCallId.None?
    ensures var run := OpenRun(h, entries[..i + 1]);
            && run != []
            && (RowOf(h, entries, i + 1) == RowOf(h, entries, i) <==>
                LooksAlike(h, run, entries[i + 1]) && ShareFiles(run, entries[i + 1]) && ShareCommand(run, entries[i + 1]))
  {
    hide RowOf, OpenRun, LastKey, ShareFiles, ShareCommand, LooksAlike;
    NextJoinsIff(h, entries, i);
    LastKeyIs(OpenRun(h, entries[..i + 1]));
  }

  // ----- keys without a call id -----

  /** The part of a line before its first colon, or the whole line when it has none or starts with one. */
  lemma {:induction false} HintIs(before: string, after: string)
    requires before != "" && ':' !in before
    ensures DetailHint(before + ":" + after) == before && DetailHint(before) == before
    ensures DetailHint(":" + after) == ":" + after
  {
    ColonAt(before, ":" + after);
    ColonAt(before, "");
    assert before + "" == before;
    assert before + ":" + after == before + (":" + after);
  }

  lemma {:induction false} ColonAt(before: string, rest: string)
    requires ':' !in before && (rest == "" || rest[0] == ':')
    ensures IndexOfColon(before + rest) == |before|
  {
    if before == "" {
      assert before + rest == rest;
    } else {
      assert (before + rest)[1..] == before[1..] + rest;
      ColonAt(before[1..], rest);
    }
  }

  /** What tells one nameless call from another. */
  function Marks<T>(e: Entry<T>, firstLine: string, h: Helpers<T>): seq<string> {
    [e.itemType.GetOr(""), h.compact(e.toolTitle.GetOr(e.text)), e.requestKind.GetOr(""), e.toolName.GetOr(""), h.compact(DetailHint(firstLine))]
  }

  predicate Nameless<T>(e: Entry<T>) {
    IsTool(e.kind) && e.toolCallId.GetOr("") == ""
  }

  const CONTROL: char := '\U{1F}'

  /** No mark holds the control character that joins them. */
  predicate Joinable<T>(e: Entry<T>, firstLine: string, h: Helpers<T>) {
    (forall i :: 0 <= i < 5 ==> CONTROL !in Marks(e, firstLine, h)[i]) && CONTROL !in h.compact(e.command.GetOr(""))
  }

  predicate Blank(marks: seq<string>) {
    forall i :: 0 <= i < |marks| ==> marks[i] == ""
  }

  function Glue(marks: seq<string>): string
    requires |marks| == 5
  {
    marks[0] + [CONTROL] + marks[1] + [CONTROL] + marks[2] + [CONTROL] + marks[3] + [CONTROL] + marks[4]
  }

  lemma GlueIsInjective(a: seq<string>, b: seq<string>)
    requires |a| == 5 && |b| == 5
    requires forall i :: 0 <= i < 5 ==> CONTROL !in a[i] && CONTROL !in b[i]
    ensures Glue(a) == Glue(b) <==> a == b
  {
    if Glue(a) == Glue(b) {
      LastSeparator(a[0] + [CONTROL] + a[1] + [CONTROL] + a[2] + [CONTROL] + a[3], a[4],
                    b[0] + [CONTROL] + b[1] + [CONTROL] + b[2] + [CONTROL] + b[3], b[4], CONTROL);
      LastSeparator(a[0] + [CONTROL] + a[1] + [CONTROL] + a[2], a[3], b[0] + [CONTROL] + b[1] + [CONTROL] + b[2], b[3], CONTROL);
      LastSeparator(a[0] + [CONTROL] + a[1], a[2], b[0] + [CONTROL] + b[1], b[2], CONTROL);
      LastSeparator(a[0], a[1], b[0], b[1], CONTROL);
    }
  }

  lemma KeyIs<T>(e: Entry<T>, firstLine: string, h: Helpers<T>)
    requires Nameless(e)
    ensures var marks, command := Marks(e, firstLine, h), h.compact(e.command.GetOr(""));
            KeyOf(e, firstLine, h) ==
            if !Blank(marks) then Some(Glue(marks)) else if command != "" then Some("command-only" + [CONTROL] + command) else None
  {
    hide DetailHint;
    var marks := Marks(e, firstLine, h);
    assert SEPARATOR == [CONTROL];
    assert Blank(marks) <==> marks[0] == "" && marks[1] == "" && marks[2] == "" && marks[3] == "" && marks[4] == "";
  }

  lemma CommandApart(marks: seq<string>, command: string)
    requires |marks| == 5 && (forall i :: 0 <= i < 5 ==> CONTROL !in marks[i]) && CONTROL !in command
    ensures Glue(marks) != "command-only" + [CONTROL] + command
  {
    var p := marks[0] + [CONTROL] + marks[1] + [CONTROL] + marks[2] + [CONTROL] + marks[3];
    assert p[|marks[0]|] == CONTROL && CONTROL in p && CONTROL !in "command-only";
    if Glue(marks) == "command-only" + [CONTROL] + command {
      LastSeparator(p, marks[4], "command-only", command, CONTROL);
    }
  }

  /** Nameless calls have one key exactly when all their marks agree; without any mark their commands decide. */
  lemma NamelessKeyIff<T>(e: Entry<T>, eLine: string, f: Entry<T>, fLine: string, h: Helpers<T>)
    requires Nameless(e) && Nameless(f) && Joinable(e, eLine, h) && Joinable(f, fLine, h)
    ensures KeyOf(e, eLine, h) == KeyOf(f, fLine, h) <==>
            && Marks(e, eLine, h) == Marks(f, fLine, h)
            && (Blank(Marks(e, eLine, h)) ==> h.compact(e.command.GetOr("")) == h.compact(f.command.GetOr("")))
  {
    KeyIs(e, eLine, h);
    KeyIs(f, fLine, h);
    var a, b, c, d := Marks(e, eLine, h), Marks(f, fLine, h), h.compact(e.command.GetOr("")), h.compact(f.command.GetOr(""));
    hide Marks, Glue, KeyOf;
    assert |a| == 5 && |b| == 5 by {
      FiveMarks(e, eLine, h);
      FiveMarks(f, fLine, h);
    }
    GlueIsInjective(a, b);
    CommandApart(a, d);
    CommandApart(b, c);
    if "command-only" + [CONTROL] + c == "command-only" + [CONTROL] + d {
      LastSeparator("command-only", c, "command-only", d, CONTROL);
    }
    if Blank(a) && Blank(b) {
      assert a == b;
    }
  }

  lemma FiveMarks<T>(e: Entry<T>, firstLine: string, h: Helpers<T>)
    ensures |Marks(e, firstLine, h)| == 5
  {
  }

  // ----- the title of an agent's row -----

  /** The last title that says something. */
  function LastTelling<T>(h: Helpers<T>, run: seq<Entry<T>>): (title: Option<string>)
    ensures title.Some? ==> title.value != "" && !h.generic(title.value)
  {
    if run == [] then None
    else
      var title := run[|run| - 1].toolTitle;
      if title.Some? && title.value != "" && !h.generic(title.value) then title else LastTelling(h, run[..|run| - 1])
  }

  /** An agent's row is titled by the last title of its run that says something, if there is one. */
  lemma {:induction false} AgentTitle<T>(h: Helpers<T>, run: seq<Entry<T>>)
    requires run != [] && forall e <- run :: e.itemType == Some("collab_agent_tool_call") && e.toolTitle != Some("")
    ensures Blend(h, run).itemType == Some("collab_agent_tool_call") && Blend(h, run).toolTitle != Some("")
    ensures LastTelling(h, run).Some? ==> Blend(h, run).toolTitle == LastTelling(h, run)
    ensures LastTelling(h, run).None? ==> (Blend(h, run).toolTitle.Some? ==> h.generic(Blend(h, run).toolTitle.value))
    decreases |run|
  {
    hide MergeFiles, Dedup;
    assert run[|run| - 1] in run;
    if |run| == 1 {
      assert LastTelling(h, run[..0]) == None;
    } else {
      assert forall e <- run[..|run| - 1] :: e in run;
      AgentTitle(h, run[..|run| - 1]);
    }
  }

  /**
   * A row keeps its title over the next entry's when that has none, or when one of the two is an agent's and
   * only the row's title says something.
   */
  lemma TitleKept<T>(h: Helpers<T>, run: seq<Entry<T>>)
    requires |run| >= 2
    ensures var row, last, r := Blend(h, run[..|run| - 1]), run[|run| - 1], Blend(h, run);
            var agent := row.itemType == Some("collab_agent_tool_call") || last.itemType == Some("collab_agent_tool_call");
            && (r.toolTitle == row.toolTitle || r.toolTitle == last.toolTitle)
            && (r.toolTitle == row.toolTitle <==>
                  || last.toolTitle.None? || last.toolTitle == row.toolTitle
                  || (agent && row.toolTitle.Some? && row.toolTitle.value != "" && last.toolTitle.value != ""
                      && !h.generic(row.toolTitle.value) && h.generic(last.toolTitle.value)))
  {
    hide MergeFiles, Dedup;
  }

  // ----- the details of a row -----

  /** The details of a run, put together from the left; entries without any are passed over. */
  function Gathered<T>(h: Helpers<T>, run: seq<Entry<T>>): Option<T> {
    if run == [] then None
    else
      var before, own := Gathered(h, run[..|run| - 1]), run[|run| - 1].toolDetails;
      match (before, own)
      case (Some(a), Some(b)) => Some(h.joinDetails(a, b))
      case (Some(_), None) => before
      case (None, _) => own
  }

  lemma {:induction false} RowDetails<T>(h: Helpers<T>, run: seq<Entry<T>>)
    requires run != []
    ensures Blend(h, run).toolDetails == Gathered(h, run)
  {
    hide MergeFiles, MergeTitle, Dedup;
    if |run| > 1 {
      RowDetails(h, run[..|run| - 1]);
    } else {
      assert Gathered(h, run[..0]) == None;
    }
  }
}
