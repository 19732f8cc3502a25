/** Collapsing the updates of one tool call into one work log row. */
module WorkLog {
  import opened Wrappers
  import opened Sequences

  datatype Kind = ToolStarted | ToolUpdated | ToolCompleted | OtherKind

  /** A derived work log entry; T stands for the parts that are only carried along. */
  datatype Entry<T> = Entry(
    id: string,
    createdAt: string,
    kind: Kind,
    text: string,
    tone: string,
    turnId: Option<string>,
    detail: Option<string>,
    command: Option<string>,
    rawCommand: Option<string>,
    preview: Option<string>,
    toolTitle: Option<string>,
    toolName: Option<string>,
    toolCallId: Option<string>,
    itemType: Option<string>,
    requestKind: Option<string>,
    changedFiles: Option<seq<string>>,
    toolDetails: Option<T>,
    subagents: Option<T>,
    subagentAction: Option<T>,
    automation: Option<T>,
    collapseKey: Option<string>,
    collapseCommand: Option<string>)

  /** Helpers of other files: labels without their status word, titles that say nothing, and two details in one. */
  datatype Helpers<!T> = Helpers(compact: string -> string, generic: string -> bool, joinDetails: (T, T) -> T)

  const AGENT_CALL := "collab_agent_tool_call"
  const SEPARATOR := "\U{1F}"

  // ----- the key of a tool call -----

  predicate StartsWith(s: string, prefix: string) {
    prefix <= s
  }

  /** The part of a detail's first line before its colon, trimmed by the caller's trim. */
  function DetailHint(firstLine: string): string {
    var colon := IndexOfColon(firstLine);
    if colon == 0 then firstLine else firstLine[..colon]
  }

  function IndexOfColon(s: string): (i: nat)
    ensures i <= |s|
  {
    if s == "" || s[0] == ':' then 0 else 1 + IndexOfColon(s[1..])
  }

  predicate Lifecycle(e: Entry) {
    !e.kind.OtherKind?
  }

  /** deriveToolLifecycleCollapseKey; firstLine is the trimmed first line of the detail. */
  function KeyOf<T>(e: Entry<T>, firstLine: string, h: Helpers<T>): Option<string> {
    if !Lifecycle(e) then None
    else if e.toolCallId.GetOr("") != "" then Some("tool:" + e.toolCallId.value)
    else
      var name := h.compact(e.toolTitle.GetOr(e.text));
      var command := h.compact(e.command.GetOr(""));
      var hint := h.compact(DetailHint(firstLine));
      if name == "" && e.itemType.GetOr("") == "" && e.requestKind.GetOr("") == "" && e.toolName.GetOr("") == "" && hint == "" then
        if command != "" then Some("command-only" + SEPARATOR + command) else None
      else
        Some(e.itemType.GetOr("") + SEPARATOR + name + SEPARATOR + e.requestKind.GetOr("") + SEPARATOR + e.toolName.GetOr("") + SEPARATOR + hint)
  }

  // ----- which neighbours belong together -----

  function Files(e: Entry): seq<string> {
    e.changedFiles.GetOr([])
  }

  predicate FilesAgree(p: Entry, n: Entry) {
    Files(p) == [] || Files(n) == [] || exists f <- Files(p) :: f in Files(n)
  }

  predicate CommandsAgree(p: Entry, n: Entry) {
    var a, b := p.collapseCommand.GetOr(""), n.collapseCommand.GetOr("");
    a == "" || b == "" || StartsWith(a, b) || StartsWith(b, a)
  }

  /** shouldCollapseToolLifecycleEntries */
  predicate Joins<T>(h: Helpers<T>, p: Entry<T>, n: Entry<T>) {
    && Lifecycle(p) && Lifecycle(n) && !p.kind.ToolCompleted?
    && if p.collapseKey.Some? && p.collapseKey == n.collapseKey then
         StartsWith(p.collapseKey.value, "tool:") || (FilesAgree(p, n) && CommandsAgree(p, n))
       else
         && p.toolCallId.Some? && n.toolCallId.None? && p.itemType == n.itemType
         && h.compact(p.toolTitle.GetOr(p.text)) == h.compact(n.toolTitle.GetOr(n.text))
         && FilesAgree(p, n) && CommandsAgree(p, n)
  }

  // ----- merging two entries -----

  function Later<T>(p: Option<T>, n: Option<T>): Option<T> {
    if n.Some? then n else p
  }

  function MergeFiles(p: Option<seq<string>>, n: Option<seq<string>>): Option<seq<string>> {
    var merged := Dedup(p.GetOr([]) + n.GetOr([]));
    if merged != [] then Some(merged) else Later(p, n)
  }

  predicate AgentCall(e: Entry) {
    e.itemType == Some(AGENT_CALL)
  }

  /** The later title, but an agent's telling title is not given up for one that says nothing. */
  function MergeTitle<T>(h: Helpers<T>, p: Entry<T>, n: Entry<T>): Option<string> {
    if p.toolTitle.GetOr("") == "" || n.toolTitle.GetOr("") == "" then Later(p.toolTitle, n.toolTitle)
    else if (AgentCall(p) || AgentCall(n)) && !h.generic(p.toolTitle.value) && h.generic(n.toolTitle.value) then p.toolTitle
    else n.toolTitle
  }

  /** mergeDerivedWorkLogEntries */
  function MergeEntries<T>(h: Helpers<T>, p: Entry<T>, n: Entry<T>): Entry<T> {
    Entry(n.id, n.createdAt, n.kind, n.text, n.tone,
          Later(p.turnId, n.turnId), Later(p.detail, n.detail), Later(p.command, n.command), Later(p.rawCommand, n.rawCommand),
          Later(p.preview, n.preview), MergeTitle(h, p, n), Later(p.toolName, n.toolName), Later(p.toolCallId, n.toolCallId),
          Later(p.itemType, n.itemType), Later(p.requestKind, n.requestKind), MergeFiles(p.changedFiles, n.changedFiles),
          if p.toolDetails.Some? && n.toolDetails.Some? then Some(h.joinDetails(p.toolDetails.value, n.toolDetails.value))
          else Later(p.toolDetails, n.toolDetails),
          Later(p.subagents, n.subagents), Later(p.subagentAction, n.subagentAction), Later(p.automation, n.automation),
          Later(p.collapseKey, n.collapseKey), Later(p.collapseCommand, n.collapseCommand))
  }

  // ----- collapsing -----

  /** One more entry becomes a row of its own or changes the last row, and no other. */
  function Push<T>(h: Helpers<T>, rows: seq<Entry<T>>, e: Entry<T>): seq<Entry<T>> {
    if rows != [] && Joins(h, rows[|rows| - 1], e) then
      rows[..|rows| - 1] + [MergeEntries(h, rows[|rows| - 1], e)]
    else rows + [e]
  }

  function Collapse<T>(h: Helpers<T>, entries: seq<Entry<T>>): (rows: seq<Entry<T>>)
    ensures rows == [] <==> entries == []
  {
    if entries == [] then [] else Push(h, Collapse(h, entries[..|entries| - 1]), entries[|entries| - 1])
  }

  /** collapseDerivedWorkLogEntries, overwriting the last slot. */
  method CollapseEntries<T>(h: Helpers<T>, entries: seq<Entry<T>>) returns (collapsed: seq<Entry<T>>)
    ensures collapsed == Collapse(h, entries)
  {
    hide Joins, MergeEntries;
    collapsed := [];
    for i := 0 to |entries|
      invariant collapsed == Collapse(h, entries[..i])
    {
      assert entries[..i + 1][..i] == entries[..i];
      if |collapsed| > 0 && Joins(h, collapsed[|collapsed| - 1], entries[i]) {
        collapsed := collapsed[|collapsed| - 1 := MergeEntries(h, collapsed[|collapsed| - 1], entries[i])];
      } else {
        collapsed := collapsed + [entries[i]];
      }
    }
    assert entries[..|entries|] == entries;
  }

  // ----- every row is the blend of one run -----

  /** A run of entries merged one into the next. */
  function Blend<T>(h: Helpers<T>, run: seq<Entry<T>>): Entry<T>
    requires run != []
  {
    if |run| == 1 then run[0] else MergeEntries(h, Blend(h, run[..|run| - 1]), run[|run| - 1])
  }

  function Concat<X>(parts: seq<seq<X>>): seq<X> {
    if parts == [] then [] else Concat(parts[..|parts| - 1]) + parts[|parts| - 1]
  }

  /** The runs behind the rows. */
  function Runs<T>(h: Helpers<T>, entries: seq<Entry<T>>): (runs: seq<seq<Entry<T>>>)
    ensures |runs| == |Collapse(h, entries)|
  {
    if entries == [] then []
    else
      var front, e := entries[..|entries| - 1], entries[|entries| - 1];
      var rows, runs := Collapse(h, front), Runs(h, front);
      if rows != [] && Joins(h, rows[|rows| - 1], e) then runs[..|runs| - 1] + [runs[|runs| - 1] + [e]]
      else runs + [[e]]
  }

  lemma {:induction false} ConcatSnoc<X>(parts: seq<seq<X>>, last: seq<X>)
    ensures Concat(parts + [last]) == Concat(parts) + last
  {
    assert (parts + [last])[..|parts|] == parts;
  }

  /** Each row stands in a relation to its run. */
  predicate Paired<R, E>(rows: seq<R>, runs: seq<seq<E>>, fits: (R, seq<E>) -> bool) {
    |rows| == |runs| && forall i :: 0 <= i < |rows| ==> fits(rows[i], runs[i])
  }

  lemma PairedExtend<R, E>(rows: seq<R>, runs: seq<seq<E>>, fits: (R, seq<E>) -> bool, row: R, e: E)
    requires Paired(rows, runs, fits) && rows != [] && fits(row, runs[|runs| - 1] + [e])
    ensures Paired(rows[..|rows| - 1] + [row], runs[..|runs| - 1] + [runs[|runs| - 1] + [e]], fits)
  {
    PairedAppend(rows[..|rows| - 1], runs[..|runs| - 1], fits, row, runs[|runs| - 1] + [e]);
  }

  lemma PairedAppend<R, E>(rows: seq<R>, runs: seq<seq<E>>, fits: (R, seq<E>) -> bool, row: R, run: seq<E>)
    requires Paired(rows, runs, fits) && fits(row, run)
    ensures Paired(rows + [row], runs + [run], fits)
  {
  }

  lemma ConcatExtend<E>(front: seq<seq<E>>, last: seq<E>, e: E)
    ensures Concat(front + [last + [e]]) == Concat(front + [last]) + [e]
  {
    ConcatSnoc(front, last);
    ConcatSnoc(front, last + [e]);
    hide *;
    var joined := Concat(front);
    assert joined + (last + [e]) == (joined + last) + [e];
  }

  function IsBlend<T(==)>(h: Helpers<T>): (Entry<T>, seq<Entry<T>>) -> bool {
    (row: Entry<T>, run: seq<Entry<T>>) => run != [] && row == Blend(h, run)
  }

  lemma BlendSnoc<T>(h: Helpers<T>, run: seq<Entry<T>>, e: Entry<T>)
    requires run != []
    ensures Blend(h, run + [e]) == MergeEntries(h, Blend(h, run), e)
  {
    hide MergeEntries;
    assert (run + [e])[..|run|] == run;
  }

  lemma IsBlendIff<T>(h: Helpers<T>, row: Entry<T>, run: seq<Entry<T>>)
    ensures IsBlend(h)(row, run) <==> run != [] && row == Blend(h, run)
  {
    hide Blend;
  }

  lemma BlendOne<T>(h: Helpers<T>, e: Entry<T>)
    ensures IsBlend(h)(e, [e])
  {
    hide MergeEntries;
    assert Blend(h, [e]) == e;
  }

  lemma BlendMore<T>(h: Helpers<T>, row: Entry<T>, run: seq<Entry<T>>, e: Entry<T>)
    requires IsBlend(h)(row, run)
    ensures IsBlend(h)(MergeEntries(h, row, e), run + [e])
  {
    hide *;
    IsBlendIff(h, row, run);
    BlendSnoc(h, run, e);
    IsBlendIff(h, MergeEntries(h, row, e), run + [e]);
  }

  /** The rows are the blends of contiguous runs, which together are all entries in order. */
  lemma {:induction false} RowsAreRuns<T>(h: Helpers<T>, entries: seq<Entry<T>>)
    ensures Concat(Runs(h, entries)) == entries && Paired(Collapse(h, entries), Runs(h, entries), IsBlend(h))
  {
    hide Joins, MergeEntries, Concat, Blend, Paired;
    if entries == [] {
      ConcatNothing<Entry<T>>();
      PairedNothing(Collapse(h, entries), Runs(h, entries), IsBlend(h));
    } else {
      var front, e := entries[..|entries| - 1], entries[|entries| - 1];
      RowsAreRuns(h, front);
      assert entries == front + [e];
      var rows, runs := Collapse(h, front), Runs(h, front);
      if rows != [] && Joins(h, rows[|rows| - 1], e) {
        LastPair(rows, runs, IsBlend(h));
        BlendMore(h, rows[|rows| - 1], runs[|runs| - 1], e);
        PairedExtend(rows, runs, IsBlend(h), MergeEntries(h, rows[|rows| - 1], e), e);
        var before, last := runs[..|runs| - 1], runs[|runs| - 1];
        ConcatExtend(before, last, e);
        assert runs == before + [last];
      } else {
        BlendOne(h, e);
        PairedAppend(rows, runs, IsBlend(h), e, [e]);
        ConcatSnoc(runs, [e]);
      }
    }
  }

  lemma LastPair<R, E>(rows: seq<R>, runs: seq<seq<E>>, fits: (R, seq<E>) -> bool)
    requires Paired(rows, runs, fits) && rows != []
    ensures fits(rows[|rows| - 1], runs[|runs| - 1])
  {
  }

  lemma PairedNothing<R, E>(rows: seq<R>, runs: seq<seq<E>>, fits: (R, seq<E>) -> bool)
    requires rows == [] && runs == []
    ensures Paired(rows, runs, fits)
  {
  }

  lemma ConcatNothing<X>()
    ensures Concat<X>([]) == []
  {
  }

  // ----- what a blend carries -----

  /** The last value a run defines. */
  function LastDefined<T, V>(run: seq<Entry<T>>, get: Entry<T> -> Option<V>): Option<V> {
    if run == [] then None else Later(LastDefined(run[..|run| - 1], get), get(run[|run| - 1]))
  }

  /** Merging gives a field the later value, where it has one. */
  ghost predicate LaterWins<T(!new), V>(h: Helpers<T>, get: Entry<T> -> Option<V>) {
    forall p, n :: get(MergeEntries(h, p, n)) == Later(get(p), get(n))
  }

  lemma MergeCarries<T(!new), V>(h: Helpers<T>, p: Entry<T>, n: Entry<T>, get: Entry<T> -> Option<V>)
    requires LaterWins(h, get)
    ensures get(MergeEntries(h, p, n)) == Later(get(p), get(n))
  {
    hide MergeEntries, Later;
  }

  lemma LastOfOne<T, V>(e: Entry<T>, get: Entry<T> -> Option<V>)
    ensures LastDefined([e], get) == get(e)
  {
    assert [e][..0] == [];
    assert LastDefined([e][..0], get) == None;
  }

  lemma {:induction false} BlendCarries<T(!new), V>(h: Helpers<T>, run: seq<Entry<T>>, get: Entry<T> -> Option<V>)
    requires run != [] && LaterWins(h, get)
    ensures get(Blend(h, run)) == LastDefined(run, get)
    decreases |run|
  {
    hide MergeEntries, LaterWins, Later;
    if |run| == 1 {
      LastOfOne(run[0], get);
      assert run == [run[0]];
    } else {
      BlendCarries(h, run[..|run| - 1], get);
      MergeCarries(h, Blend(h, run[..|run| - 1]), run[|run| - 1], get);
    }
  }

  function AllFiles<T>(run: seq<Entry<T>>): seq<string> {
    if run == [] then [] else AllFiles(run[..|run| - 1]) + Files(run[|run| - 1])
  }

  lemma {:induction false} DedupConcat(a: seq<string>, b: seq<string>)
    ensures Dedup(Dedup(a) + b) == Dedup(a + b)
    decreases |b|
  {
    if b == [] {
      assert a + b == a && Dedup(a) + b == Dedup(a);
    } else {
      var front, x := b[..|b| - 1], b[|b| - 1];
      DedupConcat(a, front);
      assert (a + b)[..|a + b| - 1] == a + front && (Dedup(a) + b)[..|Dedup(a) + b| - 1] == Dedup(a) + front;
    }
  }

  lemma {:induction false} BlendFiles<T>(h: Helpers<T>, run: seq<Entry<T>>)
    requires |run| >= 2
    ensures Files(Blend(h, run)) == Dedup(AllFiles(run))
    decreases |run|
  {
    hide Dedup, MergeTitle;
    var front, e := run[..|run| - 1], run[|run| - 1];
    MergedFiles(h, Blend(h, front), e);
    if |run| == 2 {
      assert AllFiles(front) == AllFiles(front[..0]) + Files(front[0]);
      assert front[..0] == [] && [] + Files(front[0]) == Files(front[0]);
    } else {
      BlendFiles(h, front);
      DedupConcat(AllFiles(front), Files(e));
    }
  }

  lemma MergedFiles<T>(h: Helpers<T>, p: Entry<T>, n: Entry<T>)
    ensures Files(MergeEntries(h, p, n)) == Dedup(Files(p) + Files(n))
  {
    hide MergeTitle;
    var all := Files(p) + Files(n);
    if all != [] {
      assert all[0] in Dedup(all);
    }
  }

  /**
   * A row says when and what its last entry said, carries the last defined value of every other field,
   * and lists the files of its run once each.
   */
  lemma RowCarries<T(!new)>(h: Helpers<T>, run: seq<Entry<T>>)
    requires run != []
    ensures var row, last := Blend(h, run), run[|run| - 1];
            && row.id == last.id && row.createdAt == last.createdAt && row.kind == last.kind && row.text == last.text && row.tone == last.tone
            && row.turnId == LastDefined(run, (e: Entry<T>) => e.turnId)
            && row.detail == LastDefined(run, (e: Entry<T>) => e.detail)
            && row.command == LastDefined(run, (e: Entry<T>) => e.command)
            && row.rawCommand == LastDefined(run, (e: Entry<T>) => e.rawCommand)
            && row.preview == LastDefined(run, (e: Entry<T>) => e.preview)
            && row.toolName == LastDefined(run, (e: Entry<T>) => e.toolName)
            && row.toolCallId == LastDefined(run, (e: Entry<T>) => e.toolCallId)
            && row.itemType == LastDefined(run, (e: Entry<T>) => e.itemType)
            && row.requestKind == LastDefined(run, (e: Entry<T>) => e.requestKind)
            && row.subagents == LastDefined(run, (e: Entry<T>) => e.subagents)
            && row.subagentAction == LastDefined(run, (e: Entry<T>) => e.subagentAction)
            && row.automation == LastDefined(run, (e: Entry<T>) => e.automation)
            && row.collapseKey == LastDefined(run, (e: Entry<T>) => e.collapseKey)
            && row.collapseCommand == LastDefined(run, (e: Entry<T>) => e.collapseCommand)
            && (|run| >= 2 ==> Files(row) == Dedup(AllFiles(run)))
  {
    hide MergeFiles, MergeTitle, Dedup, AllFiles, LastDefined;
    BlendCarries(h, run, (e: Entry<T>) => e.turnId);
    BlendCarries(h, run, (e: Entry<T>) => e.detail);
    BlendCarries(h, run, (e: Entry<T>) => e.command);
    BlendCarries(h, run, (e: Entry<T>) => e.rawCommand);
    BlendCarries(h, run, (e: Entry<T>) => e.preview);
    BlendCarries(h, run, (e: Entry<T>) => e.toolName);
    BlendCarries(h, run, (e: Entry<T>) => e.toolCallId);
    BlendCarries(h, run, (e: Entry<T>) => e.itemType);
    BlendCarries(h, run, (e: Entry<T>) => e.requestKind);
    BlendCarries(h, run, (e: Entry<T>) => e.subagents);
    BlendCarries(h, run, (e: Entry<T>) => e.subagentAction);
    BlendCarries(h, run, (e: Entry<T>) => e.automation);
    BlendCarries(h, run, (e: Entry<T>) => e.collapseKey);
    BlendCarries(h, run, (e: Entry<T>) => e.collapseCommand);
    if |run| >= 2 {
      BlendFiles(h, run);
    }
  }

  /** Where no agent call is involved, the title is the last defined one too. */
  lemma {:induction false} RowTitle<T(!new)>(h: Helpers<T>, run: seq<Entry<T>>)
    requires run != [] && forall e <- run :: e.itemType != Some("collab_agent_tool_call")
    ensures Blend(h, run).toolTitle == LastDefined(run, (e: Entry<T>) => e.toolTitle)
    ensures Blend(h, run).itemType != Some("collab_agent_tool_call")
    decreases |run|
  {
    hide MergeFiles, Dedup;
    if |run| == 1 {
      assert LastDefined(run[..0], (e: Entry<T>) => e.toolTitle) == None;
      assert run[0] in run;
    } else {
      assert forall e <- run[..|run| - 1] :: e in run;
      assert run[|run| - 1] in run;
      RowTitle(h, run[..|run| - 1]);
    }
  }

  // ----- one tool call, one row -----

  lemma LastRow<T>(h: Helpers<T>, entries: seq<Entry<T>>)
    requires entries != []
    ensures var rows, last := Collapse(h, entries), entries[|entries| - 1];
            && rows[|rows| - 1].kind == last.kind
            && (last.collapseKey.Some? ==> rows[|rows| - 1].collapseKey == last.collapseKey)
  {
    hide Joins, MergeFiles, MergeTitle;
  }

  /** The row the i-th entry goes into. */
  function RowOf<T>(h: Helpers<T>, entries: seq<Entry<T>>, i: nat): nat
    requires i < |entries|
  {
    |Collapse(h, entries[..i + 1])| - 1
  }

  /** Neighbouring updates of one tool call share a row, until the call completes. */
  lemma SameCallSameRow<T>(h: Helpers<T>, entries: seq<Entry<T>>, i: nat)
    requires i + 1 < |entries|
    requires var e, f := entries[i], entries[i + 1];
             && Lifecycle(e) && Lifecycle(f) && !e.kind.ToolCompleted?
             && e.collapseKey.Some? && e.collapseKey == f.collapseKey && StartsWith(e.collapseKey.value, "tool:")
    ensures RowOf(h, entries, i) == RowOf(h, entries, i + 1)
  {
    hide MergeEntries, FilesAgree, CommandsAgree;
    LastRow(h, entries[..i + 1]);
    assert entries[..i + 2][..i + 1] == entries[..i + 1];
  }

  /** A stretch of updates of one tool call in which only the last may complete it gives one row. */
  lemma {:induction false} OneCallOneRow<T>(h: Helpers<T>, entries: seq<Entry<T>>, i: nat, j: nat)
    requires i <= j < |entries| && entries[i].collapseKey.Some? && StartsWith(entries[i].collapseKey.value, "tool:")
    requires forall k :: i <= k <= j ==> Lifecycle(entries[k]) && entries[k].collapseKey == entries[i].collapseKey
    requires forall k :: i <= k < j ==> !entries[k].kind.ToolCompleted?
    ensures RowOf(h, entries, i) == RowOf(h, entries, j)
    decreases j
  {
    hide RowOf;
    if i < j {
      OneCallOneRow(h, entries, i, j - 1);
      SameCallSameRow(h, entries, j - 1);
    }
  }

  /** A tool entry with a call id has that id's key, whatever else it says; an entry of another kind has none. */
  lemma CallKey<T>(e: Entry<T>, firstLine: string, h: Helpers<T>)
    ensures e.kind.OtherKind? ==> KeyOf(e, firstLine, h) == None
    ensures !e.kind.OtherKind? && e.toolCallId.GetOr("") != "" ==>
              KeyOf(e, firstLine, h) == Some("tool:" + e.toolCallId.value) && StartsWith(KeyOf(e, firstLine, h).value, "tool:")
  {
  }

  // ----- what streaming leaves alone -----

  /** While entries stream in, only the last row can change: every earlier row is final. */
  lemma {:induction false} CollapseStreams<T>(h: Helpers<T>, entries: seq<Entry<T>>, more: seq<Entry<T>>)
    ensures |Collapse(h, entries + more)| >= |Collapse(h, entries)|
    ensures entries != [] ==>
              var n := |Collapse(h, entries)|; Collapse(h, entries + more)[..n - 1] == Collapse(h, entries)[..n - 1]
    decreases |more|
  {
    hide Joins, MergeEntries;
    if more == [] {
      assert entries + more == entries;
    } else {
      CollapseStreams(h, entries, more[..|more| - 1]);
      assert (entries + more)[..|entries + more| - 1] == entries + more[..|more| - 1];
    }
  }

  /** Once an entry is no running tool call, what follows is collapsed apart from what came before. */
  lemma {:induction false} SettledSplits<T>(h: Helpers<T>, a: seq<Entry<T>>, b: seq<Entry<T>>)
    requires a != [] && a[|a| - 1].kind in {ToolCompleted, OtherKind}
    ensures Collapse(h, a + b) == Collapse(h, a) + Collapse(h, b)
    decreases |b|
  {
    if b == [] {
      assert a + b == a;
    } else {
      var front, last := b[..|b| - 1], b[|b| - 1];
      SettledSplits(h, a, front);
      assert (a + b)[..|a + b| - 1] == a + front && (a + b)[|a + b| - 1] == last;
      if front == [] {
        assert a + front == a;
        LastRow(h, a);
      }
      PushApart(h, Collapse(h, a), Collapse(h, front), last);
    }
  }

  lemma PushApart<T>(h: Helpers<T>, left: seq<Entry<T>>, right: seq<Entry<T>>, e: Entry<T>)
    requires right == [] ==> left == [] || !Joins(h, left[|left| - 1], e)
    ensures Push(h, left + right, e) == left + Push(h, right, e)
  {
    hide Joins, MergeEntries;
  }
}
