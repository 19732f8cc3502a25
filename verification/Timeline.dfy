/** The timeline of a thread: messages, plans and work merged in two stages. */
module Timeline {
  import opened Wrappers
  import opened StableSort
  import opened Activities

  datatype Message = Message(id: string, assistant: bool, turnId: Option<string>, text: string, createdAt: Text)
  datatype Plan = Plan(id: string, turnId: Option<string>, createdAt: Text, markdown: string)
  datatype Work = Work(id: string, createdAt: Text, title: string)

  datatype Row =
    | MessageRow(message: Message)
    | PlanRow(plan: Plan)
    | WorkRow(work: Work)
  {
    function CreatedAt(): Text {
      match this
      case MessageRow(m) => m.createdAt
      case PlanRow(p) => p.createdAt
      case WorkRow(w) => w.createdAt
    }
  }

  /** compareTimelineEntries(left, right) <= 0 */
  predicate NotLater(left: Row, right: Row) {
    LocaleCompare(left.CreatedAt(), right.CreatedAt()) <= 0
  }

  lemma NotLaterIsPreorder()
    ensures Preorder(NotLater)
  {
  }

  // ----- the rows -----

  function PlanTurns(plans: seq<Plan>): set<string> {
    set p | p in plans && Truthy(p.turnId).Some? :: p.turnId.value
  }

  /** What a message shows: an assistant message of a plan's turn without its plan blocks, or nothing if only they were there. */
  function Shown(m: Message, planTurns: set<string>, strip: string -> string): seq<Row> {
    if m.assistant && Truthy(m.turnId).Some? && m.turnId.value in planTurns then
      var text := strip(m.text);
      if text == "" then [] else [MessageRow(m.(text := text))]
    else [MessageRow(m)]
  }

  function MessageRows(messages: seq<Message>, planTurns: set<string>, strip: string -> string): seq<Row> {
    if messages == [] then []
    else MessageRows(messages[..|messages| - 1], planTurns, strip) + Shown(messages[|messages| - 1], planTurns, strip)
  }

  function PlanRows(plans: seq<Plan>): seq<Row> {
    seq(|plans|, i requires 0 <= i < |plans| => PlanRow(plans[i]))
  }

  function WorkRows(work: seq<Work>): seq<Row> {
    seq(|work|, i requires 0 <= i < |work| => WorkRow(work[i]))
  }

  function AllRows(messages: seq<Message>, plans: seq<Plan>, work: seq<Work>, strip: string -> string): seq<Row> {
    MessageRows(messages, PlanTurns(plans), strip) + PlanRows(plans) + WorkRows(work)
  }

  /**
   * deriveTimelineEntries: three lists sorted only where their neighbours demand it, then merged
   * pairwise, give the one stable sort of messages, then plans, then work.
   */
  method DeriveTimeline(messages: seq<Message>, plans: seq<Plan>, work: seq<Work>, strip: string -> string) returns (rows: seq<Row>)
    ensures rows == Sort(AllRows(messages, plans, work, strip), NotLater)
  {
    NotLaterIsPreorder();
    var planTurns := PlanTurns(plans);
    var messageRows: seq<Row> := [];
    for i := 0 to |messages|
      invariant messageRows == MessageRows(messages[..i], planTurns, strip)
    {
      assert messages[..i + 1][..i] == messages[..i];
      messageRows := messageRows + Shown(messages[i], planTurns, strip);
    }
    assert messages[..|messages|] == messages;
    var m := SortIfNeeded(messageRows, NotLater);
    var p := SortIfNeeded(PlanRows(plans), NotLater);
    var w := SortIfNeeded(WorkRows(work), NotLater);
    var conversation := MergeByIndex(m, p, NotLater);
    rows := MergeByIndex(conversation, w, NotLater);
    MergeIsSort(messageRows, PlanRows(plans), NotLater);
    MergeIsSort(messageRows + PlanRows(plans), WorkRows(work), NotLater);
  }

  /** So the timeline is in time order, has every row once, and keeps the three lists' order among rows of one time. */
  lemma TimelineIsStable(messages: seq<Message>, plans: seq<Plan>, work: seq<Work>, strip: string -> string)
    ensures var all, rows := AllRows(messages, plans, work, strip), Sort(AllRows(messages, plans, work, strip), NotLater);
            && Sorted(rows, NotLater) && multiset(rows) == multiset(all) && StablePermutation(rows, all, NotLater)
  {
    NotLaterIsPreorder();
    var all := AllRows(messages, plans, work, strip);
    SortIsStable(all, NotLater);
    StablePermutationIsPermutation(Sort(all, NotLater), all, NotLater);
  }

  // ----- which rows, in which order -----

  function Place(row: Row): real {
    match row
    case MessageRow(m) => m.createdAt.place
    case PlanRow(p) => p.createdAt.place
    case WorkRow(w) => w.createdAt.place
  }

  /** Messages before plans before work. */
  function Rank(row: Row): int {
    match row case MessageRow(_) => 0 case PlanRow(_) => 1 case WorkRow(_) => 2
  }

  /** A message of the assistant in a turn that has a plan. */
  predicate Planned(m: Message, plans: seq<Plan>) {
    m.assistant && m.turnId.Some? && m.turnId.value != "" && exists p <- plans :: p.turnId == m.turnId
  }

  /** The message is shown as this one: as it is, or without its plan blocks if something is left then. */
  predicate ShownAs(m: Message, x: Message, plans: seq<Plan>, strip: string -> string) {
    if Planned(m, plans) then strip(m.text) != "" && x == m.(text := strip(m.text)) else x == m
  }

  lemma ShownIs(m: Message, x: Message, plans: seq<Plan>, strip: string -> string)
    ensures MessageRow(x) in Shown(m, PlanTurns(plans), strip) <==> ShownAs(m, x, plans, strip)
  {
    assert Planned(m, plans) <==> m.assistant && Truthy(m.turnId).Some? && m.turnId.value in PlanTurns(plans) by {
      if m.turnId.Some? && m.turnId.value in PlanTurns(plans) {
        var p :| p in plans && Truthy(p.turnId).Some? && p.turnId.value == m.turnId.value;
        assert p.turnId == m.turnId;
      }
    }
  }

  lemma {:induction false} MessageRowsAre(messages: seq<Message>, x: Message, plans: seq<Plan>, strip: string -> string)
    ensures var rows := MessageRows(messages, PlanTurns(plans), strip);
            (MessageRow(x) in rows <==> exists m <- messages :: ShownAs(m, x, plans, strip)) && forall r <- rows :: Rank(r) == 0
  {
    hide ShownAs, PlanTurns;
    if messages != [] {
      var front, last := messages[..|messages| - 1], messages[|messages| - 1];
      MessageRowsAre(front, x, plans, strip);
      ShownIs(last, x, plans, strip);
      assert messages == front + [last];
    }
  }

  /** The rows are every plan, every piece of work and every message that has something to show, and no others. */
  lemma TimelineRows(messages: seq<Message>, plans: seq<Plan>, work: seq<Work>, strip: string -> string)
    ensures var rows := Sort(AllRows(messages, plans, work, strip), NotLater);
            && (forall p :: PlanRow(p) in rows <==> p in plans)
            && (forall w :: WorkRow(w) in rows <==> w in work)
            && (forall x :: MessageRow(x) in rows <==> exists m <- messages :: ShownAs(m, x, plans, strip))
  {
    hide ShownAs, Sort, MessageRows, PlanTurns;
    forall x
      ensures MessageRow(x) in MessageRows(messages, PlanTurns(plans), strip) <==> exists m <- messages :: ShownAs(m, x, plans, strip)
    {
      MessageRowsAre(messages, x, plans, strip);
    }
    MessageRowsAre(messages, Message("", false, None, "", Text("", 0.0)), plans, strip);
    forall p
      ensures PlanRow(p) in PlanRows(plans) <==> p in plans
    {
      if p in plans {
        var i :| 0 <= i < |plans| && plans[i] == p;
        assert PlanRows(plans)[i] == PlanRow(p);
      }
    }
    forall w
      ensures WorkRow(w) in WorkRows(work) <==> w in work
    {
      if w in work {
        var i :| 0 <= i < |work| && work[i] == w;
        assert WorkRows(work)[i] == WorkRow(w);
      }
    }
  }

  predicate ByRank(rows: seq<Row>) {
    forall i, j :: 0 <= i < j < |rows| ==> Rank(rows[i]) <= Rank(rows[j])
  }

  lemma RowsByRank(messages: seq<Message>, plans: seq<Plan>, work: seq<Work>, strip: string -> string)
    ensures ByRank(AllRows(messages, plans, work, strip))
  {
    MessageRowsAre(messages, Message("", false, None, "", Text("", 0.0)), plans, strip);
    hide MessageRows, PlanTurns;
  }

  lemma {:induction false} ClassByRank(rows: seq<Row>, x: Row)
    requires ByRank(rows)
    ensures ByRank(Class(rows, x, NotLater)) && forall r <- Class(rows, x, NotLater) :: r in rows
  {
    if rows != [] {
      var rest := rows[1..];
      assert forall i :: 0 <= i < |rest| ==> rest[i] == rows[i + 1];
      ClassByRank(rest, x);
      assert forall r <- rest :: Rank(rows[0]) <= Rank(r) by {
        forall r <- rest
          ensures Rank(rows[0]) <= Rank(r)
        {
          var i :| 0 <= i < |rest| && rest[i] == r;
          assert rows[i + 1] == r;
        }
      }
    }
  }

  /** Of two places in a list, both alike x, the first comes first among those alike x. */
  lemma ClassKeepsOrder(rows: seq<Row>, i: nat, j: nat, x: Row)
    requires i < j < |rows| && Alike(rows[i], x, NotLater) && Alike(rows[j], x, NotLater)
    ensures exists a, b :: 0 <= a < b < |Class(rows, x, NotLater)| && Class(rows, x, NotLater)[a] == rows[i] && Class(rows, x, NotLater)[b] == rows[j]
  {
    hide Class, Alike, NotLater;
    var before, middle, after := rows[..i], rows[i + 1..j], rows[j + 1..];
    assert rows == before + ([rows[i]] + (middle + ([rows[j]] + after)));
    ClassConcat(before, [rows[i]] + (middle + ([rows[j]] + after)), x, NotLater);
    ClassConcat([rows[i]], middle + ([rows[j]] + after), x, NotLater);
    ClassConcat(middle, [rows[j]] + after, x, NotLater);
    ClassConcat([rows[j]], after, x, NotLater);
    ClassOne(rows[i], x, NotLater);
    ClassOne(rows[j], x, NotLater);
    var c, a := Class(rows, x, NotLater), |Class(before, x, NotLater)|;
    var b := a + 1 + |Class(middle, x, NotLater)|;
    assert c[a] == rows[i] && c[b] == rows[j];
  }

  /** The rows are in the order of their times; at one time messages come before plans and plans before work. */
  lemma TimelineOrder(messages: seq<Message>, plans: seq<Plan>, work: seq<Work>, strip: string -> string, i: nat, j: nat)
    requires i < j < |Sort(AllRows(messages, plans, work, strip), NotLater)|
    ensures var rows := Sort(AllRows(messages, plans, work, strip), NotLater);
            Place(rows[i]) <= Place(rows[j]) && (Place(rows[i]) == Place(rows[j]) ==> Rank(rows[i]) <= Rank(rows[j]))
  {
    NotLaterIsPreorder();
    var all := AllRows(messages, plans, work, strip);
    var rows := Sort(all, NotLater);
    SortIsStable(all, NotLater);
    RowsByRank(messages, plans, work, strip);
    hide Sort, AllRows, ByRank, Rank;
    assert NotLater(rows[i], rows[j]);
    if Place(rows[i]) == Place(rows[j]) {
      var x := rows[i];
      ClassKeepsOrder(rows, i, j, x);
      ClassByRank(all, x);
      assert Class(rows, x, NotLater) == Class(all, x, NotLater);
      RankedPair(Class(all, x, NotLater), rows[i], rows[j]);
    }
  }

  lemma RankedPair(s: seq<Row>, x: Row, y: Row)
    requires ByRank(s) && exists a, b :: 0 <= a < b < |s| && s[a] == x && s[b] == y
    ensures Rank(x) <= Rank(y)
  {
  }
}
