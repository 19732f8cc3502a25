/** The order of thread activities, and the requests still pending after them. */
module Activities {
  import opened Wrappers
  import opened StableSort

  /** A text with its place in the collation localeCompare uses; different texts may share a place. */
  datatype Text = Text(text: string, place: real)

  function LocaleCompare(a: Text, b: Text): int {
    if a.place < b.place then -1 else if a.place > b.place then 1 else 0
  }

  datatype Question = Question(id: string, header: string, question: string, options: seq<(string, string)>, multiSelect: bool)

  /** The payload fields read here; a question that does not parse is None. */
  datatype Payload = Payload(requestId: Option<string>, requestKind: Option<string>, requestType: Option<string>,
                             detail: Option<string>, questions: Option<seq<Option<Question>>>)

  datatype Activity = Activity(id: Text, kind: string, sequence: Option<int>, createdAt: Text, payload: Option<Payload>)

  // ----- the order -----

  predicate EndsWith(s: string, suffix: string) {
    |suffix| <= |s| && s[|s| - |suffix|..] == suffix
  }

  function LifecycleRank(kind: string): int {
    if EndsWith(kind, ".started") then 0
    else if EndsWith(kind, ".progress") || EndsWith(kind, ".updated") then 1
    else if EndsWith(kind, ".completed") || EndsWith(kind, ".resolved") then 2
    else 1
  }

  /** compareActivitiesByOrder */
  function Compare(a: Activity, b: Activity): int {
    if a.sequence.Some? && b.sequence.Some? && a.sequence.value != b.sequence.value then
      a.sequence.value - b.sequence.value
    else if a.sequence.Some? && b.sequence.None? then 1
    else if a.sequence.None? && b.sequence.Some? then -1
    else if LocaleCompare(a.createdAt, b.createdAt) != 0 then LocaleCompare(a.createdAt, b.createdAt)
    else if LifecycleRank(a.kind) != LifecycleRank(b.kind) then LifecycleRank(a.kind) - LifecycleRank(b.kind)
    else LocaleCompare(a.id, b.id)
  }

  predicate NotAfter(a: Activity, b: Activity) {
    Compare(a, b) <= 0
  }

  /** The comparison is a total preorder: a sort may rely on it. */
  lemma CompareIsPreorder()
    ensures Preorder(NotAfter)
    ensures forall a, b :: Compare(a, b) < 0 <==> Compare(b, a) > 0
  {
    hide LifecycleRank;
  }

  // ----- an insertion-ordered map -----

  type Entries<V> = seq<(string, V)>

  /** Map.set: a key already there keeps its place. */
  function Put<V>(m: Entries<V>, key: string, value: V): Entries<V> {
    if m == [] then [(key, value)]
    else if m[0].0 == key then [(key, value)] + m[1..]
    else [m[0]] + Put(m[1..], key, value)
  }

  /** Map.delete */
  function Delete<V>(m: Entries<V>, key: string): Entries<V> {
    if m == [] then []
    else if m[0].0 == key then m[1..]
    else [m[0]] + Delete(m[1..], key)
  }

  predicate KeysDiffer<V>(m: Entries<V>) {
    forall i, j :: 0 <= i < j < |m| ==> m[i].0 != m[j].0
  }

  lemma {:induction false} PutIs<V(!new)>(m: Entries<V>, key: string, value: V)
    requires KeysDiffer(m)
    ensures KeysDiffer(Put(m, key, value))
    ensures forall e :: e in Put(m, key, value) <==> e == (key, value) || (e in m && e.0 != key)
  {
    if m != [] && m[0].0 != key {
      PutIs(m[1..], key, value);
      assert m == [m[0]] + m[1..];
      assert forall e <- Put(m[1..], key, value) :: e.0 != m[0].0;
    } else if m != [] {
      assert m == [m[0]] + m[1..];
    }
  }

  lemma ConsKeys<V(!new)>(e: (string, V), rest: Entries<V>)
    requires KeysDiffer(rest) && forall d <- rest :: d.0 != e.0
    ensures KeysDiffer([e] + rest)
  {
  }

  lemma DeleteStep<V(!new)>(m: Entries<V>, key: string)
    requires KeysDiffer(m) && m != []
    ensures KeysDiffer(m[1..]) && forall d <- m[1..] :: d.0 != m[0].0
    ensures forall e :: e in m <==> e == m[0] || e in m[1..]
  {
    assert m == [m[0]] + m[1..];
  }

  lemma {:induction false} DeleteIs<V(!new)>(m: Entries<V>, key: string)
    requires KeysDiffer(m)
    ensures KeysDiffer(Delete(m, key))
    ensures forall e :: e in Delete(m, key) <==> e in m && e.0 != key
  {
    if m != [] {
      DeleteStep(m, key);
      if m[0].0 != key {
        DeleteIs(m[1..], key);
        ConsKeys(m[0], Delete(m[1..], key));
      }
    }
  }

  // ----- requests opened and closed by activities -----

  datatype Effect<V> = Opens(key: string, value: V) | Closes(key: string) | NoEffect

  predicate Touches<V>(e: Effect<V>, key: string) {
    !e.NoEffect? && e.key == key
  }

  function ApplyEffect<V>(m: Entries<V>, e: Effect<V>): Entries<V> {
    match e
    case Opens(key, value) => Put(m, key, value)
    case Closes(key) => Delete(m, key)
    case NoEffect => m
  }

  function Fold<V>(s: seq<Activity>, effect: Activity -> Effect<V>): Entries<V> {
    if s == [] then [] else ApplyEffect(Fold(s[..|s| - 1], effect), effect(s[|s| - 1]))
  }

  /** The activity at i opens the request with this value and nothing later touches it. */
  predicate LastOpens<V(==)>(s: seq<Activity>, effect: Activity -> Effect<V>, i: nat, key: string, value: V) {
    i < |s| && effect(s[i]) == Opens(key, value) && forall j :: i < j < |s| ==> !Touches(effect(s[j]), key)
  }

  ghost predicate LastOpened<V>(s: seq<Activity>, effect: Activity -> Effect<V>, key: string, value: V) {
    exists i: nat :: LastOpens(s, effect, i, key, value)
  }

  lemma {:induction false} FoldIs<V(!new)>(s: seq<Activity>, effect: Activity -> Effect<V>)
    ensures KeysDiffer(Fold(s, effect))
    ensures forall key, value :: (key, value) in Fold(s, effect) <==> LastOpened(s, effect, key, value)
  {
    if s != [] {
      var front, last := s[..|s| - 1], s[|s| - 1];
      FoldIs(front, effect);
      var m := Fold(front, effect);
      match effect(last) {
        case Opens(key, value) => PutIs(m, key, value);
        case Closes(key) => DeleteIs(m, key);
        case NoEffect =>
      }
      forall key, value
        ensures (key, value) in Fold(s, effect) <==> LastOpened(s, effect, key, value)
      {
        StillLast(s, effect, key, value);
      }
    }
  }

  lemma StillLast<V(!new)>(s: seq<Activity>, effect: Activity -> Effect<V>, key: string, value: V)
    requires s != []
    ensures LastOpened(s, effect, key, value) <==>
            || effect(s[|s| - 1]) == Opens(key, value)
            || (!Touches(effect(s[|s| - 1]), key) && LastOpened(s[..|s| - 1], effect, key, value))
  {
    var front, last := s[..|s| - 1], effect(s[|s| - 1]);
    if i: nat :| LastOpens(s, effect, i, key, value) {
      if i < |s| - 1 {
        assert LastOpens(front, effect, i, key, value);
      }
    }
    if last == Opens(key, value) {
      assert LastOpens(s, effect, |s| - 1, key, value);
    }
    if !Touches(last, key) {
      if i: nat :| LastOpens(front, effect, i, key, value) {
        assert LastOpens(s, effect, i, key, value);
      }
    }
  }

  lemma OneLastOpened<V>(s: seq<Activity>, effect: Activity -> Effect<V>, key: string, v: V, w: V)
    requires LastOpened(s, effect, key, v) && LastOpened(s, effect, key, w)
    ensures v == w
  {
    var i: nat :| LastOpens(s, effect, i, key, v);
    var j: nat :| LastOpens(s, effect, j, key, w);
    assert Touches(effect(s[i]), key) && Touches(effect(s[j]), key);
  }

  function Values<V>(m: Entries<V>): (vs: seq<V>)
    ensures |vs| == |m| && forall i :: 0 <= i < |m| ==> vs[i] == m[i].1
  {
    seq(|m|, i requires 0 <= i < |m| => m[i].1)
  }

  // ----- approvals -----

  datatype RequestKind = Command | FileRead | FileChange

  function KindFromType(requestType: Option<string>): Option<RequestKind> {
    match requestType
    case None => None
    case Some(t) =>
      if t == "command_execution_approval" || t == "exec_command_approval" then Some(Command)
      else if t == "file_read_approval" then Some(FileRead)
      else if t == "file_change_approval" || t == "apply_patch_approval" then Some(FileChange)
      else None
  }

  function KindOf(payload: Payload): Option<RequestKind> {
    match payload.requestKind
    case Some("command") => Some(Command)
    case Some("file-read") => Some(FileRead)
    case Some("file-change") => Some(FileChange)
    case _ => KindFromType(payload.requestType)
  }

  /** A text that is there and not empty. */
  function Truthy(t: Option<string>): Option<string> {
    if t == Some("") then None else t
  }

  datatype Approval = Approval(requestId: string, kind: RequestKind, createdAt: Text, detail: Option<string>)

  /** What an activity does to the open approvals; stale tells a failure that means the request is gone. */
  function ApprovalEffect(a: Activity, stale: string -> bool): Effect<Approval> {
    if a.payload.None? || Truthy(a.payload.value.requestId).None? then NoEffect
    else
      var p := a.payload.value;
      var id := p.requestId.value;
      if a.kind == "approval.requested" && KindOf(p).Some? then
        Opens(id, Approval(id, KindOf(p).value, a.createdAt, Truthy(p.detail)))
      else if a.kind == "approval.resolved" then Closes(id)
      else if a.kind == "provider.approval.respond.failed" && p.detail.Some? && stale(p.detail.value) then Closes(id)
      else NoEffect
  }

  function ApprovalEffects(stale: string -> bool): Activity -> Effect<Approval> {
    (a: Activity) => ApprovalEffect(a, stale)
  }

  function RaisedAt(p: Approval): Text {
    p.createdAt
  }

  // ----- user input -----

  datatype UserInput = UserInput(requestId: string, createdAt: Text, questions: seq<Question>)

  function Parsed(raw: seq<Option<Question>>): seq<Question> {
    if raw == [] then [] else (if raw[0].Some? then [raw[0].value] else []) + Parsed(raw[1..])
  }

  /** Of several questions the ones that parse are kept, one by one and in their order. */
  lemma {:induction false} ParsedIs(a: seq<Option<Question>>, b: seq<Option<Question>>, q: Question)
    ensures Parsed(a + b) == Parsed(a) + Parsed(b)
    ensures Parsed([Some(q)]) == [q] && Parsed([None]) == []
  {
    var one, none: seq<Option<Question>> := [Some(q)], [None];
    assert one[1..] == [] && none[1..] == [];
    if a == [] {
      assert a + b == b;
    } else {
      assert (a + b)[1..] == a[1..] + b;
      ParsedIs(a[1..], b, q);
    }
  }

  function UserInputEffect(a: Activity, stale: string -> bool): Effect<UserInput> {
    if a.payload.None? || Truthy(a.payload.value.requestId).None? then NoEffect
    else
      var p := a.payload.value;
      var id := p.requestId.value;
      if a.kind == "user-input.requested" then
        if p.questions.Some? && Parsed(p.questions.value) != [] then
          Opens(id, UserInput(id, a.createdAt, Parsed(p.questions.value)))
        else NoEffect
      else if a.kind == "user-input.resolved" then Closes(id)
      else if a.kind == "provider.user-input.respond.failed" && p.detail.Some? && stale(p.detail.value) then Closes(id)
      else NoEffect
  }

  function UserInputEffects(stale: string -> bool): Activity -> Effect<UserInput> {
    (a: Activity) => UserInputEffect(a, stale)
  }

  function AskedAt(p: UserInput): Text {
    p.createdAt
  }

  // ----- the pending lists -----

  function ByTime<V>(raised: V -> Text): (V, V) -> bool {
    (v: V, w: V) => LocaleCompare(raised(v), raised(w)) <= 0
  }

  /** derivePendingApprovals and derivePendingUserInputs, over what an activity does and when a request was raised. */
  function Pending<V(!new)>(activities: seq<Activity>, effect: Activity -> Effect<V>, raised: V -> Text): seq<V> {
    Sort(Values(Fold(Sort(activities, NotAfter), effect)), ByTime(raised))
  }

  function PendingApprovals(activities: seq<Activity>, stale: string -> bool): seq<Approval> {
    Pending(activities, ApprovalEffects(stale), RaisedAt)
  }

  function PendingUserInputs(activities: seq<Activity>, stale: string -> bool): seq<UserInput> {
    Pending(activities, UserInputEffects(stale), AskedAt)
  }

  method DerivePending<V(!new)>(activities: seq<Activity>, effect: Activity -> Effect<V>, raised: V -> Text) returns (pending: seq<V>)
    ensures pending == Pending(activities, effect, raised)
  {
    CompareIsPreorder();
    var ordered := SortIfNeeded(activities, NotAfter);
    var open: Entries<V> := [];
    for i := 0 to |ordered|
      invariant open == Fold(ordered[..i], effect)
    {
      assert ordered[..i + 1][..i] == ordered[..i];
      match effect(ordered[i]) {
        case Opens(key, value) => open := Put(open, key, value);
        case Closes(key) => open := Delete(open, key);
        case NoEffect =>
      }
    }
    assert ordered[..|ordered|] == ordered;
    pending := Sort(Values(open), ByTime(raised));
  }

  /**
   * A request is pending exactly when the last activity that touches it opens it, with that
   * activity's fields; the pending requests are in time order and one to an id.
   */
  lemma PendingIff<V(!new)>(activities: seq<Activity>, effect: Activity -> Effect<V>, raised: V -> Text, idOf: V -> string)
    requires forall a: Activity :: effect(a).Opens? ==> effect(a).key == idOf(effect(a).value)
    ensures var r, ordered := Pending(activities, effect, raised), Sort(activities, NotAfter);
            && (forall v :: v in r <==> LastOpened(ordered, effect, idOf(v), v))
            && (forall v <- r, w <- r :: idOf(v) == idOf(w) ==> v == w)
            && Sorted(r, ByTime(raised))
  {
    var ordered := Sort(activities, NotAfter);
    var m := Fold(ordered, effect);
    FoldIs(ordered, effect);
    SortIsStable(Values(m), ByTime(raised));
    hide Fold, Sort, KeysDiffer, LastOpened;
    forall v
      ensures v in Values(m) <==> LastOpened(ordered, effect, idOf(v), v)
    {
      if v in Values(m) {
        var k :| 0 <= k < |m| && m[k].1 == v;
        assert (m[k].0, v) in m;
        KeyIsId(ordered, effect, idOf, m[k].0, v);
      }
      if LastOpened(ordered, effect, idOf(v), v) {
        var k :| 0 <= k < |m| && m[k] == (idOf(v), v);
        assert Values(m)[k] == v;
      }
    }
    forall v <- Pending(activities, effect, raised), w <- Pending(activities, effect, raised) | idOf(v) == idOf(w)
      ensures v == w
    {
      OneLastOpened(ordered, effect, idOf(v), v, w);
    }
  }

  lemma KeyIsId<V(!new)>(s: seq<Activity>, effect: Activity -> Effect<V>, idOf: V -> string, key: string, v: V)
    requires forall a: Activity :: effect(a).Opens? ==> effect(a).key == idOf(effect(a).value)
    requires LastOpened(s, effect, key, v)
    ensures key == idOf(v)
  {
  }

  lemma SortedPlaces<V(!new)>(r: seq<V>, raised: V -> Text)
    requires Sorted(r, ByTime(raised))
    ensures forall i, j :: 0 <= i < j < |r| ==> raised(r[i]).place <= raised(r[j]).place
  {
    forall i, j | 0 <= i < j < |r|
      ensures raised(r[i]).place <= raised(r[j]).place
    {
      assert ByTime(raised)(r[i], r[j]);
    }
  }

  lemma PendingApprovalIff(activities: seq<Activity>, stale: string -> bool)
    ensures var r, ordered := PendingApprovals(activities, stale), Sort(activities, NotAfter);
            && (forall p :: p in r <==> LastOpened(ordered, ApprovalEffects(stale), p.requestId, p))
            && (forall p <- r, q <- r :: p.requestId == q.requestId ==> p == q)
            && (forall i, j :: 0 <= i < j < |r| ==> r[i].createdAt.place <= r[j].createdAt.place)
  {
    hide Pending, Sort, LastOpened, KindOf, Sorted;
    PendingIff(activities, ApprovalEffects(stale), RaisedAt, (p: Approval) => p.requestId);
    SortedPlaces(PendingApprovals(activities, stale), RaisedAt);
  }

  lemma PendingUserInputIff(activities: seq<Activity>, stale: string -> bool)
    ensures var r, ordered := PendingUserInputs(activities, stale), Sort(activities, NotAfter);
            && (forall p :: p in r <==> LastOpened(ordered, UserInputEffects(stale), p.requestId, p))
            && (forall p <- r, q <- r :: p.requestId == q.requestId ==> p == q)
            && (forall i, j :: 0 <= i < j < |r| ==> r[i].createdAt.place <= r[j].createdAt.place)
  {
    hide Pending, Sort, LastOpened, Parsed, Sorted;
    PendingIff(activities, UserInputEffects(stale), AskedAt, (p: UserInput) => p.requestId);
    SortedPlaces(PendingUserInputs(activities, stale), AskedAt);
  }

  /** When no two activities compare equal, the pending list does not depend on the order they arrive in. */
  lemma PendingForgetsOrder<V(!new)>(s: seq<Activity>, t: seq<Activity>, effect: Activity -> Effect<V>, raised: V -> Text)
    requires NoTies(s, NotAfter) && multiset(s) == multiset(t)
    ensures Pending(s, effect, raised) == Pending(t, effect, raised)
  {
    CompareIsPreorder();
    SortForgetsOrder(s, t, NotAfter);
  }

  // ----- in the activities' own terms -----

  predicate Concerns(a: Activity, id: string) {
    id != "" && a.payload.Some? && a.payload.value.requestId == Some(id)
  }

  function KindName(kind: RequestKind): string {
    match kind case Command => "command" case FileRead => "file-read" case FileChange => "file-change"
  }

  function KindTypes(kind: RequestKind): set<string> {
    match kind
    case Command => {"command_execution_approval", "exec_command_approval"}
    case FileRead => {"file_read_approval"}
    case FileChange => {"file_change_approval", "apply_patch_approval"}
  }

  /** The payload names this kind, or names none and has a type of this kind. */
  predicate NamesKind(p: Payload, kind: RequestKind) {
    || p.requestKind == Some(KindName(kind))
    || (p.requestKind !in {Some("command"), Some("file-read"), Some("file-change")}
        && p.requestType.Some? && p.requestType.value in KindTypes(kind))
  }

  lemma KindOfIff(p: Payload, kind: RequestKind)
    ensures KindOf(p) == Some(kind) <==> NamesKind(p, kind)
  {
  }

  /** A request for approval with these fields. */
  predicate AsksApproval(a: Activity, p: Approval) {
    && a.kind == "approval.requested" && Concerns(a, p.requestId)
    && NamesKind(a.payload.value, p.kind) && a.createdAt == p.createdAt
    && p.detail == (if a.payload.value.detail == Some("") then None else a.payload.value.detail)
  }

  /** A request for this approval, its answer, or a failure that means it is gone. */
  predicate MovesApproval(a: Activity, id: string, stale: string -> bool) {
    Concerns(a, id) &&
    (|| (a.kind == "approval.requested" && exists kind :: NamesKind(a.payload.value, kind))
     || a.kind == "approval.resolved"
     || (a.kind == "provider.approval.respond.failed" && a.payload.value.detail.Some? && stale(a.payload.value.detail.value)))
  }

  predicate LastAsksApproval(s: seq<Activity>, stale: string -> bool, i: nat, p: Approval) {
    i < |s| && AsksApproval(s[i], p) && forall j :: i < j < |s| ==> !MovesApproval(s[j], p.requestId, stale)
  }

  lemma ApprovalEffectMeans(a: Activity, stale: string -> bool, p: Approval)
    ensures ApprovalEffect(a, stale) == Opens(p.requestId, p) <==> AsksApproval(a, p)
    ensures p.requestId != "" ==> (Touches(ApprovalEffect(a, stale), p.requestId) <==> MovesApproval(a, p.requestId, stale))
  {
    hide KindOf, NamesKind;
    if a.payload.Some? {
      forall kind
        ensures KindOf(a.payload.value) == Some(kind) <==> NamesKind(a.payload.value, kind)
      {
        KindOfIff(a.payload.value, kind);
      }
    }
  }

  /** Pending: the last valid request, resolve or stale failure for its id is a request, and carries these fields. */
  lemma PendingApprovalMeans(activities: seq<Activity>, stale: string -> bool, p: Approval)
    ensures p in PendingApprovals(activities, stale) <==>
            exists i: nat :: LastAsksApproval(Sort(activities, NotAfter), stale, i, p)
  {
    hide PendingApprovals, Sort, ApprovalEffect, MovesApproval;
    PendingApprovalIff(activities, stale);
    var s := Sort(activities, NotAfter);
    forall a
      ensures ApprovalEffects(stale)(a) == Opens(p.requestId, p) <==> AsksApproval(a, p)
      ensures p.requestId != "" ==> (Touches(ApprovalEffects(stale)(a), p.requestId) <==> MovesApproval(a, p.requestId, stale))
    {
      ApprovalEffectMeans(a, stale, p);
    }
    forall i: nat
      ensures LastOpens(s, ApprovalEffects(stale), i, p.requestId, p) <==> LastAsksApproval(s, stale, i, p)
    {
    }
  }

  predicate AsksUser(a: Activity, p: UserInput) {
    && a.kind == "user-input.requested" && Concerns(a, p.requestId) && a.createdAt == p.createdAt
    && p.questions != [] && a.payload.value.questions.Some? && p.questions == Parsed(a.payload.value.questions.value)
  }

  predicate MovesUserInput(a: Activity, id: string, stale: string -> bool) {
    Concerns(a, id) &&
    (|| (a.kind == "user-input.requested" && a.payload.value.questions.Some? && Parsed(a.payload.value.questions.value) != [])
     || a.kind == "user-input.resolved"
     || (a.kind == "provider.user-input.respond.failed" && a.payload.value.detail.Some? && stale(a.payload.value.detail.value)))
  }

  predicate LastAsksUser(s: seq<Activity>, stale: string -> bool, i: nat, p: UserInput) {
    i < |s| && AsksUser(s[i], p) && forall j :: i < j < |s| ==> !MovesUserInput(s[j], p.requestId, stale)
  }

  lemma UserInputEffectMeans(a: Activity, stale: string -> bool, p: UserInput)
    ensures UserInputEffect(a, stale) == Opens(p.requestId, p) <==> AsksUser(a, p)
    ensures p.requestId != "" ==> (Touches(UserInputEffect(a, stale), p.requestId) <==> MovesUserInput(a, p.requestId, stale))
  {
    hide Parsed;
  }

  /** User input likewise, where a request none of whose questions parse counts for nothing. */
  lemma PendingUserInputMeans(activities: seq<Activity>, stale: string -> bool, p: UserInput)
    ensures p in PendingUserInputs(activities, stale) <==>
            exists i: nat :: LastAsksUser(Sort(activities, NotAfter), stale, i, p)
  {
    hide PendingUserInputs, Sort, UserInputEffect, MovesUserInput, Parsed;
    PendingUserInputIff(activities, stale);
    var s := Sort(activities, NotAfter);
    forall a
      ensures UserInputEffects(stale)(a) == Opens(p.requestId, p) <==> AsksUser(a, p)
      ensures p.requestId != "" ==> (Touches(UserInputEffects(stale)(a), p.requestId) <==> MovesUserInput(a, p.requestId, stale))
    {
      UserInputEffectMeans(a, stale, p);
    }
    forall i: nat
      ensures LastOpens(s, UserInputEffects(stale), i, p.requestId, p) <==> LastAsksUser(s, stale, i, p)
    {
    }
  }
}
