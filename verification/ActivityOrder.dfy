/** The order of activities in their own fields, and which of several has the last word on a request. */
module ActivityOrder {
  import opened Wrappers
  import opened StableSort
  import opened Activities

  /** Where in its life an activity of this kind stands: at the start, on the way, at the end. */
  function Stage(kind: string): int {
    if EndsWith(kind, ".started") then 0
    else if EndsWith(kind, ".completed") || EndsWith(kind, ".resolved") then 2
    else 1
  }

  /** Before the other by its sequence number; unnumbered ones come first. */
  predicate Lower(a: Activity, b: Activity) {
    match (a.sequence, b.sequence)
    case (Some(m), Some(n)) => m < n
    case (None, Some(_)) => true
    case _ => false
  }

  /** Before the other by number, else by time, else by stage, else by id. */
  predicate Earlier(a: Activity, b: Activity) {
    || Lower(a, b)
    || (a.sequence == b.sequence &&
        (|| a.createdAt.place < b.createdAt.place
         || (a.createdAt.place == b.createdAt.place &&
             (|| Stage(a.kind) < Stage(b.kind)
              || (Stage(a.kind) == Stage(b.kind) && a.id.place < b.id.place)))))
  }

  /** An ending is what stands last. */
  lemma EndsWithIff(kind: string, suffix: string)
    ensures EndsWith(kind, suffix) <==> exists front :: kind == front + suffix
  {
    if EndsWith(kind, suffix) {
      assert kind == kind[..|kind| - |suffix|] + suffix;
    }
  }

  lemma EndsAt(kind: string, suffix: string, k: nat)
    requires EndsWith(kind, suffix) && k < |suffix|
    ensures |suffix| <= |kind| && kind[|kind| - |suffix| + k] == suffix[k]
  {
    assert kind[|kind| - |suffix|..][k] == suffix[k];
  }

  /** Two endings that differ a few letters from the end. */
  lemma EndsOtherwise(kind: string, a: string, b: string, back: nat)
    requires 0 < back <= |a| && back <= |b| && a[|a| - back] != b[|b| - back]
    ensures EndsWith(kind, a) ==> !EndsWith(kind, b)
  {
    hide EndsWith;
    if EndsWith(kind, a) && EndsWith(kind, b) {
      EndsAt(kind, a, |a| - back);
      EndsAt(kind, b, |b| - back);
    }
  }

  lemma Endings(kind: string)
    ensures EndsWith(kind, ".progress") || EndsWith(kind, ".updated") ==>
              !EndsWith(kind, ".completed") && !EndsWith(kind, ".resolved")
  {
    hide EndsWith;
    EndsOtherwise(kind, ".progress", ".completed", 1);
    EndsOtherwise(kind, ".progress", ".resolved", 1);
    EndsOtherwise(kind, ".updated", ".completed", 4);
    EndsOtherwise(kind, ".updated", ".resolved", 4);
  }

  lemma RankIsStage(kind: string)
    ensures LifecycleRank(kind) == Stage(kind)
  {
    Endings(kind);
  }

  /** The comparison says exactly this. */
  lemma CompareIff(a: Activity, b: Activity)
    ensures Compare(a, b) < 0 <==> Earlier(a, b)
    ensures Compare(a, b) <= 0 <==> !Earlier(b, a)
  {
    hide LifecycleRank, Stage;
    RankIsStage(a.kind);
    RankIsStage(b.kind);
  }

  /** In the ordered list: numbered activities last, by number; then by time; then by stage; then by id. */
  lemma OrderedFields(activities: seq<Activity>, i: nat, j: nat)
    requires i < j < |Sort(activities, NotAfter)|
    ensures var a, b := Sort(activities, NotAfter)[i], Sort(activities, NotAfter)[j];
            && (a.sequence.Some? ==> b.sequence.Some? && a.sequence.value <= b.sequence.value)
            && (a.sequence == b.sequence ==>
                  && a.createdAt.place <= b.createdAt.place
                  && (a.createdAt.place == b.createdAt.place ==>
                        && Stage(a.kind) <= Stage(b.kind)
                        && (Stage(a.kind) == Stage(b.kind) ==> a.id.place <= b.id.place)))
  {
    CompareIsPreorder();
    SortIsStable(activities, NotAfter);
    var s := Sort(activities, NotAfter);
    assert NotAfter(s[i], s[j]);
    CompareIff(s[i], s[j]);
    hide Sort, Stage;
  }

  // ----- the last word on a request -----

  /** Of all activities that touch the request, this one comes after every other. */
  ghost predicate LastWord<V(!new)>(activities: seq<Activity>, effect: Activity -> Effect<V>, key: string, x: Activity) {
    && x in activities && Touches(effect(x), key)
    && forall y <- activities :: Touches(effect(y), key) ==> y == x || Earlier(y, x)
  }

  lemma PlacesInOrder(activities: seq<Activity>, i: nat, j: nat)
    requires i < j < |Sort(activities, NotAfter)|
    ensures !Earlier(Sort(activities, NotAfter)[j], Sort(activities, NotAfter)[i])
  {
    CompareIsPreorder();
    SortIsStable(activities, NotAfter);
    var s := Sort(activities, NotAfter);
    assert NotAfter(s[i], s[j]);
    CompareIff(s[i], s[j]);
    hide Sort, Earlier;
  }

  lemma SortedAreSame(activities: seq<Activity>, x: Activity)
    ensures x in Sort(activities, NotAfter) <==> x in activities
  {
    CompareIsPreorder();
    SortIsStable(activities, NotAfter);
    hide Sort;
  }

  /** Nothing that comes last in the ordered list comes before another that touches the request. */
  lemma LastIsLast<V(!new)>(activities: seq<Activity>, effect: Activity -> Effect<V>, key: string, x: Activity, i: nat)
    requires LastWord(activities, effect, key, x)
    requires var s := Sort(activities, NotAfter);
             i < |s| && Touches(effect(s[i]), key) && forall j :: i < j < |s| ==> !Touches(effect(s[j]), key)
    ensures Sort(activities, NotAfter)[i] == x
  {
    hide *;
    var s := Sort(activities, NotAfter);
    LastWordIs(activities, effect, key, x);
    SortedAreSame(activities, s[i]);
    SortedAreSame(activities, x);
    var k :| 0 <= k < |s| && s[k] == x;
    if k < i {
      PlacesInOrder(activities, k, i);
    }
  }

  lemma LastWordIs<V(!new)>(activities: seq<Activity>, effect: Activity -> Effect<V>, key: string, x: Activity)
    requires LastWord(activities, effect, key, x)
    ensures x in activities && Touches(effect(x), key)
    ensures forall y <- activities :: Touches(effect(y), key) ==> y == x || Earlier(y, x)
  {
  }

  /** Whatever the arrival order, a request is pending exactly when the activity with the last word opens it. */
  lemma LastWordDecides<V(!new)>(activities: seq<Activity>, effect: Activity -> Effect<V>, key: string, x: Activity, v: V)
    requires LastWord(activities, effect, key, x)
    ensures LastOpened(Sort(activities, NotAfter), effect, key, v) <==> effect(x) == Opens(key, v)
  {
    var s := Sort(activities, NotAfter);
    hide Sort, Earlier, Touches, LastOpens, LastWord;
    LastWordIs(activities, effect, key, x);
    if i: nat :| LastOpens(s, effect, i, key, v) {
      LastOpensAt(s, effect, i, key, v);
      LastIsLast(activities, effect, key, x, i);
    }
    if effect(x) == Opens(key, v) {
      SortedAreSame(activities, x);
      var k := LastPlace(s, x);
      forall j | k < j < |s|
        ensures !Touches(effect(s[j]), key)
      {
        PlacesInOrder(activities, k, j);
        SortedAreSame(activities, s[j]);
      }
      LastOpensIf(s, effect, k, key, v);
    }
  }

  lemma LastOpensIf<V(!new)>(s: seq<Activity>, effect: Activity -> Effect<V>, i: nat, key: string, v: V)
    requires i < |s| && effect(s[i]) == Opens(key, v)
    requires forall j :: i < j < |s| ==> !Touches(effect(s[j]), key)
    ensures LastOpens(s, effect, i, key, v)
  {
  }

  lemma LastOpensAt<V(!new)>(s: seq<Activity>, effect: Activity -> Effect<V>, i: nat, key: string, v: V)
    requires LastOpens(s, effect, i, key, v)
    ensures i < |s| && effect(s[i]) == Opens(key, v) && Touches(effect(s[i]), key)
    ensures forall j :: i < j < |s| ==> !Touches(effect(s[j]), key)
  {
  }

  function LastPlace(s: seq<Activity>, x: Activity): (k: nat)
    requires x in s
    ensures k < |s| && s[k] == x && forall j :: k < j < |s| ==> s[j] != x
  {
    if s[|s| - 1] == x then |s| - 1 else LastPlace(s[..|s| - 1], x)
  }

  /** An approval is pending exactly when the last word on it is its request. */
  lemma ApprovalLastWord(activities: seq<Activity>, stale: string -> bool, x: Activity, p: Approval)
    requires p.requestId != "" && x in activities && MovesApproval(x, p.requestId, stale)
    requires forall y <- activities :: MovesApproval(y, p.requestId, stale) ==> y == x || Earlier(y, x)
    ensures p in PendingApprovals(activities, stale) <==> AsksApproval(x, p)
  {
    hide PendingApprovals, Sort, ApprovalEffect, MovesApproval, AsksApproval, Earlier;
    forall a
      ensures ApprovalEffects(stale)(a) == Opens(p.requestId, p) <==> AsksApproval(a, p)
      ensures Touches(ApprovalEffects(stale)(a), p.requestId) <==> MovesApproval(a, p.requestId, stale)
    {
      ApprovalEffectMeans(a, stale, p);
    }
    PendingApprovalIff(activities, stale);
    LastWordDecides(activities, ApprovalEffects(stale), p.requestId, x, p);
  }

  lemma UserInputLastWord(activities: seq<Activity>, stale: string -> bool, x: Activity, p: UserInput)
    requires p.requestId != "" && x in activities && MovesUserInput(x, p.requestId, stale)
    requires forall y <- activities :: MovesUserInput(y, p.requestId, stale) ==> y == x || Earlier(y, x)
    ensures p in PendingUserInputs(activities, stale) <==> AsksUser(x, p)
  {
    hide PendingUserInputs, Sort, UserInputEffect, MovesUserInput, AsksUser, Earlier;
    forall a
      ensures UserInputEffects(stale)(a) == Opens(p.requestId, p) <==> AsksUser(a, p)
      ensures Touches(UserInputEffects(stale)(a), p.requestId) <==> MovesUserInput(a, p.requestId, stale)
    {
      UserInputEffectMeans(a, stale, p);
    }
    PendingUserInputIff(activities, stale);
    LastWordDecides(activities, UserInputEffects(stale), p.requestId, x, p);
  }

  /** However the activities arrive, a resolve numbered above every request for its id closes it. */
  lemma LaterResolveCloses(activities: seq<Activity>, stale: string -> bool, id: string, x: Activity, n: int)
    requires x in activities && x.kind == "approval.resolved" && Concerns(x, id) && x.sequence == Some(n)
    requires forall y <- activities :: y.kind == "approval.requested" && Concerns(y, id) ==> y.sequence.None? || y.sequence.value < n
    ensures forall p <- PendingApprovals(activities, stale) :: p.requestId != id
  {
    forall p <- PendingApprovals(activities, stale)
      ensures p.requestId != id
    {
      PendingApprovalMeans(activities, stale, p);
      var s := Sort(activities, NotAfter);
      var i: nat :| LastAsksApproval(s, stale, i, p);
      var k :| 0 <= k < |s| && s[k] == x;
      assert s[i] in s;
      if k < i {
        OrderedFields(activities, k, i);
      } else if i < k {
        assert !MovesApproval(s[k], p.requestId, stale);
      }
    }
  }
}
