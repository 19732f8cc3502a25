/** The registry of draft threads: which draft a project offers, and when a draft goes away. */
module DraftThreads {
  import opened Wrappers

  datatype Surface = Chat | Terminal

  /** A draft thread; the fields that play no part in the registry are its details. */
  datatype Draft = Draft(project: string, surface: Surface, promotedTo: Option<string>, details: string)

  /** Composer contents, draft threads, and the mapping from a project's surface to its draft. */
  datatype State = State(contents: map<string, string>, threads: map<string, Draft>, mapping: map<string, string>)

  const Empty := State(map[], map[], map[])

  const SUFFIX := "::terminal"

  // ----- mapping keys -----

  function Key(project: string, surface: Surface): string {
    if surface == Terminal then project + SUFFIX else project
  }

  predicate IsTerminalKey(key: string) {
    |key| >= |SUFFIX| && key[|key| - |SUFFIX|..] == SUFFIX
  }

  function KeyProject(key: string): string {
    if IsTerminalKey(key) then key[..|key| - |SUFFIX|] else key
  }

  /** Named like another project's terminal key. */
  ghost predicate NamedLikeKey(project: string) {
    exists p: string :: project == p + "::terminal"
  }

  lemma NamedLikeKeyIff(project: string)
    ensures NamedLikeKey(project) <==> IsTerminalKey(project)
  {
    if IsTerminalKey(project) {
      assert project == project[..|project| - |SUFFIX|] + "::terminal";
    }
  }

  /** A key names its project again, except for a chat of a project that is itself named like a terminal key. */
  lemma KeyProjectIff(project: string, surface: Surface)
    ensures KeyProject(Key(project, surface)) == project <==> surface == Terminal || !NamedLikeKey(project)
  {
    NamedLikeKeyIff(project);
    var key := project + SUFFIX;
    assert key[|key| - |SUFFIX|..] == SUFFIX && key[..|key| - |SUFFIX|] == project;
  }

  lemma KeysDiffer(p: string, e: Surface, q: string, f: Surface)
    requires (e == Chat ==> !NamedLikeKey(p)) && (f == Chat ==> !NamedLikeKey(q))
    ensures Key(p, e) == Key(q, f) <==> p == q && e == f
  {
    KeyProjectIff(p, e);
    KeyProjectIff(q, f);
    NamedLikeKeyIff(p);
    NamedLikeKeyIff(q);
    assert IsTerminalKey(p + SUFFIX) && IsTerminalKey(q + SUFFIX);
  }

  // ----- the transitions -----

  /** getDraftThreadByProjectId */
  function Offered(s: State, project: string, surface: Surface): Option<string> {
    if project == "" || Key(project, surface) !in s.mapping then None
    else
      var t := s.mapping[Key(project, surface)];
      if t == "" || t !in s.threads then None
      else if s.threads[t].project != project || s.threads[t].surface != surface || s.threads[t].promotedTo.Some? then None
      else Some(t)
  }

  /** A promotion target that is there and not empty. */
  function Kept(promotedTo: Option<string>): Option<string> {
    if promotedTo == Some("") then None else promotedTo
  }

  function PromotionOf(s: State, thread: string): Option<string> {
    if thread in s.threads then Kept(s.threads[thread].promotedTo) else None
  }

  /** The mapping changes; of the threads it used to name, those it no longer names go, with their contents. */
  function Release(s: State, mapping: map<string, string>, released: set<string>): State {
    var gone := set t | t in released && t !in mapping.Values;
    State(s.contents - gone, s.threads - gone, mapping)
  }

  /** setProjectDraftThreadId; surface and details are those already merged with the options. */
  function SetProjectDraft(s: State, project: string, thread: string, surface: Surface, details: string): State {
    if project == "" || thread == "" then s
    else
      var key := Key(project, surface);
      var threads := s.threads[thread := Draft(project, surface, PromotionOf(s, thread), details)];
      var previous := if key in s.mapping && s.mapping[key] != "" && s.mapping[key] != thread then {s.mapping[key]} else {};
      Release(s.(threads := threads), s.mapping[key := thread], previous)
  }

  function Register(s: State, thread: string, project: string, details: string): State {
    if thread == "" || project == "" || thread in s.threads then s
    else s.(threads := s.threads[thread := Draft(project, Chat, None, details)])
  }

  function WithoutThread(mapping: map<string, string>, thread: string): map<string, string> {
    map k | k in mapping && mapping[k] != thread :: mapping[k]
  }

  /** setDraftThreadContext; project, surface and details are those already merged with the options. */
  function SetContext(s: State, thread: string, project: string, surface: Surface, details: string): State {
    if thread == "" || thread !in s.threads || project == "" then s
    else
      var draft := Draft(project, surface, PromotionOf(s, thread), details);
      if draft == s.threads[thread] then s
      else State(s.contents, s.threads[thread := draft], WithoutThread(s.mapping, thread)[Key(project, surface) := thread])
  }

  function ClearProject(s: State, project: string, surface: Surface): State {
    var key := Key(project, surface);
    if project == "" || key !in s.mapping then s
    else Release(s, s.mapping - {key}, {s.mapping[key]})
  }

  function KeysOf(mapping: map<string, string>, project: string): set<string> {
    set k | k in mapping && KeyProject(k) == project
  }

  function Named(mapping: map<string, string>, keys: set<string>): set<string> {
    set k | k in keys && k in mapping :: mapping[k]
  }

  function ClearAllOfProject(s: State, project: string): State {
    var keys := KeysOf(s.mapping, project);
    if project == "" || keys == {} then s
    else Release(s, s.mapping - keys, Named(s.mapping, keys))
  }

  /** The key clearProjectDraftThreadById takes out; preferred is the one listed first if two match. */
  predicate Takes(s: State, project: string, thread: string, key: string) {
    key in s.mapping && KeyProject(key) == project && s.mapping[key] == thread
  }

  function ClearById(s: State, project: string, thread: string, key: string): State {
    if project == "" || thread == "" || !Takes(s, project, thread, key) then s
    else Release(s, s.mapping - {key}, {thread})
  }

  function MarkPromoting(s: State, thread: string, promotedTo: Option<string>): State {
    if thread == "" || thread !in s.threads then s
    else s.(threads := s.threads[thread := s.threads[thread].(promotedTo := Some(promotedTo.GetOr(thread)))])
  }

  function Clear(s: State, thread: string): State {
    if thread == "" then s else State(s.contents - {thread}, s.threads - {thread}, WithoutThread(s.mapping, thread))
  }

  function FinalizePromoted(s: State, thread: string): State {
    if PromotionOf(s, thread).None? then s else Clear(s, thread)
  }

  datatype Action =
    | SetDraftOf(project: string, thread: string, surface: Surface, details: string)
    | RegisterDraft(thread: string, project: string, details: string)
    | Rehome(thread: string, project: string, surface: Surface, details: string)
    | ClearDraftOf(project: string, surface: Surface)
    | ClearDraftsOf(project: string)
    | ClearDraftOfById(project: string, thread: string, key: string)
    | Promote(thread: string, promotedTo: Option<string>)
    | Finalize(thread: string)
    | Discard(thread: string)
    | Write(thread: string, text: string)
    | Erase(thread: string)

  function Step(s: State, a: Action): State {
    match a
    case SetDraftOf(project, thread, surface, details) => SetProjectDraft(s, project, thread, surface, details)
    case RegisterDraft(thread, project, details) => Register(s, thread, project, details)
    case Rehome(thread, project, surface, details) => SetContext(s, thread, project, surface, details)
    case ClearDraftOf(project, surface) => ClearProject(s, project, surface)
    case ClearDraftsOf(project) => ClearAllOfProject(s, project)
    case ClearDraftOfById(project, thread, key) => ClearById(s, project, thread, key)
    case Promote(thread, promotedTo) => MarkPromoting(s, thread, promotedTo)
    case Finalize(thread) => FinalizePromoted(s, thread)
    case Discard(thread) => Clear(s, thread)
    case Write(thread, text) => s.(contents := s.contents[thread := text])
    case Erase(thread) => s.(contents := s.contents - {thread})
  }

  // ----- no mapping names a missing draft -----

  predicate Live(s: State) {
    forall k <- s.mapping :: s.mapping[k] in s.threads && s.mapping[k] != ""
  }

  lemma StepKeepsLive(s: State, a: Action)
    requires Live(s)
    ensures Live(Step(s, a))
  {
  }

  /** A mapping change: every step that may stop the mapping from naming a draft, but for moving a draft to another project. */
  predicate Unmaps(a: Action) {
    a.SetDraftOf? || a.ClearDraftOf? || a.ClearDraftsOf? || a.ClearDraftOfById?
  }

  /**
   * A mapping change deletes a draft exactly when it takes away its last name; other steps delete only
   * the draft they are told to. Contents go along with their draft, and else only when the composer erases them.
   */
  lemma StepDeletes(s: State, a: Action, t: string)
    requires Live(s) && t in s.threads
    ensures Unmaps(a) ==> (t !in Step(s, a).threads <==> t in s.mapping.Values && t !in Step(s, a).mapping.Values)
    ensures !Unmaps(a) && t !in Step(s, a).threads ==> (a == Discard(t) || a == Finalize(t)) && t !in Step(s, a).mapping.Values
    ensures t !in Step(s, a).threads ==> t !in Step(s, a).contents
    ensures t in s.contents && t !in Step(s, a).contents ==> t !in Step(s, a).threads || a == Erase(t)
  {
    var r := Step(s, a);
    if Unmaps(a) && t in s.mapping.Values {
      var k :| k in s.mapping && s.mapping[k] == t;
      assert k in r.mapping ==> r.mapping[k] in r.mapping.Values;
    }
  }

  // ----- what a step offers -----

  /** A project's surface is given a draft: it offers that draft unless it is promoting, and no other offer changes. */
  lemma SetOffers(s: State, project: string, thread: string, surface: Surface, details: string, q: string, f: Surface)
    requires Live(s) && project != "" && thread != ""
    ensures var r := SetProjectDraft(s, project, thread, surface, details);
            && Offered(r, project, surface) == (if PromotionOf(s, thread).None? then Some(thread) else None)
            && (Key(q, f) != Key(project, surface) && Offered(s, q, f) != Some(thread) ==> Offered(r, q, f) == Offered(s, q, f))
  {
  }

  /** A draft moved to another project or surface is offered there, unless it is promoting, and nowhere else. */
  lemma RehomeOffers(s: State, thread: string, project: string, surface: Surface, details: string, q: string, f: Surface)
    requires Live(s) && project != "" && thread != "" && thread in s.threads
    requires Draft(project, surface, PromotionOf(s, thread), details) != s.threads[thread]
    ensures var r := SetContext(s, thread, project, surface, details);
            && Offered(r, project, surface) == (if PromotionOf(s, thread).None? then Some(thread) else None)
            && (Key(q, f) != Key(project, surface) ==>
                  Offered(r, q, f) == if Offered(s, q, f) == Some(thread) then None else Offered(s, q, f))
  {
  }

  /** Clearing one surface of a project withdraws its offer and no other. */
  lemma ClearWithdraws(s: State, project: string, surface: Surface, q: string, f: Surface)
    requires Live(s) && project != ""
    ensures var r := Step(s, ClearDraftOf(project, surface));
            Offered(r, q, f) == if Key(q, f) == Key(project, surface) then None else Offered(s, q, f)
  {
  }

  /**
   * Clearing a project withdraws the offers whose key reads as that project: both of its surfaces,
   * but for a project named like a terminal key, whose chat draft belongs to the shorter name.
   */
  lemma ClearAllWithdraws(s: State, project: string, q: string, f: Surface)
    requires Live(s) && project != ""
    ensures var r := Step(s, ClearDraftsOf(project));
            Offered(r, q, f) == if KeyProject(Key(q, f)) == project then None else Offered(s, q, f)
  {
    hide KeyProject, Key;
    var key, keys := Key(q, f), KeysOf(s.mapping, project);
    var r := ClearAllOfProject(s, project);
    if key in s.mapping {
      assert key in keys <==> KeyProject(key) == project;
      assert key in r.mapping <==> key !in keys;
      if key in r.mapping {
        assert s.mapping[key] in r.mapping.Values;
      }
    }
  }

  // ----- a promoting draft is not offered -----

  predicate Promoting(s: State, t: string) {
    t in s.threads && Kept(s.threads[t].promotedTo).Some?
  }

  /** While the draft is there it stays promoting, except when it is marked again with an empty target. */
  lemma StepKeepsPromoting(s: State, a: Action, t: string)
    requires Promoting(s, t) && t in Step(s, a).threads
    ensures Promoting(Step(s, a), t) <==> t == "" || a != Promote(t, Some(""))
  {
  }

  /** The draft carries a mark, with a target or with an empty one: as such it is offered to no project. */
  predicate Marked(s: State, t: string) {
    t in s.threads && s.threads[t].promotedTo.Some?
  }

  ghost predicate IsOffered(s: State, t: string) {
    exists project, surface :: Offered(s, project, surface) == Some(t)
  }

  /** A draft marked with an empty target is set or moved to a project. */
  predicate Forgets(s: State, a: Action, t: string) {
    && t != "" && t in s.threads && s.threads[t].promotedTo == Some("")
    && (|| (a.SetDraftOf? && a.thread == t && a.project != "")
        || (a.Rehome? && a.thread == t && a.project != ""))
  }

  /** While the draft is there, its mark is lost exactly by such a step, and that step offers the draft at once. */
  lemma StepKeepsMark(s: State, a: Action, t: string)
    requires Marked(s, t) && t in Step(s, a).threads
    ensures !IsOffered(s, t)
    ensures Marked(Step(s, a), t) <==> !Forgets(s, a, t)
    ensures Forgets(s, a, t) ==> IsOffered(Step(s, a), t)
  {
    if Forgets(s, a, t) {
      assert Offered(Step(s, a), a.project, a.surface) == Some(t);
    }
  }

  function Run(s: State, actions: seq<Action>): State
    decreases actions
  {
    if actions == [] then s else Run(Step(s, actions[0]), actions[1..])
  }

  /** The draft is there after every step. */
  predicate Stays(s: State, actions: seq<Action>, t: string)
    decreases actions
  {
    t in s.threads && (actions == [] || Stays(Step(s, actions[0]), actions[1..], t))
  }

  /** Somewhere along the run the draft is offered. */
  ghost predicate OfferedInRun(s: State, actions: seq<Action>, t: string)
    decreases actions
  {
    IsOffered(s, t) || (actions != [] && OfferedInRun(Step(s, actions[0]), actions[1..], t))
  }

  /** Somewhere along the run the draft, marked with an empty target, is set or moved to a project. */
  predicate ForgetsInRun(s: State, actions: seq<Action>, t: string)
    decreases actions
  {
    actions != [] && (Forgets(s, actions[0], t) || ForgetsInRun(Step(s, actions[0]), actions[1..], t))
  }

  /**
   * In every run that does not remove it, a marked draft is offered again exactly when, while marked
   * with an empty target, it is set or moved to a project.
   */
  lemma {:induction false} OfferedAgainIff(s: State, actions: seq<Action>, t: string)
    requires Marked(s, t) && Stays(s, actions, t)
    ensures OfferedInRun(s, actions, t) <==> ForgetsInRun(s, actions, t)
    decreases actions
  {
    hide Step, Marked, IsOffered, Forgets;
    MarkedNotOffered(s, t);
    if actions != [] {
      StaysNow(Step(s, actions[0]), actions[1..], t);
      StepKeepsMark(s, actions[0], t);
      if !Forgets(s, actions[0], t) {
        OfferedAgainIff(Step(s, actions[0]), actions[1..], t);
      }
    }
  }

  lemma MarkedNotOffered(s: State, t: string)
    requires Marked(s, t)
    ensures !IsOffered(s, t)
  {
  }

  lemma StaysNow(s: State, actions: seq<Action>, t: string)
    requires Stays(s, actions, t)
    ensures t in s.threads
  {
  }

  /** In particular, a draft with a real target is never offered again in a run that gives it no empty one. */
  lemma {:induction false} NeverOfferedAgain(s: State, actions: seq<Action>, t: string)
    requires Promoting(s, t) && Stays(s, actions, t) && Promote(t, Some("")) !in actions
    ensures Promoting(Run(s, actions), t) && !OfferedInRun(s, actions, t)
    decreases actions
  {
    hide Step, Promoting, Offered, IsOffered;
    PromotingIsMarked(s, t);
    MarkedNotOffered(s, t);
    if actions != [] {
      assert actions[0] in actions;
      StepKeepsPromoting(s, actions[0], t);
      NeverOfferedAgain(Step(s, actions[0]), actions[1..], t);
    }
  }

  lemma PromotingIsMarked(s: State, t: string)
    requires Promoting(s, t)
    ensures Marked(s, t)
  {
  }

  /** In every run from the empty registry, no mapping names a missing draft. */
  lemma {:induction false} EveryRunLive(s: State, actions: seq<Action>)
    requires Live(s)
    ensures Live(Run(s, actions))
    decreases actions
  {
    hide Step, Live;
    if actions != [] {
      StepKeepsLive(s, actions[0]);
      EveryRunLive(Step(s, actions[0]), actions[1..]);
    }
  }

  /** A run from the empty registry that marks a draft, keeps it, and offers it again. */
  lemma EmptyTargetIsForgotten()
    ensures exists before, after, t ::
              && Marked(Run(Empty, before), t) && Stays(Run(Empty, before), after, t)
              && OfferedInRun(Run(Empty, before), after, t)
  {
    var place, mark := SetDraftOf("p", "t", Chat, "old"), Promote("t", Some(""));
    var rehome := Rehome("t", "p", Chat, "new");
    TwoSteps(Empty, place, mark);
    var s := Run(Empty, [place, mark]);
    assert s.threads == map["t" := Draft("p", Chat, Some(""), "old")];
    assert Forgets(s, rehome, "t");
    var r := Step(s, rehome);
    assert "t" in r.threads;
    assert [rehome][1..] == [];
    assert Stays(r, [], "t");
    assert Stays(s, [rehome], "t");
    OfferedAgainIff(s, [rehome], "t");
  }

  lemma TwoSteps(s: State, a: Action, b: Action)
    ensures Run(s, [a, b]) == Step(Step(s, a), b)
  {
    hide Step;
    assert [a, b][1..] == [b] && [b][1..] == [];
    assert Run(Step(Step(s, a), b), []) == Step(Step(s, a), b);
    assert Run(Step(s, a), [b]) == Run(Step(Step(s, a), b), []);
  }

  /** A draft is offered for one project and surface at most, even where two mapping keys coincide. */
  lemma OfferedOnce(s: State, t: string, p: string, e: Surface, q: string, f: Surface)
    requires Offered(s, p, e) == Some(t) && Offered(s, q, f) == Some(t)
    ensures p == q && e == f
  {
  }
}
