/** What each action does to the registry of drafts, record by record. */
module DraftEffects {
  import opened Wrappers
  import opened DraftThreads

  /** Every draft but this one, and the contents of every other, are as they were. */
  ghost predicate OthersStay(s: State, r: State, thread: string) {
    forall t :: t != thread ==>
      && (t in r.threads <==> t in s.threads) && (t in s.threads ==> r.threads[t] == s.threads[t])
      && (t in r.contents <==> t in s.contents) && (t in s.contents ==> r.contents[t] == s.contents[t])
  }

  /** The mapping without the entries that name the draft. */
  ghost predicate Unnamed(before: map<string, string>, after: map<string, string>, thread: string) {
    forall k :: (k in after <==> k in before && before[k] != thread) && (k in after ==> after[k] == before[k])
  }

  /** The draft is gone, with its contents and every mapping that named it, and nothing else is. */
  ghost predicate Gone(s: State, r: State, thread: string) {
    thread !in r.threads && thread !in r.contents && OthersStay(s, r, thread) && Unnamed(s.mapping, r.mapping, thread)
  }

  lemma DiscardShows(s: State, thread: string)
    ensures var r := Step(s, Discard(thread)); if thread != "" then Gone(s, r, thread) else r == s
  {
  }

  /** A draft is finalised exactly when it carries a mark with a target; it goes then. */
  lemma FinalizeShows(s: State, thread: string)
    requires thread != ""
    ensures var r := Step(s, Finalize(thread));
            if thread in s.threads && s.threads[thread].promotedTo.Some? && s.threads[thread].promotedTo.value != "" then Gone(s, r, thread)
            else r == s
  {
    hide Gone, Clear;
    DiscardShows(s, thread);
  }

  /** A draft that is there is marked with the target, or with its own id when none is given; nothing else changes. */
  lemma PromoteShows(s: State, thread: string, target: Option<string>)
    ensures var r := Step(s, Promote(thread, target));
            && (thread != "" && thread in s.threads ==>
                  && thread in r.threads
                  && r.threads[thread] == s.threads[thread].(promotedTo := if target.Some? then target else Some(thread)))
            && (thread == "" || thread !in s.threads ==> r == s)
            && OthersStay(s, r, thread) && r.mapping == s.mapping && r.contents == s.contents
  {
  }

  /** A draft that is not there is registered for the project's chat, unmarked and named by no mapping. */
  lemma RegisterShows(s: State, thread: string, project: string, details: string)
    ensures var r := Step(s, RegisterDraft(thread, project, details));
            && (thread != "" && project != "" && thread !in s.threads ==>
                  thread in r.threads && r.threads[thread] == Draft(project, Chat, None, details))
            && (thread == "" || project == "" || thread in s.threads ==> r == s)
            && OthersStay(s, r, thread) && r.mapping == s.mapping && r.contents == s.contents
  {
  }

  /** The mark a draft keeps when it is set or moved: one with a target. */
  predicate KeepsMark(s: State, r: State, thread: string)
    requires thread in r.threads
  {
    if thread in s.threads && s.threads[thread].promotedTo.Some? && s.threads[thread].promotedTo.value != ""
    then r.threads[thread].promotedTo == s.threads[thread].promotedTo
    else r.threads[thread].promotedTo == None
  }

  /** The project's surface names the draft now; the one it named goes if nothing else names it; no other draft changes. */
  lemma SetShows(s: State, project: string, thread: string, surface: Surface, details: string)
    requires Live(s) && project != "" && thread != ""
    ensures var r, key := Step(s, SetDraftOf(project, thread, surface, details)), Key(project, surface);
            && r.mapping == s.mapping[key := thread] && thread in r.threads && KeepsMark(s, r, thread)
            && r.threads[thread] == Draft(project, surface, r.threads[thread].promotedTo, details)
            && (thread in s.contents ==> thread in r.contents && r.contents[thread] == s.contents[thread])
            && (forall t :: t in s.threads && t != thread && t !in r.threads ==> key in s.mapping && s.mapping[key] == t)
            && (forall t :: t in s.threads && t != thread && t in r.threads ==> r.threads[t] == s.threads[t])
  {
    var r, key := SetProjectDraft(s, project, thread, surface, details), Key(project, surface);
    assert r.mapping[key] == thread;
    assert thread in r.mapping.Values;
  }

  /** A draft that changes is named by its new place alone; no other draft and no contents change. */
  lemma RehomeShows(s: State, thread: string, project: string, surface: Surface, details: string)
    requires thread != "" && thread in s.threads && project != ""
    requires Draft(project, surface, PromotionOf(s, thread), details) != s.threads[thread]
    ensures var r, key := Step(s, Rehome(thread, project, surface, details)), Key(project, surface);
            && thread in r.threads && KeepsMark(s, r, thread)
            && r.threads[thread] == Draft(project, surface, r.threads[thread].promotedTo, details)
            && OthersStay(s, r, thread) && r.contents == s.contents
            && (forall k :: k in r.mapping && r.mapping[k] == thread <==> k == key)
            && (forall k :: k != key ==> (k in r.mapping <==> k in s.mapping && s.mapping[k] != thread) && (k in r.mapping ==> r.mapping[k] == s.mapping[k]))
  {
  }

  /** Clearing by id withdraws the one offer whose key it takes out, and only if that names the draft for the project. */
  lemma ClearByIdWithdraws(s: State, project: string, thread: string, key: string, q: string, f: Surface)
    requires Live(s) && project != "" && thread != ""
    ensures var r := Step(s, ClearDraftOfById(project, thread, key));
            && (key in s.mapping && s.mapping[key] == thread && KeyProject(key) == project ==>
                  Offered(r, q, f) == if Key(q, f) == key then None else Offered(s, q, f))
            && (!(key in s.mapping && s.mapping[key] == thread && KeyProject(key) == project) ==> r == s)
  {
    hide KeyProject, Key;
    var r := ClearById(s, project, thread, key);
    if Key(q, f) in r.mapping {
      assert r.mapping[Key(q, f)] in r.mapping.Values;
    }
  }

  /** Writing and erasing change the contents of one draft and nothing else. */
  lemma WriteShows(s: State, thread: string, text: string)
    ensures var r := Step(s, Write(thread, text)); r == s.(contents := r.contents) && r.contents == s.contents[thread := text]
    ensures var r := Step(s, Erase(thread)); r == s.(contents := r.contents) && thread !in r.contents && OthersStay(s, r, thread)
  {
  }
}
