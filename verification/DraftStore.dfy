/** The draft registry as it runs: three maps, changed in place. */
module DraftStore {
  import opened Wrappers
  import opened DraftThreads

  lemma ReleaseNothing(s: State, mapping: map<string, string>)
    ensures Release(s, mapping, {}) == State(s.contents, s.threads, mapping)
  {
  }

  lemma ReleaseMore(s: State, mapping: map<string, string>, released: set<string>, thread: string)
    ensures Release(Release(s, mapping, released), mapping, {thread}) == Release(s, mapping, released + {thread})
  {
  }

  class Store {
    var contents: map<string, string>
    var threads: map<string, Draft>
    var mapping: map<string, string>

    function Current(): State
      reads this
    {
      State(contents, threads, mapping)
    }

    constructor ()
      ensures Current() == Empty
    {
      contents, threads, mapping := map[], map[], map[];
    }

    /** A thread the mapping no longer names goes, with its contents. */
    method Drop(thread: string)
      modifies this`threads, this`contents
      ensures Current() == Release(old(Current()), mapping, {thread})
    {
      if thread !in mapping.Values {
        threads := threads - {thread};
        contents := contents - {thread};
      }
    }

    method SetProjectDraftThreadId(project: string, thread: string, surface: Surface, details: string)
      modifies this
      ensures Current() == SetProjectDraft(old(Current()), project, thread, surface, details)
    {
      if project == "" || thread == "" {
        return;
      }
      var key := Key(project, surface);
      var previous := if key in mapping then mapping[key] else "";
      var promotedTo := if thread in threads then threads[thread].promotedTo else None;
      threads := threads[thread := Draft(project, surface, Kept(promotedTo), details)];
      mapping := mapping[key := thread];
      if previous != "" && previous != thread {
        Drop(previous);
      } else {
        ReleaseNothing(Current(), mapping);
      }
    }

    method SetDraftThreadContext(thread: string, project: string, surface: Surface, details: string)
      modifies this
      ensures Current() == SetContext(old(Current()), thread, project, surface, details)
    {
      if thread == "" || thread !in threads || project == "" {
        return;
      }
      var draft := Draft(project, surface, Kept(threads[thread].promotedTo), details);
      if draft == threads[thread] {
        return;
      }
      threads := threads[thread := draft];
      RemoveMappings(thread);
      mapping := mapping[Key(project, surface) := thread];
    }

    /** Takes out every key that names the thread, one after the other. */
    method RemoveMappings(thread: string)
      modifies this`mapping
      ensures mapping == WithoutThread(old(mapping), thread)
    {
      ghost var before := mapping;
      var todo := mapping.Keys;
      while todo != {}
        invariant todo <= before.Keys
        invariant forall k :: k in mapping <==> k in before && (k in todo || before[k] != thread)
        invariant forall k <- mapping :: mapping[k] == before[k]
        decreases |todo|
      {
        var key :| key in todo;
        todo := todo - {key};
        if mapping[key] == thread {
          mapping := mapping - {key};
        }
      }
    }

    /** Takes out every key of a project and gives back what they named. */
    method TakeOut(project: string) returns (removed: set<string>)
      modifies this`mapping
      ensures mapping == old(mapping) - KeysOf(old(mapping), project)
      ensures removed == Named(old(mapping), KeysOf(old(mapping), project))
    {
      hide KeyProject;
      ghost var before := mapping;
      var todo := mapping.Keys;
      removed := {};
      while todo != {}
        invariant todo <= before.Keys
        invariant forall k :: k in mapping <==> k in before && (k in todo || KeyProject(k) != project)
        invariant forall k <- mapping :: mapping[k] == before[k]
        invariant forall t :: t in removed <==> exists k <- before :: k !in todo && KeyProject(k) == project && before[k] == t
        decreases |todo|
      {
        var key :| key in todo;
        todo := todo - {key};
        if KeyProject(key) == project {
          removed := removed + {mapping[key]};
          mapping := mapping - {key};
        }
      }
    }

    /** clearProjectDraftThreads: both surfaces of a project at once. */
    method ClearProjectDraftThreads(project: string)
      modifies this
      ensures Current() == ClearAllOfProject(old(Current()), project)
    {
      if project == "" {
        return;
      }
      var removed := TakeOut(project);
      ReleaseAll(removed);
      if KeysOf(old(mapping), project) == {} {
        assert removed == {};
        assert mapping == old(mapping);
        ReleaseNothing(old(Current()), mapping);
      }
    }

    method ReleaseAll(removed: set<string>)
      modifies this`threads, this`contents
      ensures Current() == Release(old(Current()), mapping, removed)
    {
      ghost var before := Current();
      var todo := removed;
      ReleaseNothing(before, mapping);
      assert removed - todo == {};
      while todo != {}
        invariant todo <= removed
        invariant Current() == Release(before, mapping, removed - todo)
        decreases |todo|
      {
        var thread :| thread in todo;
        ReleaseMore(before, mapping, removed - todo, thread);
        assert removed - (todo - {thread}) == (removed - todo) + {thread};
        Drop(thread);
        todo := todo - {thread};
      }
      assert removed - todo == removed;
    }

    method ClearDraftThread(thread: string)
      modifies this
      ensures Current() == Clear(old(Current()), thread)
    {
      if thread == "" {
        return;
      }
      RemoveMappings(thread);
      threads := threads - {thread};
      contents := contents - {thread};
    }

    method FinalizePromotedDraftThread(thread: string)
      modifies this
      ensures Current() == FinalizePromoted(old(Current()), thread)
    {
      if thread in threads && Kept(threads[thread].promotedTo).Some? {
        ClearDraftThread(thread);
      }
    }

    method MarkDraftThreadPromoting(thread: string, promotedTo: Option<string>)
      modifies this
      ensures Current() == MarkPromoting(old(Current()), thread, promotedTo)
    {
      if thread != "" && thread in threads {
        threads := threads[thread := threads[thread].(promotedTo := Some(promotedTo.GetOr(thread)))];
      }
    }
  }
}
