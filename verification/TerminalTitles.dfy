/** The titles the normaliser makes up: when another terminal shows the same one. */
module TerminalTitles {
  import opened Strings
  import opened Sequences
  import opened Wrappers
  import opened UniqueNames
  import opened PaneTree
  import opened TerminalGroups
  import opened TerminalState

  type Texts = map<string, string>

  /** What a terminal shows: its override, else its label. */
  function Title(id: string, labels: Texts, overrides: Texts): string {
    if id in overrides then overrides[id] else if id in labels then labels[id] else ""
  }

  /** Neither a label nor an override is stored for the terminal, so its title is made up. */
  predicate MadeUp(id: string, labels: Texts, overrides: Texts) {
    id !in labels && id !in overrides
  }

  /** The other terminal is named by hand, has no label stored, and comes later in the list. */
  predicate Overlooked(ids: seq<string>, t: string, u: string, labels: Texts, overrides: Texts) {
    u in overrides && u !in labels && t in ids && u in ids && IndexOf(ids, t) < IndexOf(ids, u)
  }

  lemma TitleIsDisplayed(id: string, labels: Texts, overrides: Texts, all: seq<string>)
    requires OpenTexts(labels, all) && OpenTexts(overrides, all) && id in labels
    ensures DisplayTitle(id, labels, overrides) == Title(id, labels, overrides) != ""
  {
    hide Trim;
    TrimIsTrimmed("");
    TrimIsTrimmed(labels[id]);
    if id in overrides {
      TrimIsTrimmed(overrides[id]);
    }
  }

  lemma TextStays(texts: Texts, all: seq<string>, x: string)
    requires OpenTexts(texts, all) && x in texts
    ensures Trim(texts[x]) == texts[x] != ""
  {
    TrimIsTrimmed(texts[x]);
  }

  lemma EnsuredLabel(x: string, labels: Texts, overrides: Texts, kinds: map<string, CliKind>, all: seq<string>)
    requires OpenTexts(labels, all) && OpenTexts(overrides, all)
    ensures var r := EnsureLabel(x, labels, overrides, kinds);
            if x in labels then r == labels
            else x in r && r == labels[x := r[x]] && forall u <- labels :: u != x ==> r[x] != Title(u, labels, overrides)
  {
    hide UniqueTitle, Trim, DisplayTitle, Title, Clean;
    TrimIsTrimmed("");
    if x in labels {
      TextStays(labels, all, x);
    } else {
      forall u <- labels
        ensures DisplayTitle(u, labels, overrides) == Title(u, labels, overrides) != ""
      {
        TitleIsDisplayed(u, labels, overrides, all);
      }
      assert UniqueTitle(TitleBase(Lookup(kinds, x)), TakenTitles(x, labels, overrides)) !in TakenTitles(x, labels, overrides);
    }
  }

  /** One more terminal gets its label. */
  lemma LastDiffers(front: seq<string>, x: string, t: string, u: string, before: Texts, after: Texts, labels: Texts, overrides: Texts)
    requires NoDup(front + [x]) && t != u && MadeUp(t, labels, overrides)
    requires t in front + [x] && (u in front + [x] || u in labels)
    requires (forall id <- front :: id in before) && (forall id <- labels :: id in before)
    requires if x in before then after == before
             else x in after && after == before[x := after[x]] && forall v <- before :: v != x ==> after[x] != Title(v, before, overrides)
    requires x in before ==> x in labels || x in front
    requires t in front && (u in front || u in labels) ==>
               (Title(u, before, overrides) == before[t] ==> Overlooked(front, t, u, labels, overrides))
    ensures t in after && (Title(u, after, overrides) == after[t] ==> Overlooked(front + [x], t, u, labels, overrides))
  {
    NoDupConcat(front, [x]);
    var ids := front + [x];
    assert ids[|front|] == x && ids[..|front|] == front;
    IndexOfIs(ids, |front|);
    if t in front {
      IndexOfLonger(front, [x], t);
    }
    if u in front {
      IndexOfLonger(front, [x], u);
    }
  }

  lemma {:induction false} MadeUpDiffers(ids: seq<string>, labels: Texts, overrides: Texts, kinds: map<string, CliKind>, all: seq<string>,
                                         t: string, u: string)
    requires OpenTexts(labels, all) && OpenTexts(overrides, all) && NoDup(ids) && forall id <- ids :: id in all
    requires t in ids && t != u && MadeUp(t, labels, overrides) && (u in ids || u in labels)
    ensures var r := EnsureLabels(ids, labels, overrides, kinds);
            t in r && (Title(u, r, overrides) == r[t] ==> Overlooked(ids, t, u, labels, overrides))
    decreases |ids|
  {
    hide *;
    var front, x := ids[..|ids| - 1], ids[|ids| - 1];
    assert ids == front + [x];
    NoDupConcat(front, [x]);
    var before := EnsureLabels(front, labels, overrides, kinds);
    EnsureLabelsOk(front, labels, overrides, kinds, all);
    EnsuredKeys(front, labels, overrides, kinds, x);
    EnsuredLabel(x, before, overrides, kinds, all);
    EnsureLast(ids, labels, overrides, kinds);
    if t in front && (u in front || u in labels) {
      MadeUpDiffers(front, labels, overrides, kinds, all, t, u);
    }
    LastDiffers(front, x, t, u, before, EnsureLabels(ids, labels, overrides, kinds), labels, overrides);
  }

  lemma EnsureLast(ids: seq<string>, labels: Texts, overrides: Texts, kinds: map<string, CliKind>)
    requires ids != []
    ensures EnsureLabels(ids, labels, overrides, kinds)
         == EnsureLabel(ids[|ids| - 1], EnsureLabels(ids[..|ids| - 1], labels, overrides, kinds), overrides, kinds)
  {
    hide EnsureLabel;
  }

  lemma {:induction false} EnsuredKeys(ids: seq<string>, labels: Texts, overrides: Texts, kinds: map<string, CliKind>, x: string)
    ensures x in EnsureLabels(ids, labels, overrides, kinds) ==> x in labels || x in ids
    decreases |ids|
  {
    hide Trim, UniqueTitle, TakenTitles;
    if ids != [] {
      EnsuredKeys(ids[..|ids| - 1], labels, overrides, kinds, x);
    }
  }

  /**
   * A title made up for a terminal is shown by another one exactly when that one is overlooked, being named
   * by hand, without a label and later in the list, and has this very name.
   */
  lemma MadeUpTitleTwiceIff(s: StoredState, t: string, u: string)
    requires var r := Normalize(s); t in r.terminalIds && u in r.terminalIds && t != u
    requires MadeUp(t, NormalizeTexts(s.labels, Normalize(s).terminalIds), Normalize(s).overrides)
    ensures var r := Normalize(s);
            && t in r.labels
            && (Title(u, r.labels, r.overrides) == Title(t, r.labels, r.overrides) <==>
                && Overlooked(r.terminalIds, t, u, NormalizeTexts(s.labels, r.terminalIds), r.overrides)
                && r.overrides[u] == r.labels[t])
  {
    var r := Normalize(s);
    var labels := NormalizeTexts(s.labels, r.terminalIds);
    NormalizeIdsOk(s.terminalIds);
    NormalizedTitles(s);
    hide Normalize, NormalizeTexts, EnsureLabels;
    NormalizeTextsOk(s.labels, r.terminalIds);
    NormalizeTextsOk(s.overrides, r.terminalIds);
    MadeUpDiffers(r.terminalIds, labels, r.overrides, r.cliKinds, r.terminalIds, t, u);
  }

  lemma NormalizedTitles(s: StoredState)
    ensures var r := Normalize(s);
            && r.terminalIds == NormalizeIds(s.terminalIds) && r.overrides == NormalizeTexts(s.overrides, r.terminalIds)
            && r.labels == EnsureLabels(r.terminalIds, NormalizeTexts(s.labels, r.terminalIds), r.overrides, r.cliKinds)
  {
    hide NormalizeIds, NormalizeGroups, NormalizeRunning, ResolveGroupId, SyncGroups, EnsureLabels, NormalizeTexts, KeepOpen;
  }

  /** Two terminals without labels, the second named "Terminal 1" by hand: the first is titled so too. */
  lemma TitleShownTwice()
    ensures exists s: StoredState, t, u ::
              var r := Normalize(s);
              t in r.terminalIds && u in r.terminalIds && t != u && Title(t, r.labels, r.overrides) == Title(u, r.labels, r.overrides)
  {
    hide *;
    var ids, overrides: Texts := ["a", "b"], map["b" := "Terminal 1"];
    var s: StoredState := ThreadState(View(ChatPage, false, Drawer, Both, TerminalTab, 1.0), ids, map[], overrides, map[], map[], [], "a", [], "");
    NormalizedTitles(s);
    TwoIds(ids);
    NormalizeIdsOk(ids);
    NoKinds(s);
    TextsAre(ids);
    FirstTitles(ids);
    var r := Normalize(s);
    assert r.terminalIds == ids;
    OneTitle(r.labels, r.overrides);
    assert ids[0] == "a" && ids[1] == "b" && "a" != "b";
  }

  lemma OneTitle(labels: Texts, overrides: Texts)
    requires "a" in labels && labels["a"] == "Terminal 1" && overrides == map["b" := "Terminal 1"]
    ensures Title("a", labels, overrides) == Title("b", labels, overrides)
  {
  }

  lemma NoKinds(s: StoredState)
    requires s.cliKinds == map[]
    ensures Normalize(s).cliKinds == map[]
  {
    hide NormalizeIds, NormalizeGroups, NormalizeRunning, ResolveGroupId, SyncGroups, EnsureLabels, NormalizeTexts;
  }

  lemma TwoIds(ids: seq<string>)
    requires ids == ["a", "b"]
    ensures IdsOk(ids)
  {
  }

  lemma TextsAre(ids: seq<string>)
    requires ids == ["a", "b"]
    ensures NormalizeTexts(map[], ids) == map[] && NormalizeTexts(map["b" := "Terminal 1"], ids) == map["b" := "Terminal 1"]
  {
    hide Trim;
    TrimIsTrimmed("Terminal 1");
  }

  lemma FirstTitles(ids: seq<string>)
    requires ids == ["a", "b"]
    ensures var r := EnsureLabels(ids, map[], map["b" := "Terminal 1"], map[]); "a" in r && r["a"] == "Terminal 1"
  {
    var overrides: Texts := map["b" := "Terminal 1"];
    hide Trim, UniqueTitle, TakenTitles;
    TrimIsTrimmed("");
    assert ids[..1] == ["a"] && ids[..1][..0] == [];
    var first := EnsureLabel("a", map[], overrides, map[]);
    assert EnsureLabels(["a"], map[], overrides, map[]) == first;
    assert first["a"] == UniqueTitle("Terminal", TakenTitles("a", map[], overrides));
    NothingTaken("a", overrides);
    FirstIsOne();
    assert EnsureLabels(ids, map[], overrides, map[]) == EnsureLabel("b", first, overrides, map[]);
  }

  lemma NothingTaken(id: string, overrides: Texts)
    ensures TakenTitles(id, map[], overrides) == {}
  {
  }

  lemma FirstIsOne()
    ensures UniqueTitle("Terminal", {}) == "Terminal 1"
  {
    TitlesDiffer("Terminal");
    assert FirstFree(TitleName("Terminal"), {}, 0) == 0;
    assert Decimal(1) == "1";
    assert "Terminal" + [' '] + "1" == "Terminal 1";
  }
}
