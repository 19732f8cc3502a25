/** Stored records as they come: entries in order, their keys and texts possibly padded. */
module TerminalStored {
  import opened Strings
  import opened Wrappers
  import opened TerminalGroups
  import opened TerminalState

  /** A stored thread; the records of its base are not read. */
  datatype RawThread = RawThread(
    base: StoredState,
    labels: seq<(string, string)>,
    overrides: seq<(string, string)>,
    cliKinds: seq<(string, CliKind)>,
    attention: seq<(string, Attention)>)

  /** Entries with a key, trimmed; the last one of a key wins. */
  function Values<V>(entries: seq<(string, V)>): (m: map<string, V>)
    ensures forall id <- m :: id != ""
  {
    if entries == [] then map[]
    else
      var (key, value) := entries[|entries| - 1];
      var m := Values(entries[..|entries| - 1]);
      if Trim(key) != "" then m[Trim(key) := value] else m
  }

  /** The entries that say something, key and text trimmed. */
  function Spoken(entries: seq<(string, string)>): seq<(string, string)> {
    if entries == [] then []
    else
      var (key, text) := entries[|entries| - 1];
      Spoken(entries[..|entries| - 1]) + if Trim(text) != "" then [(key, Trim(text))] else []
  }

  function NormalizeRaw(raw: RawThread): State {
    Normalize(raw.base.(labels := Values(Spoken(raw.labels)), overrides := Values(Spoken(raw.overrides)),
                        cliKinds := Values(raw.cliKinds), attention := Values(raw.attention)))
  }

  /** Normalising any stored thread settles it, padded keys and all, and is stable but for padded running twins. */
  lemma NormalizeRawSettles(raw: RawThread)
    ensures Settled(NormalizeRaw(raw))
    ensures Renormalize(NormalizeRaw(raw)) == NormalizeRaw(raw) <==> !PaddedTwins(raw.base.running, raw.base.terminalIds)
  {
    hide *;
    var s := raw.base.(labels := Values(Spoken(raw.labels)), overrides := Values(Spoken(raw.overrides)),
                       cliKinds := Values(raw.cliKinds), attention := Values(raw.attention));
    assert NormalizeRaw(raw) == Normalize(s) by {
      RawIs(raw);
    }
    NormalizeSettles(s);
    NormalizeIdempotent(s);
  }

  lemma RawIs(raw: RawThread)
    ensures NormalizeRaw(raw) == Normalize(raw.base.(labels := Values(Spoken(raw.labels)), overrides := Values(Spoken(raw.overrides)),
                                                     cliKinds := Values(raw.cliKinds), attention := Values(raw.attention)))
  {
    hide Normalize, Values, Spoken;
  }

  // ----- which entry is read -----

  /** The value of the last entry whose key trims to the id. */
  function LastValue<V>(entries: seq<(string, V)>, id: string): Option<V> {
    if entries == [] then None
    else
      var (key, value) := entries[|entries| - 1];
      if Trim(key) == id then Some(value) else LastValue(entries[..|entries| - 1], id)
  }

  /** The text of the last entry whose key trims to the id and whose text is not blank. */
  function LastText(entries: seq<(string, string)>, id: string): Option<string> {
    if entries == [] then None
    else
      var (key, text) := entries[|entries| - 1];
      if Trim(key) == id && Trim(text) != "" then Some(Trim(text)) else LastText(entries[..|entries| - 1], id)
  }

  lemma {:induction false} ValuesAreLast<V>(entries: seq<(string, V)>, id: string)
    requires id != ""
    ensures Lookup(Values(entries), id) == LastValue(entries, id)
    decreases |entries|
  {
    hide Trim;
    if entries != [] {
      ValuesAreLast(entries[..|entries| - 1], id);
    }
  }

  lemma {:induction false} SpokenAreLast(entries: seq<(string, string)>, id: string)
    ensures LastValue(Spoken(entries), id) == LastText(entries, id)
    decreases |entries|
  {
    hide Trim;
    if entries != [] {
      var (key, text) := entries[|entries| - 1];
      var front := Spoken(entries[..|entries| - 1]);
      SpokenAreLast(entries[..|entries| - 1], id);
      if Trim(text) != "" {
        assert (front + [(key, Trim(text))])[..|front|] == front;
      } else {
        assert front + [] == front;
      }
    }
  }

  lemma {:induction false} LastTextIsClean(entries: seq<(string, string)>, id: string)
    ensures LastText(entries, id).Some? ==> LastText(entries, id).value != "" && Trim(LastText(entries, id).value) == LastText(entries, id).value
    decreases |entries|
  {
    hide Trim;
    if entries != [] {
      var text := entries[|entries| - 1].1;
      TrimIsTrimmed(text);
      TrimIsTrimmed(Trim(text));
      LastTextIsClean(entries[..|entries| - 1], id);
    }
  }

  lemma TextOfOpen(texts: map<string, string>, ids: seq<string>, id: string)
    requires id in ids && (id in texts ==> texts[id] != "" && Trim(texts[id]) == texts[id])
    ensures Lookup(NormalizeTexts(texts, ids), id) == Lookup(texts, id)
  {
    hide Trim;
  }

  /** An open terminal has the override, the tool and the mark of the last entry stored for it, and its label if one was stored. */
  lemma RawEntryIsRead(raw: RawThread, id: string)
    requires id in NormalizeRaw(raw).terminalIds
    ensures var r := NormalizeRaw(raw);
            && Lookup(r.overrides, id) == LastText(raw.overrides, id)
            && Lookup(r.cliKinds, id) == LastValue(raw.cliKinds, id)
            && Lookup(r.attention, id) == LastValue(raw.attention, id)
            && (LastText(raw.labels, id).Some? ==> Lookup(r.labels, id) == LastText(raw.labels, id))
  {
    hide Normalize, EnsureLabels, Values, Spoken, LastText, LastValue, NormalizeGroups, SyncGroups, Settled, NormalizeTexts, Trim, PaddedTwins;
    var r := NormalizeRaw(raw);
    NormalizeRawSettles(raw);
    IdIsNotBlank(r, id);
    ValuesAreLast(Spoken(raw.overrides), id);
    ValuesAreLast(Spoken(raw.labels), id);
    ValuesAreLast(raw.cliKinds, id);
    ValuesAreLast(raw.attention, id);
    SpokenAreLast(raw.overrides, id);
    SpokenAreLast(raw.labels, id);
    LastTextIsClean(raw.overrides, id);
    LastTextIsClean(raw.labels, id);
    NormalizedRecords(raw, r.terminalIds);
    TextOfOpen(Values(Spoken(raw.overrides)), r.terminalIds, id);
    TextOfOpen(Values(Spoken(raw.labels)), r.terminalIds, id);
    NormalizeTextsOk(Values(Spoken(raw.labels)), r.terminalIds);
    EnsureLabelsOk(r.terminalIds, NormalizeTexts(Values(Spoken(raw.labels)), r.terminalIds), r.overrides, r.cliKinds, r.terminalIds);
  }

  lemma IdIsNotBlank(s: State, id: string)
    requires Settled(s) && id in s.terminalIds
    ensures id != ""
  {
    var i :| 0 <= i < |s.terminalIds| && s.terminalIds[i] == id;
    assert Clean(s.terminalIds[i]);
  }

  lemma NormalizedRecords(raw: RawThread, ids: seq<string>)
    requires ids == NormalizeRaw(raw).terminalIds
    ensures var r := NormalizeRaw(raw);
            && r.overrides == NormalizeTexts(Values(Spoken(raw.overrides)), ids)
            && r.cliKinds == KeepOpen(Values(raw.cliKinds), ids) && r.attention == KeepOpen(Values(raw.attention), ids)
            && r.labels == EnsureLabels(ids, NormalizeTexts(Values(Spoken(raw.labels)), ids), r.overrides, r.cliKinds)
  {
    hide NormalizeIds, NormalizeTexts, NormalizeGroups, EnsureLabels, SyncGroups, Values, Spoken, NormalizeRunning;
  }
}
