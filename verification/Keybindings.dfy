/** Key bindings: what a key event triggers, and which shortcut a command is labelled with. */
module Keybindings {
  import opened Wrappers
  import opened Strings

  datatype Shortcut = Shortcut(key: string, meta: bool, ctrl: bool, shift: bool, alt: bool, mod: bool)

  datatype When = Identifier(name: string) | Not(node: When) | And(left: When, right: When) | Or(left: When, right: When)

  /** A configured entry; what the type guard refuses is Malformed. */
  datatype Binding = Malformed | Rule(command: string, shortcut: Shortcut, when: Option<When>)

  /** A key event. */
  datatype Event = Event(key: string, code: Option<string>, meta: bool, ctrl: bool, shift: bool, alt: bool)

  /** The context a lookup happens in, the platform it happens on, and how texts are put into lower case. */
  datatype Setting = Setting(context: map<string, bool>, mac: bool, lower: string -> string)

  predicate Evaluate(node: When, context: map<string, bool>) {
    match node
    case Identifier(name) =>
      if name == "true" then true else if name == "false" then false else name in context && context[name]
    case Not(inner) => !Evaluate(inner, context)
    case And(left, right) => Evaluate(left, context) && Evaluate(right, context)
    case Or(left, right) => Evaluate(left, context) || Evaluate(right, context)
  }

  /** A well-formed rule that applies in the context. */
  predicate Active(b: Binding, at: Setting) {
    b.Rule? && b.command != "" && (b.when.None? || Evaluate(b.when.value, at.context))
  }

  // ----- matching an event -----

  /** normalizeEventKey */
  function NormalizeKey(key: string, lower: string -> string): string {
    var normalized := lower(key);
    if normalized == "esc" then "escape" else if normalized == "{" then "[" else if normalized == "}" then "]" else normalized
  }

  /** The key a physical code stands for: letters, digits and square brackets. */
  function Alias(code: string): Option<string> {
    if code == "BracketLeft" then Some("[")
    else if code == "BracketRight" then Some("]")
    else if |code| == 6 && code[..5] == "Digit" && '0' <= code[5] <= '9' then Some([code[5]])
    else if |code| == 4 && code[..3] == "Key" && 'A' <= code[3] <= 'Z' then Some([code[3] - 'A' + 'a'])
    else None
  }

  function EventKeys(e: Event, lower: string -> string): set<string> {
    var keys := {NormalizeKey(e.key, lower)};
    if e.code.Some? && Alias(e.code.value).Some? then keys + {Alias(e.code.value).value} else keys
  }

  predicate NeedsMeta(s: Shortcut, mac: bool) {
    s.meta || (s.mod && mac)
  }

  predicate NeedsCtrl(s: Shortcut, mac: bool) {
    s.ctrl || (s.mod && !mac)
  }

  predicate Matches(e: Event, s: Shortcut, at: Setting) {
    && e.meta == NeedsMeta(s, at.mac) && e.ctrl == NeedsCtrl(s, at.mac) && e.shift == s.shift && e.alt == s.alt
    && s.key in EventKeys(e, at.lower)
  }

  /** The last active binding that matches the event. */
  function Resolve(e: Event, bindings: seq<Binding>, at: Setting): Option<string> {
    if bindings == [] then None
    else
      var last := bindings[|bindings| - 1];
      if Active(last, at) && Matches(e, last.shortcut, at) then Some(last.command)
      else Resolve(e, bindings[..|bindings| - 1], at)
  }

  /** resolveShortcutCommandFromBindings */
  method ResolveFromBindings(e: Event, bindings: seq<Binding>, at: Setting) returns (command: Option<string>)
    ensures command == Resolve(e, bindings, at)
  {
    assert bindings[..|bindings|] == bindings;
    for index := |bindings| downto 0
      invariant Resolve(e, bindings[..index], at) == Resolve(e, bindings, at)
    {
      var binding := bindings[index];
      assert bindings[..index + 1][..index] == bindings[..index];
      if Active(binding, at) && Matches(e, binding.shortcut, at) {
        return Some(binding.command);
      }
    }
    return None;
  }

  // ----- looking up a command -----

  function Flag(on: bool, name: string): string {
    if on then name else ""
  }

  /** shortcutConflictKey: the key and the four modifiers, joined by bars. */
  function ConflictKey(s: Shortcut, mac: bool): string {
    s.key + "|" + Flag(NeedsMeta(s, mac), "meta") + "|" + Flag(NeedsCtrl(s, mac), "ctrl") + "|" + Flag(s.shift, "shift") + "|" + Flag(s.alt, "alt")
  }

  predicate SameChord(s: Shortcut, t: Shortcut, mac: bool) {
    && s.key == t.key && NeedsMeta(s, mac) == NeedsMeta(t, mac) && NeedsCtrl(s, mac) == NeedsCtrl(t, mac)
    && s.shift == t.shift && s.alt == t.alt
  }

  /** Two shortcuts share a conflict key exactly when they are pressed alike, even for the key "|" itself. */
  lemma ConflictKeyIsInjective(s: Shortcut, t: Shortcut, mac: bool)
    ensures ConflictKey(s, mac) == ConflictKey(t, mac) <==> SameChord(s, t, mac)
  {
    if ConflictKey(s, mac) == ConflictKey(t, mac) {
      var s1, t1 := s.key + "|" + Flag(NeedsMeta(s, mac), "meta"), t.key + "|" + Flag(NeedsMeta(t, mac), "meta");
      var s2, t2 := s1 + "|" + Flag(NeedsCtrl(s, mac), "ctrl"), t1 + "|" + Flag(NeedsCtrl(t, mac), "ctrl");
      var s3, t3 := s2 + "|" + Flag(s.shift, "shift"), t2 + "|" + Flag(t.shift, "shift");
      LastSeparator(s3, Flag(s.alt, "alt"), t3, Flag(t.alt, "alt"), '|');
      LastSeparator(s2, Flag(s.shift, "shift"), t2, Flag(t.shift, "shift"), '|');
      LastSeparator(s1, Flag(NeedsCtrl(s, mac), "ctrl"), t1, Flag(NeedsCtrl(t, mac), "ctrl"), '|');
      LastSeparator(s.key, Flag(NeedsMeta(s, mac), "meta"), t.key, Flag(NeedsMeta(t, mac), "meta"), '|');
    }
  }

  /** The last active binding of the command whose chord no later active binding has. */
  function Effective(bindings: seq<Binding>, command: string, at: Setting, claimed: set<string>): Option<Shortcut> {
    if bindings == [] then None
    else
      var last, rest := bindings[|bindings| - 1], bindings[..|bindings| - 1];
      if !Active(last, at) || ConflictKey(last.shortcut, at.mac) in claimed then Effective(rest, command, at, claimed)
      else if last.command == command then Some(last.shortcut)
      else Effective(rest, command, at, claimed + {ConflictKey(last.shortcut, at.mac)})
  }

  /** findEffectiveShortcutForCommand */
  method FindEffectiveShortcut(bindings: seq<Binding>, command: string, at: Setting) returns (shortcut: Option<Shortcut>)
    ensures shortcut == Effective(bindings, command, at, {})
  {
    var claimed: set<string> := {};
    assert bindings[..|bindings|] == bindings;
    for index := |bindings| downto 0
      invariant Effective(bindings[..index], command, at, claimed) == Effective(bindings, command, at, {})
    {
      var binding := bindings[index];
      assert bindings[..index + 1][..index] == bindings[..index];
      if !Active(binding, at) {
        continue;
      }
      var conflictKey := ConflictKey(binding.shortcut, at.mac);
      if conflictKey in claimed {
        continue;
      }
      claimed := claimed + {conflictKey};
      if binding.command == command {
        return Some(binding.shortcut);
      }
    }
    return None;
  }

  // ----- labels and dispatch agree -----

  /** The key event a shortcut describes, as a keyboard without physical codes would send it. */
  function PlainEvent(s: Shortcut, mac: bool): Event {
    Event(s.key, None, NeedsMeta(s, mac), NeedsCtrl(s, mac), s.shift, s.alt)
  }

  /** A shortcut whose key is as events spell it: in lower case, and not a key with another name. */
  predicate Normalized(s: Shortcut, at: Setting) {
    NormalizeKey(s.key, at.lower) == s.key
  }

  lemma PlainEventMatches(s: Shortcut, t: Shortcut, at: Setting)
    requires Normalized(s, at)
    ensures Matches(PlainEvent(s, at.mac), t, at) <==> ConflictKey(s, at.mac) == ConflictKey(t, at.mac)
  {
    ConflictKeyIsInjective(s, t, at.mac);
  }

  /**
   * A found shortcut that is not normalised, as one with an upper-case key, is triggered by no plain
   * event of its own: the event's key is spelt otherwise.
   */
  lemma OtherSpelling(s: Shortcut, at: Setting)
    ensures Matches(PlainEvent(s, at.mac), s, at) <==> Normalized(s, at)
  {
  }

  /** A shortcut found for a command triggers that command. */
  lemma {:induction false} FoundIsDispatched(bindings: seq<Binding>, command: string, at: Setting, claimed: set<string>)
    ensures var s := Effective(bindings, command, at, claimed);
            s.Some? ==>
              && ConflictKey(s.value, at.mac) !in claimed
              && (Normalized(s.value, at) ==> Resolve(PlainEvent(s.value, at.mac), bindings, at) == Some(command))
  {
    hide ConflictKey, PlainEvent, Matches, Active;
    var found := Effective(bindings, command, at, claimed);
    if bindings != [] && found.Some? {
      var last, rest := bindings[|bindings| - 1], bindings[..|bindings| - 1];
      if last.Rule? && Normalized(found.value, at) {
        PlainEventMatches(found.value, last.shortcut, at);
      }
      ActiveIsRule(last, at);
      FoundIsDispatched(rest, command, at, claimed);
      if last.Rule? {
        FoundIsDispatched(rest, command, at, claimed + {ConflictKey(last.shortcut, at.mac)});
      }
    }
  }

  /** Whatever event triggers a command, a shortcut is found for it. */
  lemma {:induction false} DispatchedIsFound(e: Event, bindings: seq<Binding>, at: Setting, claimed: set<string>)
    requires forall t: Shortcut :: Matches(e, t, at) ==> ConflictKey(t, at.mac) !in claimed
    ensures var command := Resolve(e, bindings, at);
            command.Some? ==> Effective(bindings, command.value, at, claimed).Some?
  {
    hide ConflictKey, Active;
    if bindings != [] {
      var last, rest := bindings[|bindings| - 1], bindings[..|bindings| - 1];
      ActiveIsRule(last, at);
      DispatchedIsFound(e, rest, at, claimed);
      if last.Rule? && !Matches(e, last.shortcut, at) {
        var more := claimed + {ConflictKey(last.shortcut, at.mac)};
        forall t: Shortcut | Matches(e, t, at)
          ensures ConflictKey(t, at.mac) !in more
        {
          ConflictKeyIsInjective(t, last.shortcut, at.mac);
        }
        DispatchedIsFound(e, rest, at, more);
      }
    }
  }

  // ----- with the built-in fallbacks -----

  /** The fallbacks for commands no well-formed entry configures. */
  function Fallbacks(defaults: seq<Binding>, bindings: seq<Binding>): seq<Binding> {
    if defaults == [] then []
    else (if defaults[0].Rule? && !Configured(bindings, defaults[0].command) then [defaults[0]] else []) + Fallbacks(defaults[1..], bindings)
  }

  predicate Configured(bindings: seq<Binding>, command: string) {
    command != "" && exists b <- bindings :: b.Rule? && b.command == command
  }

  /** resolveShortcutCommand */
  function Dispatch(e: Event, bindings: seq<Binding>, defaults: seq<Binding>, at: Setting): Option<string> {
    var explicit := Resolve(e, bindings, at);
    if explicit.Some? then explicit else Resolve(e, Fallbacks(defaults, bindings), at)
  }

  /** The shortcut shortcutLabelForCommand shows in a context. */
  function LabelShortcut(bindings: seq<Binding>, defaults: seq<Binding>, command: string, at: Setting): Option<Shortcut> {
    var explicit := Effective(bindings, command, at, {});
    if explicit.Some? then explicit else Effective(Fallbacks(defaults, bindings), command, at, {})
  }

  predicate Taken(bindings: seq<Binding>, s: Shortcut, at: Setting) {
    exists b <- bindings :: Active(b, at) && ConflictKey(b.shortcut, at.mac) == ConflictKey(s, at.mac)
  }

  lemma {:induction false} ResolveNothing(s: Shortcut, bindings: seq<Binding>, at: Setting)
    requires Normalized(s, at)
    ensures Resolve(PlainEvent(s, at.mac), bindings, at).None? <==> !Taken(bindings, s, at)
  {
    hide ConflictKey, PlainEvent, Matches, Active;
    if bindings != [] {
      var last, rest := bindings[|bindings| - 1], bindings[..|bindings| - 1];
      assert bindings == rest + [last];
      ResolveNothing(s, rest, at);
      if last.Rule? {
        PlainEventMatches(s, last.shortcut, at);
      }
      ActiveIsRule(last, at);
    }
  }

  lemma ActiveIsRule(b: Binding, at: Setting)
    ensures Active(b, at) ==> b.Rule?
  {
  }

  /** Whatever event triggers a command, with fallbacks too, the command has a label. */
  lemma DispatchedIsLabelled(e: Event, bindings: seq<Binding>, defaults: seq<Binding>, at: Setting)
    ensures var command := Dispatch(e, bindings, defaults, at);
            command.Some? ==> LabelShortcut(bindings, defaults, command.value, at).Some?
  {
    DispatchedIsFound(e, bindings, at, {});
    DispatchedIsFound(e, Fallbacks(defaults, bindings), at, {});
  }

  /**
   * The shortcut on a label triggers its command exactly when the label comes from the bindings
   * themselves or no active binding takes the fallback's chord.
   */
  lemma LabelIsDispatchedIff(bindings: seq<Binding>, defaults: seq<Binding>, command: string, at: Setting)
    ensures var s := LabelShortcut(bindings, defaults, command, at);
            s.Some? && Normalized(s.value, at) ==>
              (Dispatch(PlainEvent(s.value, at.mac), bindings, defaults, at) == Some(command)
               <==> Effective(bindings, command, at, {}).Some? || !Taken(bindings, s.value, at))
  {
    hide ConflictKey, PlainEvent, Matches, Active, Normalized, Taken, Resolve, Effective, Fallbacks;
    FoundIsDispatched(bindings, command, at, {});
    FoundIsDispatched(Fallbacks(defaults, bindings), command, at, {});
    var s := LabelShortcut(bindings, defaults, command, at);
    if s.Some? && Normalized(s.value, at) {
      ResolveNothing(s.value, bindings, at);
      DispatchedIsFound(PlainEvent(s.value, at.mac), bindings, at, {});
    }
  }

  /** A label that lies: a binding of another command on a fallback's chord. */
  lemma ShadowedFallback()
    ensures exists bindings, defaults, command, at ::
              var s := LabelShortcut(bindings, defaults, command, at);
              s.Some? && Normalized(s.value, at) && Dispatch(PlainEvent(s.value, at.mac), bindings, defaults, at) != Some(command)
  {
    var chord := Shortcut("i", false, false, false, false, true);
    var mine, builtin := Rule("chat.new", chord, None), Rule("sidebar.importThread", chord, None);
    var at := Setting(map[], true, (t: string) => t);
    assert [mine][..0] == [] && [builtin][..0] == [] && [builtin][1..] == [];
    assert Fallbacks([builtin], [mine]) == [builtin] by {
      assert !Configured([mine], "sidebar.importThread");
      assert Fallbacks([], [mine]) == [];
    }
    assert Effective([mine], "sidebar.importThread", at, {}) == None;
    assert Effective([builtin], "sidebar.importThread", at, {}) == Some(chord);
    assert LabelShortcut([mine], [builtin], "sidebar.importThread", at) == Some(chord);
    assert Resolve(PlainEvent(chord, true), [mine], at) == Some("chat.new");
  }
}
