/** Key bindings in their own fields: what a chord asks for, when a rule applies, and which rule decides. */
module KeybindingRules {
  import opened Wrappers
  import opened Keybindings

  // ----- what a chord asks for -----

  /** The general modifier is the command key on a Mac and the control key elsewhere. */
  predicate ModifiersDown(e: Event, s: Shortcut, mac: bool) {
    && (e.meta <==> s.meta || (mac && s.mod)) && (e.ctrl <==> s.ctrl || (!mac && s.mod))
    && (e.shift <==> s.shift) && (e.alt <==> s.alt)
  }

  /** The event types the key, or its physical key stands for it. */
  predicate KeyDown(e: Event, s: Shortcut, at: Setting) {
    s.key == NormalizeKey(e.key, at.lower) || (e.code.Some? && Alias(e.code.value) == Some(s.key))
  }

  lemma MatchesIff(e: Event, s: Shortcut, at: Setting)
    ensures Matches(e, s, at) <==> ModifiersDown(e, s, at.mac) && KeyDown(e, s, at)
  {
    hide Alias, NormalizeKey;
  }

  /** Keys are compared in lower case; the short name of escape and the shifted brackets count as the plain ones. */
  lemma KeySpelling(key: string, lower: string -> string)
    ensures lower(key) in {"esc", "escape"} <==> NormalizeKey(key, lower) == "escape"
    ensures lower(key) in {"{", "["} <==> NormalizeKey(key, lower) == "["
    ensures lower(key) in {"}", "]"} <==> NormalizeKey(key, lower) == "]"
    ensures lower(key) !in {"esc", "{", "}"} ==> NormalizeKey(key, lower) == lower(key)
  {
  }

  /** The physical letter, digit and bracket keys stand for what they show, and no other code stands for anything. */
  lemma AliasIs(code: string, key: char)
    ensures Alias(code) == Some([key]) <==>
            || ('a' <= key <= 'z' && code == "Key" + [key - 'a' + 'A'])
            || ('0' <= key <= '9' && code == "Digit" + [key])
            || (key == '[' && code == "BracketLeft") || (key == ']' && code == "BracketRight")
    ensures Alias(code).Some? ==> |Alias(code).value| == 1
  {
    if |code| == 4 && code[..3] == "Key" {
      assert code == "Key" + [code[3]];
    }
    if |code| == 6 && code[..5] == "Digit" {
      assert code == "Digit" + [code[5]];
    }
    if 'a' <= key <= 'z' {
      var it := "Key" + [key - 'a' + 'A'];
      assert it[..3] == "Key" && it[3] == key - 'a' + 'A';
    }
    if '0' <= key <= '9' {
      var it := "Digit" + [key];
      assert it[..5] == "Digit" && it[5] == key;
    }
  }

  // ----- when a rule applies -----

  /** The same condition with every negation moved to a name. */
  function Inward(node: When, negated: bool): When {
    match node
    case Identifier(_) => if negated then Not(node) else node
    case Not(inner) => Inward(inner, !negated)
    case And(left, right) => if negated then Or(Inward(left, true), Inward(right, true)) else And(Inward(left, false), Inward(right, false))
    case Or(left, right) => if negated then And(Inward(left, true), Inward(right, true)) else Or(Inward(left, false), Inward(right, false))
  }

  predicate OnNamesOnly(node: When) {
    match node
    case Identifier(_) => true
    case Not(inner) => inner.Identifier?
    case And(left, right) => OnNamesOnly(left) && OnNamesOnly(right)
    case Or(left, right) => OnNamesOnly(left) && OnNamesOnly(right)
  }

  /** Negations may be moved to the names by the usual laws. */
  lemma {:induction false} NegationMovesInward(node: When, negated: bool, context: map<string, bool>)
    ensures OnNamesOnly(Inward(node, negated))
    ensures Evaluate(Inward(node, negated), context) <==> Evaluate(node, context) != negated
  {
    match node
    case Identifier(_) =>
    case Not(inner) => NegationMovesInward(inner, !negated, context);
    case And(left, right) =>
      NegationMovesInward(left, negated, context);
      NegationMovesInward(right, negated, context);
    case Or(left, right) =>
      NegationMovesInward(left, negated, context);
      NegationMovesInward(right, negated, context);
  }

  /** A name holds when the context sets it; true and false mean themselves, and an unknown name does not hold. Both parts, or one. */
  lemma NamesHold(name: string, left: When, right: When, context: map<string, bool>)
    ensures Evaluate(Identifier(name), context) <==>
            name == "true" || (name != "false" && name in context && context[name])
    ensures Evaluate(And(left, right), context) ==> Evaluate(left, context) && Evaluate(right, context)
    ensures Evaluate(left, context) ==> Evaluate(Or(left, right), context) && Evaluate(Or(right, left), context)
  {
  }

  /** A well-formed rule whose condition holds. */
  predicate Applies(b: Binding, at: Setting) {
    b.Rule? && b.command != "" && (b.when == None || (b.when.Some? && Evaluate(b.when.value, at.context)))
  }

  // ----- which rule decides -----

  /** This rule applies and matches, and no later one does. */
  predicate Decides(bindings: seq<Binding>, i: nat, e: Event, at: Setting) {
    && i < |bindings| && Applies(bindings[i], at) && Matches(e, bindings[i].shortcut, at)
    && forall j :: i < j < |bindings| && Applies(bindings[j], at) ==> !Matches(e, bindings[j].shortcut, at)
  }

  /** An event triggers the command of the last rule that applies and matches. */
  lemma {:induction false} ResolveIff(e: Event, bindings: seq<Binding>, at: Setting, command: string)
    ensures Resolve(e, bindings, at) == Some(command) <==>
            exists i: nat :: Decides(bindings, i, e, at) && bindings[i].command == command
  {
    hide Matches, Evaluate;
    if bindings != [] {
      var n := |bindings| - 1;
      var last, rest := bindings[n], bindings[..n];
      ResolveIff(e, rest, at, command);
      assert Active(last, at) <==> Applies(last, at);
      if Applies(last, at) && Matches(e, last.shortcut, at) {
        assert Decides(bindings, n, e, at);
      } else {
        forall i: nat
          ensures Decides(bindings, i, e, at) <==> Decides(rest, i, e, at)
        {
          if Decides(rest, i, e, at) {
            assert forall j :: i < j < |bindings| ==> j == n || bindings[j] == rest[j];
          }
          if Decides(bindings, i, e, at) {
            assert i != n;
          }
        }
      }
    }
  }

  /** This rule applies, and no later rule that applies is pressed alike. */
  predicate Open(bindings: seq<Binding>, i: nat, at: Setting) {
    && i < |bindings| && Applies(bindings[i], at)
    && forall j :: i < j < |bindings| && Applies(bindings[j], at) ==> !SameChord(bindings[i].shortcut, bindings[j].shortcut, at.mac)
  }

  /** The last rule for the command whose chord no later rule has taken. */
  predicate LastOpen(bindings: seq<Binding>, i: nat, command: string, at: Setting) {
    && Open(bindings, i, at) && bindings[i].command == command
    && forall j :: i < j < |bindings| && Open(bindings, j, at) ==> bindings[j].command != command
  }

  /** Open still, when some chords are taken from the start. */
  predicate OpenBut(bindings: seq<Binding>, i: nat, at: Setting, claimed: set<string>) {
    Open(bindings, i, at) && ConflictKey(bindings[i].shortcut, at.mac) !in claimed
  }

  predicate LastOpenBut(bindings: seq<Binding>, i: nat, command: string, at: Setting, claimed: set<string>) {
    && OpenBut(bindings, i, at, claimed) && bindings[i].command == command
    && forall j :: i < j < |bindings| && OpenBut(bindings, j, at, claimed) ==> bindings[j].command != command
  }

  lemma OpenShorter(bindings: seq<Binding>, i: nat, at: Setting, claimed: set<string>)
    requires i + 1 < |bindings|
    ensures var n := |bindings| - 1;
            var more := if Applies(bindings[n], at) then claimed + {ConflictKey(bindings[n].shortcut, at.mac)} else claimed;
            OpenBut(bindings, i, at, claimed) <==> OpenBut(bindings[..n], i, at, more)
  {
    hide Applies, ConflictKey, SameChord;
    var n := |bindings| - 1;
    var rest := bindings[..n];
    assert forall j :: i < j < |bindings| ==> j == n || bindings[j] == rest[j];
    if Applies(bindings[n], at) && Applies(bindings[i], at) {
      AppliesIsRule(bindings[n], at);
      AppliesIsRule(bindings[i], at);
      ConflictKeyIsInjective(bindings[i].shortcut, bindings[n].shortcut, at.mac);
    }
  }

  lemma AppliesIsRule(b: Binding, at: Setting)
    ensures Applies(b, at) <==> Active(b, at)
    ensures Applies(b, at) ==> b.Rule?
  {
    hide Evaluate;
  }

  lemma LastOpenShorter(bindings: seq<Binding>, i: nat, command: string, at: Setting, claimed: set<string>)
    requires i + 1 < |bindings|
    requires var n := |bindings| - 1; OpenBut(bindings, n, at, claimed) ==> bindings[n].Rule? && bindings[n].command != command
    ensures var n := |bindings| - 1;
            var more := if Applies(bindings[n], at) then claimed + {ConflictKey(bindings[n].shortcut, at.mac)} else claimed;
            LastOpenBut(bindings, i, command, at, claimed) <==> LastOpenBut(bindings[..n], i, command, at, more)
  {
    hide OpenBut, ConflictKey;
    var n := |bindings| - 1;
    forall j: nat | j < n
      ensures var more := if Applies(bindings[n], at) then claimed + {ConflictKey(bindings[n].shortcut, at.mac)} else claimed;
              OpenBut(bindings, j, at, claimed) <==> OpenBut(bindings[..n], j, at, more)
    {
      OpenShorter(bindings, j, at, claimed);
    }
    hide Applies;
  }

  lemma LastIsOpen(bindings: seq<Binding>, at: Setting, claimed: set<string>)
    requires bindings != []
    ensures var n := |bindings| - 1;
            OpenBut(bindings, n, at, claimed) <==> Applies(bindings[n], at) && ConflictKey(bindings[n].shortcut, at.mac) !in claimed
  {
    hide Applies, ConflictKey;
  }

  lemma EffectiveNothing(command: string, at: Setting, claimed: set<string>)
    ensures Effective([], command, at, claimed) == None
    ensures forall i: nat :: !LastOpenBut([], i, command, at, claimed)
  {
  }

  lemma EffectiveStep(bindings: seq<Binding>, command: string, at: Setting, claimed: set<string>)
    requires bindings != []
    ensures var n := |bindings| - 1;
            var last := bindings[n];
            var more := if Applies(last, at) then claimed + {ConflictKey(last.shortcut, at.mac)} else claimed;
            Effective(bindings, command, at, claimed) ==
            if OpenBut(bindings, n, at, claimed) && last.command == command then Some(last.shortcut)
            else Effective(bindings[..n], command, at, more)
  {
    hide ConflictKey, Applies, OpenBut, Active;
    var n := |bindings| - 1;
    AppliesIsRule(bindings[n], at);
    LastIsOpen(bindings, at, claimed);
    if Applies(bindings[n], at) && ConflictKey(bindings[n].shortcut, at.mac) in claimed {
      assert claimed + {ConflictKey(bindings[n].shortcut, at.mac)} == claimed;
    }
  }

  lemma {:induction false} EffectiveFrom(bindings: seq<Binding>, command: string, at: Setting, claimed: set<string>, s: Shortcut)
    ensures Effective(bindings, command, at, claimed) == Some(s) <==>
            exists i: nat :: LastOpenBut(bindings, i, command, at, claimed) && bindings[i].shortcut == s
  {
    hide ConflictKey, OpenBut, Applies, Active, Effective;
    if bindings == [] {
      EffectiveNothing(command, at, claimed);
    } else {
      var n := |bindings| - 1;
      var last, rest := bindings[n], bindings[..n];
      AppliesIsRule(last, at);
      LastIsOpen(bindings, at, claimed);
      var more := if Applies(last, at) then claimed + {ConflictKey(last.shortcut, at.mac)} else claimed;
      InBounds(bindings, rest, command, at, claimed, more);
      EffectiveStep(bindings, command, at, claimed);
      if OpenBut(bindings, n, at, claimed) && last.command == command {
        assert LastOpenBut(bindings, n, command, at, claimed);
        assert forall i: nat :: LastOpenBut(bindings, i, command, at, claimed) ==> i == n;
      } else {
        assert !LastOpenBut(bindings, n, command, at, claimed);
        EffectiveFrom(rest, command, at, more, s);
        forall i: nat | i < n
          ensures LastOpenBut(bindings, i, command, at, claimed) <==> LastOpenBut(rest, i, command, at, more)
        {
          LastOpenShorter(bindings, i, command, at, claimed);
        }
      }
    }
  }

  lemma InBounds(bindings: seq<Binding>, rest: seq<Binding>, command: string, at: Setting, claimed: set<string>, more: set<string>)
    ensures forall i: nat :: LastOpenBut(bindings, i, command, at, claimed) ==> i < |bindings|
    ensures forall i: nat :: LastOpenBut(rest, i, command, at, more) ==> i < |rest|
  {
  }

  /** A command is labelled with the chord of its last rule that no later rule has taken. */
  lemma EffectiveIff(bindings: seq<Binding>, command: string, at: Setting, s: Shortcut)
    ensures Effective(bindings, command, at, {}) == Some(s) <==>
            exists i: nat :: LastOpen(bindings, i, command, at) && bindings[i].shortcut == s
  {
    EffectiveFrom(bindings, command, at, {}, s);
    hide Open, Effective, ConflictKey;
    forall i: nat
      ensures LastOpen(bindings, i, command, at) <==> LastOpenBut(bindings, i, command, at, {})
    {
      assert forall j: nat :: OpenBut(bindings, j, at, {}) <==> Open(bindings, j, at);
    }
  }

  /** The fallbacks are the built-in rules whose command no well-formed entry names, whatever its condition. */
  lemma {:induction false} FallbacksAre(defaults: seq<Binding>, bindings: seq<Binding>, d: Binding)
    ensures d in Fallbacks(defaults, bindings) <==>
            d in defaults && d.Rule? && (d.command == "" || forall b <- bindings :: b.Rule? ==> b.command != d.command)
  {
    if defaults != [] {
      FallbacksAre(defaults[1..], bindings, d);
      assert defaults == [defaults[0]] + defaults[1..];
    }
  }
}
