// Deciding whether a window matches the configured rules: a single
// identifier is compared with the window's title, executable, class or path
// under one of the matching strategies, and a list of rules yields the last
// rule that matches. Compiled regular expressions are given as a map from
// pattern to matcher; the window's text is given as a value.

module WindowRules {

  import opened Wrappers
  import opened CoreRules
  import opened ConfigGeneration
  import Strings

  /** The four texts of a window that identifiers are matched against. */
  datatype WindowText = WindowText(title: string, exe: string, className: string, path: string)

  /** A compiled pattern per pattern text, each a test on a string. */
  type Regexes = map<string, string -> bool>

  /** The text an identifier kind looks at. */
  function Field(w: WindowText, kind: ApplicationIdentifier): string
  {
    match kind
    case Title => w.title
    case Class => w.className
    case Exe => w.exe
    case Path => w.path
  }

  /** The legacy strategy: titles and classes match on either end, executables and paths exactly. */
  function LegacyMatch(kind: ApplicationIdentifier, field: string, id: string): bool
  {
    if kind.Title? || kind.Class? then Strings.IsPrefix(id, field) || Strings.IsSuffix(id, field)
    else field == id
  }

  /** `should_act_individual`: a missing strategy behaves as `Legacy`. */
  function ShouldActIndividual(w: WindowText, identifier: IdWithIdentifier, regexes: Regexes): (r: bool)
    ensures Field(w, identifier.kind) == identifier.id && identifier.matchingStrategy != Some(Regex) ==>
      (r <==> identifier.matchingStrategy.None?
              || identifier.matchingStrategy.value !in {DoesNotEqual, DoesNotStartWith, DoesNotEndWith, DoesNotContain})
  {
    var field := Field(w, identifier.kind);
    var id := identifier.id;
    ContainsItself(field);
    match identifier.matchingStrategy
    case None => LegacyMatch(identifier.kind, field, id)
    case Some(strategy) =>
      match strategy
      case Legacy => LegacyMatch(identifier.kind, field, id)
      case Equals => field == id
      case DoesNotEqual => field != id
      case StartsWith => Strings.IsPrefix(id, field)
      case DoesNotStartWith => !Strings.IsPrefix(id, field)
      case EndsWith => Strings.IsSuffix(id, field)
      case DoesNotEndWith => !Strings.IsSuffix(id, field)
      case Contains => Strings.Contains(field, id)
      case DoesNotContain => !Strings.Contains(field, id)
      case Regex => id in regexes && regexes[id](field)
  }

  lemma ContainsItself(s: string)
    ensures Strings.IsPrefix(s, s) && Strings.IsSuffix(s, s) && Strings.Contains(s, s)
  {
  }

  /** The identifier with its strategy replaced. */
  function Using(identifier: IdWithIdentifier, strategy: MatchingStrategy): IdWithIdentifier
  {
    identifier.(matchingStrategy := Some(strategy))
  }

  /** Each negated strategy matches exactly the windows its positive form does not. */
  lemma NegatedStrategies(w: WindowText, identifier: IdWithIdentifier, regexes: Regexes)
    ensures ShouldActIndividual(w, Using(identifier, DoesNotEqual), regexes) == !ShouldActIndividual(w, Using(identifier, Equals), regexes)
    ensures ShouldActIndividual(w, Using(identifier, DoesNotStartWith), regexes) == !ShouldActIndividual(w, Using(identifier, StartsWith), regexes)
    ensures ShouldActIndividual(w, Using(identifier, DoesNotEndWith), regexes) == !ShouldActIndividual(w, Using(identifier, EndsWith), regexes)
    ensures ShouldActIndividual(w, Using(identifier, DoesNotContain), regexes) == !ShouldActIndividual(w, Using(identifier, Contains), regexes)
  {
  }

  /**
   * No strategy is the legacy one; for titles and classes it is "starts or
   * ends with", for executables and paths it is equality.
   */
  lemma LegacyStrategy(w: WindowText, identifier: IdWithIdentifier, regexes: Regexes)
    ensures ShouldActIndividual(w, identifier.(matchingStrategy := None), regexes) == ShouldActIndividual(w, Using(identifier, Legacy), regexes)
    ensures identifier.kind.Title? || identifier.kind.Class? ==>
      (ShouldActIndividual(w, Using(identifier, Legacy), regexes) <==>
       ShouldActIndividual(w, Using(identifier, StartsWith), regexes) || ShouldActIndividual(w, Using(identifier, EndsWith), regexes))
    ensures identifier.kind.Exe? || identifier.kind.Path? ==>
      ShouldActIndividual(w, Using(identifier, Legacy), regexes) == ShouldActIndividual(w, Using(identifier, Equals), regexes)
  {
  }

  /** A regular expression that was never compiled matches nothing. */
  lemma UncompiledRegexNeverMatches(w: WindowText, identifier: IdWithIdentifier, regexes: Regexes)
    requires identifier.id !in regexes
    ensures !ShouldActIndividual(w, Using(identifier, Regex), regexes)
  {
  }

  /** An identifier looks only at the text its kind selects. */
  lemma OnlySelectedField(w: WindowText, v: WindowText, identifier: IdWithIdentifier, regexes: Regexes)
    requires Field(w, identifier.kind) == Field(v, identifier.kind)
    ensures ShouldActIndividual(w, identifier, regexes) == ShouldActIndividual(v, identifier, regexes)
  {
  }

  /**
   * The strategies ordered by strength: an equal text starts and ends with
   * the id, and a text that starts or ends with it contains it.
   */
  lemma StrategyStrength(w: WindowText, identifier: IdWithIdentifier, regexes: Regexes)
    ensures ShouldActIndividual(w, Using(identifier, Equals), regexes) ==>
      ShouldActIndividual(w, Using(identifier, StartsWith), regexes) && ShouldActIndividual(w, Using(identifier, EndsWith), regexes)
    ensures ShouldActIndividual(w, Using(identifier, StartsWith), regexes) ==> ShouldActIndividual(w, Using(identifier, Contains), regexes)
    ensures ShouldActIndividual(w, Using(identifier, EndsWith), regexes) ==> ShouldActIndividual(w, Using(identifier, Contains), regexes)
  {
    var field := Field(w, identifier.kind);
    var id := identifier.id;
    if Strings.IsSuffix(id, field) {
      Strings.ContainsIffOccurs(field, id);
      assert Strings.OccursAt(field, id, |field| - |id|);
    }
  }

  // --------------------------------------------------------------- rules

  /** All identifiers of a composite rule match. */
  predicate AllMatch(w: WindowText, identifiers: seq<IdWithIdentifier>, regexes: Regexes)
  {
    forall k :: 0 <= k < |identifiers| ==> ShouldActIndividual(w, identifiers[k], regexes)
  }

  predicate Matches(w: WindowText, rule: MatchingRule, regexes: Regexes)
  {
    match rule
    case Simple(identifier) => ShouldActIndividual(w, identifier, regexes)
    case Composite(identifiers) => AllMatch(w, identifiers, regexes)
  }

  /** The last rule that matches, if any. */
  function LastMatching(w: WindowText, rules: seq<MatchingRule>, regexes: Regexes): Option<MatchingRule>
  {
    if |rules| == 0 then None
    else if Matches(w, rules[|rules| - 1], regexes) then Some(rules[|rules| - 1])
    else LastMatching(w, rules[..|rules| - 1], regexes)
  }

  /**
   * `should_act`: goes through every rule, remembering the latest that
   * matches; a composite rule is checked part by part and matches when every
   * part does.
   */
  method ShouldAct(w: WindowText, identifiers: seq<MatchingRule>, regexes: Regexes) returns (matchingRule: Option<MatchingRule>)
    ensures matchingRule == LastMatching(w, identifiers, regexes)
  {
    matchingRule := None;
    var i := 0;
    while i < |identifiers|
      invariant i <= |identifiers|
      invariant matchingRule == LastMatching(w, identifiers[..i], regexes)
    {
      assert identifiers[..i + 1][..i] == identifiers[..i];
      var rule := identifiers[i];
      match rule {
        case Simple(identifier) =>
          if ShouldActIndividual(w, identifier, regexes) {
            matchingRule := Some(rule);
          }
        case Composite(parts) =>
          var compositeResults: seq<bool> := [];
          var j := 0;
          while j < |parts|
            invariant j <= |parts| && |compositeResults| == j
            invariant forall k :: 0 <= k < j ==> compositeResults[k] == ShouldActIndividual(w, parts[k], regexes)
          {
            compositeResults := compositeResults + [ShouldActIndividual(w, parts[j], regexes)];
            j := j + 1;
          }
          if false !in compositeResults {
            matchingRule := Some(rule);
          } else {
            var k :| 0 <= k < |compositeResults| && !compositeResults[k];
            assert !ShouldActIndividual(w, parts[k], regexes);
          }
      }
      i := i + 1;
    }
    assert identifiers[..i] == identifiers;
  }

  /** Nothing is found exactly when no rule matches. */
  lemma {:induction false} LastMatchingNone(w: WindowText, rules: seq<MatchingRule>, regexes: Regexes)
    ensures LastMatching(w, rules, regexes).None? <==> forall i :: 0 <= i < |rules| ==> !Matches(w, rules[i], regexes)
  {
    if |rules| > 0 {
      var init := rules[..|rules| - 1];
      LastMatchingNone(w, init, regexes);
      assert forall i :: 0 <= i < |rules| - 1 ==> rules[i] == init[i];
    }
  }

  /** Rule `i` matches and no rule after it does. */
  predicate LastMatchAt(w: WindowText, rules: seq<MatchingRule>, regexes: Regexes, i: nat)
  {
    i < |rules| && Matches(w, rules[i], regexes) && forall j :: i < j < |rules| ==> !Matches(w, rules[j], regexes)
  }

  /** The rule found is a matching rule with no matching rule after it. */
  lemma {:induction false} LastMatchingIsLast(w: WindowText, rules: seq<MatchingRule>, regexes: Regexes)
    requires LastMatching(w, rules, regexes).Some?
    ensures exists i: nat :: LastMatchAt(w, rules, regexes, i) && rules[i] == LastMatching(w, rules, regexes).value
  {
    var init := rules[..|rules| - 1];
    if Matches(w, rules[|rules| - 1], regexes) {
      assert LastMatchAt(w, rules, regexes, |rules| - 1);
    } else {
      LastMatchingIsLast(w, init, regexes);
      var i: nat :| LastMatchAt(w, init, regexes, i) && init[i] == LastMatching(w, init, regexes).value;
      assert forall j :: i <= j < |rules| - 1 ==> rules[j] == init[j];
      assert LastMatchAt(w, rules, regexes, i);
    }
  }

  /** A composite rule with no parts matches every window. */
  lemma EmptyCompositeMatches(w: WindowText, regexes: Regexes)
    ensures LastMatching(w, [Composite([])], regexes) == Some(Composite([]))
  {
  }

  // --------------------------------------------------------- aspect ratio

  datatype PredefinedAspectRatio = Ultrawide | Widescreen | Standard

  datatype AspectRatio = Predefined(predefined: PredefinedAspectRatio) | Custom(w: int, h: int)

  /** The default ratio is the standard 4:3. */
  const DefaultAspectRatio: AspectRatio := Predefined(Standard)

  /** `width_and_height`: predefined ratios are landscape; a custom pair is returned as given. */
  function WidthAndHeight(ratio: AspectRatio): (r: (int, int))
    ensures ratio.Predefined? ==> r.0 > r.1 > 0
    ensures ratio.Custom? ==> r == (ratio.w, ratio.h)
    ensures ratio == DefaultAspectRatio ==> r == (4, 3)
  {
    match ratio
    case Predefined(predefined) =>
      (match predefined
       case Ultrawide => (21, 9)
       case Widescreen => (16, 9)
       case Standard => (4, 3))
    case Custom(w, h) => (w, h)
  }
}
