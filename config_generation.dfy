// Application configuration rules: the matching-rule vocabulary, the default
// matching strategy, merging an override list into a base list, and the
// generation of `komorebic` command lines (PowerShell or AutoHotkey) in which
// each float rule appears once. Loading and serialising YAML is not part of
// this model: configurations arrive as values.

module ConfigGeneration {

  import opened Wrappers
  import opened CoreRules
  import Strings

  datatype ApplicationOptions = ObjectNameChange | Layered | TrayAndMultiWindow | Force | BorderOverflow

  datatype MatchingStrategy =
    | Legacy | Equals | StartsWith | EndsWith | Contains | Regex
    | DoesNotEndWith | DoesNotStartWith | DoesNotEqual | DoesNotContain

  datatype IdWithIdentifier = IdWithIdentifier(kind: ApplicationIdentifier, id: string, matchingStrategy: Option<MatchingStrategy>)

  /** A simple rule must hold; a composite rule holds when all its parts do. */
  datatype MatchingRule = Simple(identifier: IdWithIdentifier) | Composite(identifiers: seq<IdWithIdentifier>)

  datatype ApplicationConfiguration = ApplicationConfiguration(
    name: string,
    identifier: IdWithIdentifier,
    options: Option<seq<ApplicationOptions>>,
    ignoreIdentifiers: Option<seq<MatchingRule>>)

  function NameOf(c: ApplicationConfiguration): string { c.name }

  // ------------------------------------------------- default strategies

  /**
   * `populate_default_matching_strategies`: an executable or path identifier
   * with no strategy gets `Equals`; everything else is left alone.
   */
  function PopulateDefault(c: ApplicationConfiguration): (r: ApplicationConfiguration)
    ensures r.identifier.kind.Exe? || r.identifier.kind.Path? ==> r.identifier.matchingStrategy.Some?
    ensures c.identifier.matchingStrategy.Some? ==> r == c
  {
    if c.identifier.matchingStrategy.None? && (c.identifier.kind.Exe? || c.identifier.kind.Path?) then
      c.(identifier := c.identifier.(matchingStrategy := Some(Equals)))
    else c
  }

  /**
   * Populating changes nothing but a missing strategy of an executable or
   * path identifier, which becomes `Equals`; it is idempotent, and afterwards
   * every executable and path identifier has a strategy.
   */
  lemma PopulateDefaultEffect(c: ApplicationConfiguration)
    ensures var r := PopulateDefault(c);
      r.name == c.name && r.options == c.options && r.ignoreIdentifiers == c.ignoreIdentifiers
      && r.identifier.kind == c.identifier.kind && r.identifier.id == c.identifier.id
      && (c.identifier.matchingStrategy.Some? ==> r == c)
      && (c.identifier.kind.Class? || c.identifier.kind.Title? ==> r == c)
      && (r.identifier.kind.Exe? || r.identifier.kind.Path? ==> r.identifier.matchingStrategy.Some?)
      && PopulateDefault(r) == r
  {
  }

  function PopulateAll(cs: seq<ApplicationConfiguration>): (r: seq<ApplicationConfiguration>)
    ensures |r| == |cs| && forall i :: 0 <= i < |cs| ==> r[i] == PopulateDefault(cs[i])
  {
    if |cs| == 0 then [] else [PopulateDefault(cs[0])] + PopulateAll(cs[1..])
  }

  /**
   * `format`: every configuration gets its default strategy, then the list is
   * sorted by name; the result is a sorted permutation of the populated list.
   */
  method Format(cs: seq<ApplicationConfiguration>) returns (r: seq<ApplicationConfiguration>)
    ensures Strings.SortedBy(r, NameOf)
    ensures multiset(r) == multiset(PopulateAll(cs))
  {
    var cfgen := cs;
    var i := 0;
    while i < |cfgen|
      invariant |cfgen| == |cs| && i <= |cs|
      invariant forall k :: 0 <= k < i ==> cfgen[k] == PopulateDefault(cs[k])
      invariant forall k :: i <= k < |cs| ==> cfgen[k] == cs[k]
    {
      cfgen := cfgen[i := PopulateDefault(cfgen[i])];
      i := i + 1;
    }
    assert cfgen == PopulateAll(cs);
    r := Strings.SortBy(cfgen, NameOf);
    Strings.SortBySortedPermutation(cfgen, NameOf);
  }

  // --------------------------------------------------------------- merge

  /** The last position of a configuration with this name. */
  function LastNamed(xs: seq<ApplicationConfiguration>, name: string): (r: Option<nat>)
    ensures r.Some? ==> (r.value < |xs| && xs[r.value].name == name
                         && forall k :: r.value < k < |xs| ==> xs[k].name != name)
    ensures r.None? ==> forall k :: 0 <= k < |xs| ==> xs[k].name != name
  {
    if |xs| == 0 then None
    else if xs[|xs| - 1].name == name then Some(|xs| - 1)
    else LastNamed(xs[..|xs| - 1], name)
  }

  /** Override entries whose name the base list does not have, in order. */
  function Unmatched(base: seq<ApplicationConfiguration>, over: seq<ApplicationConfiguration>): seq<ApplicationConfiguration>
  {
    if |over| == 0 then []
    else
      var entry := over[|over| - 1];
      Unmatched(base, over[..|over| - 1]) + (if LastNamed(base, entry.name).None? then [entry] else [])
  }

  /** Merging the override entries `over` into `base`, one entry at a time. */
  function Merged(base: seq<ApplicationConfiguration>, over: seq<ApplicationConfiguration>): (r: seq<ApplicationConfiguration>)
    ensures |r| >= |base|
  {
    if |over| == 0 then base
    else
      var m := Merged(base, over[..|over| - 1]);
      var entry := over[|over| - 1];
      match LastNamed(base, entry.name)
      case None => m + [entry]
      case Some(idx) => m[idx := entry]
  }

  /**
   * `merge`: each override entry replaces the last base entry of the same
   * name, or is appended when the base list has none. Names are looked up in
   * the original base list, never among appended entries.
   */
  method Merge(base: seq<ApplicationConfiguration>, over: seq<ApplicationConfiguration>) returns (merged: seq<ApplicationConfiguration>)
    ensures merged == Merged(base, over)
  {
    merged := base;
    var i := 0;
    while i < |over|
      invariant i <= |over| && merged == Merged(base, over[..i])
    {
      var entry := over[i];
      var replaceIdx: Option<nat> := None;
      var j := 0;
      while j < |base|
        invariant j <= |base| && replaceIdx == LastNamed(base[..j], entry.name)
      {
        if base[j].name == entry.name {
          replaceIdx := Some(j);
        }
        assert base[..j + 1][..j] == base[..j];
        j := j + 1;
      }
      assert base[..j] == base;
      assert over[..i + 1][..i] == over[..i];
      match replaceIdx {
        case None =>
          merged := merged + [entry];
        case Some(idx) =>
          merged := merged[idx := entry];
      }
      i := i + 1;
    }
    assert over[..i] == over;
  }

  /**
   * Every base position keeps its entry unless it is the last base entry of
   * a name that the override list also has; that position then holds the
   * last override entry of the name. The entries after the base are the
   * overrides with new names, in order.
   */
  lemma {:induction false} MergedCharacterised(base: seq<ApplicationConfiguration>, over: seq<ApplicationConfiguration>)
    ensures |Merged(base, over)| == |base| + |Unmatched(base, over)|
    ensures Merged(base, over)[|base|..] == Unmatched(base, over)
    ensures forall k :: 0 <= k < |base| ==>
      Merged(base, over)[k] ==
        (var o := LastNamed(over, base[k].name);
         if LastNamed(base, base[k].name) == Some(k) && o.Some? then over[o.value] else base[k])
  {
    MergedShape(base, over);
    if |over| > 0 {
      var init := over[..|over| - 1];
      MergedCharacterised(base, init);
      forall k | 0 <= k < |base|
        ensures Merged(base, over)[k] ==
          (var o := LastNamed(over, base[k].name);
           if LastNamed(base, base[k].name) == Some(k) && o.Some? then over[o.value] else base[k])
      {
        MergedAtStep(base, over, k);
      }
    }
  }

  /** The merged list is the base, updated in place, followed by the unmatched overrides. */
  lemma {:induction false} MergedShape(base: seq<ApplicationConfiguration>, over: seq<ApplicationConfiguration>)
    ensures |Merged(base, over)| == |base| + |Unmatched(base, over)|
    ensures Merged(base, over)[|base|..] == Unmatched(base, over)
  {
    if |over| > 0 {
      var init := over[..|over| - 1];
      var entry := over[|over| - 1];
      MergedShape(base, init);
      var m := Merged(base, init);
      match LastNamed(base, entry.name)
      case None =>
        assert (m + [entry])[|base|..] == m[|base|..] + [entry];
      case Some(idx) =>
        assert m[idx := entry][|base|..] == m[|base|..];
    }
  }

  lemma MergedAtStep(base: seq<ApplicationConfiguration>, over: seq<ApplicationConfiguration>, k: nat)
    requires |over| > 0 && k < |base|
    requires var init := over[..|over| - 1];
      |Merged(base, init)| == |base| + |Unmatched(base, init)|
      && Merged(base, init)[k] ==
        (var o := LastNamed(init, base[k].name);
         if LastNamed(base, base[k].name) == Some(k) && o.Some? then init[o.value] else base[k])
    ensures Merged(base, over)[k] ==
      (var o := LastNamed(over, base[k].name);
       if LastNamed(base, base[k].name) == Some(k) && o.Some? then over[o.value] else base[k])
  {
    var init := over[..|over| - 1];
    var entry := over[|over| - 1];
    if entry.name != base[k].name {
      assert LastNamed(over, base[k].name) == LastNamed(init, base[k].name);
    }
  }

  /** Every merged entry comes from one of the two lists. */
  lemma {:induction false} MergedFrom(base: seq<ApplicationConfiguration>, over: seq<ApplicationConfiguration>)
    ensures forall x :: x in Merged(base, over) ==> x in base || x in over
  {
    if |over| > 0 {
      var init := over[..|over| - 1];
      MergedFrom(base, init);
      forall x | x in Merged(base, over)
        ensures x in base || x in over
      {
        if x != over[|over| - 1] {
          var m := Merged(base, init);
          assert x in m by {
            var i :| 0 <= i < |Merged(base, over)| && Merged(base, over)[i] == x;
            match LastNamed(base, over[|over| - 1].name) {
              case None => assert x == m[i];
              case Some(idx) => assert i != idx && x == m[i];
            }
          }
          assert x in init ==> x in over;
        }
      }
    }
  }

  // ----------------------------------------------------------- generation

  /** The two script dialects a configuration is generated for. */
  datatype Style = Pwsh | Ahk

  /** No entry asks for the deprecated option, whose command generation panics. */
  predicate Current(c: ApplicationConfiguration)
  {
    c.options.Some? ==> BorderOverflow !in c.options.value
  }

  const Komorebic: string := "komorebic.exe "
  const RunWaitOpen: string := "RunWait('"
  const RunWaitClose: string := "', , \"Hide\")"

  /** The `komorebic` subcommand that an option asks for. */
  function Subcommand(opt: ApplicationOptions): (s: string)
    requires opt != BorderOverflow
    ensures |s| > 0 && s[0] != 'f'
  {
    match opt
    case ObjectNameChange => "identify-object-name-change-application"
    case Layered => "identify-layered-application"
    case TrayAndMultiWindow => "identify-tray-application"
    case Force => "manage-rule"
  }

  /** An identifier kind and its quoted id, as the commands print them. */
  function Quoted(kind: ApplicationIdentifier, id: string): string
  {
    IdentifierName(kind) + " \"" + id + "\""
  }

  /** `raw_cfgen`: the `komorebic` command for an option. */
  function RawCfgen(opt: ApplicationOptions, kind: ApplicationIdentifier, id: string): (r: string)
    requires opt != BorderOverflow
    ensures |Komorebic| < |r| && r[..|Komorebic|] == Komorebic && r[|r| - 1] == '"'
  {
    Komorebic + Subcommand(opt) + " " + Quoted(kind, id)
  }

  /** `cfgen`: the AutoHotkey wrapping of a command. */
  function RunWaitHidden(command: string): (r: string)
    ensures |r| == |RunWaitOpen| + |command| + |RunWaitClose|
    ensures r[|RunWaitOpen|..|RunWaitOpen| + |command|] == command
  {
    RunWaitOpen + command + RunWaitClose
  }

  function OptionLine(style: Style, opt: ApplicationOptions, kind: ApplicationIdentifier, id: string): string
    requires opt != BorderOverflow
  {
    match style
    case Pwsh => RawCfgen(opt, kind, id)
    case Ahk => RunWaitHidden(RawCfgen(opt, kind, id))
  }

  function CommentMark(style: Style): string
  {
    match style
    case Pwsh => "# "
    case Ahk => "; "
  }

  function Header(style: Style): seq<string>
  {
    [CommentMark(style) + GeneratedBy, ""]
  }

  function TrayNote(style: Style): string
  {
    CommentMark(style) + TrayText
  }

  const GeneratedBy: string := "Generated by komorebic.exe"
  const TrayText: string := "If you have disabled minimize/close to tray for this application, you can delete/comment out the next line"

  /** What every float-rule line, and no other line, starts with. */
  function FloatRulePrefix(style: Style): string
  {
    match style
    case Pwsh => Komorebic + "float-rule "
    case Ahk => RunWaitOpen + Komorebic + "float-rule "
  }

  /** The command that floats windows matching a simple ignore rule. */
  function FloatRule(style: Style, float: IdWithIdentifier): (s: string)
  {
    var command := Komorebic + "float-rule " + Quoted(float.kind, float.id);
    match style
    case Pwsh => command
    case Ahk => RunWaitHidden(command)
  }

  /** The lines for an application's options, each tray option preceded by its note. */
  function OptionLines(style: Style, kind: ApplicationIdentifier, id: string, opts: seq<ApplicationOptions>): seq<string>
    requires BorderOverflow !in opts
  {
    if |opts| == 0 then [] else OptionLines(style, kind, id, opts[..|opts| - 1]) + OptionBlock(style, opts[|opts| - 1], kind, id)
  }

  /** The lines for one option: its command, after a note for the tray option. */
  function OptionBlock(style: Style, opt: ApplicationOptions, kind: ApplicationIdentifier, id: string): seq<string>
    requires opt != BorderOverflow
  {
    (if opt == TrayAndMultiWindow then [TrayNote(style)] else []) + [OptionLine(style, opt, kind, id)]
  }

  /**
   * The float rules emitted so far, after going through `rules` with `seen`
   * already emitted: a simple rule's command is added unless it is there;
   * composite rules emit nothing.
   */
  function SeenAfter(style: Style, rules: seq<MatchingRule>, seen: seq<string>): (r: seq<string>)
    ensures |seen| <= |r| && r[..|seen|] == seen
  {
    if |rules| == 0 then seen
    else
      var s := SeenAfter(style, rules[..|rules| - 1], seen);
      var rule := rules[|rules| - 1];
      if rule.Simple? && FloatRule(style, rule.identifier) !in s then s + [FloatRule(style, rule.identifier)] else s
  }

  function IgnoreRules(app: ApplicationConfiguration): seq<MatchingRule>
  {
    if app.ignoreIdentifiers.Some? then app.ignoreIdentifiers.value else []
  }

  function Options(app: ApplicationConfiguration): seq<ApplicationOptions>
  {
    if app.options.Some? then app.options.value else []
  }

  /** The lines of one application, given the float rules already emitted. */
  function AppLines(style: Style, app: ApplicationConfiguration, seen: seq<string>): seq<string>
    requires Current(app)
  {
    [CommentMark(style) + app.name]
      + OptionLines(style, app.identifier.kind, app.identifier.id, Options(app))
      + SeenAfter(style, IgnoreRules(app), seen)[|seen|..]
      + [""]
  }

  /** Every float rule emitted for the applications `apps`, in order. */
  function AllSeen(style: Style, apps: seq<ApplicationConfiguration>): seq<string>
  {
    if |apps| == 0 then []
    else SeenAfter(style, IgnoreRules(apps[|apps| - 1]), AllSeen(style, apps[..|apps| - 1]))
  }

  function Body(style: Style, apps: seq<ApplicationConfiguration>): seq<string>
    requires forall a :: a in apps ==> Current(a)
  {
    if |apps| == 0 then []
    else Body(style, apps[..|apps| - 1]) + AppLines(style, apps[|apps| - 1], AllSeen(style, apps[..|apps| - 1]))
  }

  /** The applications in the order they are generated: merged if there is an override, sorted by name. */
  function Ordered(base: seq<ApplicationConfiguration>, over: Option<seq<ApplicationConfiguration>>): (r: seq<ApplicationConfiguration>)
    ensures (forall a :: a in base ==> Current(a)) && (over.Some? ==> forall a :: a in over.value ==> Current(a))
      ==> (forall a :: a in r ==> Current(a))
  {
    var cfgen := if over.Some? then Merged(base, over.value) else base;
    if over.Some? then
      MergedFrom(base, over.value);
      SortedFrom(cfgen);
      Strings.SortBy(cfgen, NameOf)
    else
      SortedFrom(cfgen);
      Strings.SortBy(cfgen, NameOf)
  }

  lemma SortedFrom(cfgen: seq<ApplicationConfiguration>)
    ensures forall a :: a in Strings.SortBy(cfgen, NameOf) ==> a in cfgen
  {
    Strings.SortBySortedPermutation(cfgen, NameOf);
    forall a | a in Strings.SortBy(cfgen, NameOf)
      ensures a in cfgen
    {
      assert a in multiset(Strings.SortBy(cfgen, NameOf));
    }
  }

  /** The option lines of one application, as the inner loop of the generators writes them. */
  method WriteOptions(style: Style, app: ApplicationConfiguration, lines: seq<string>) returns (out: seq<string>)
    requires Current(app)
    ensures out == lines + OptionLines(style, app.identifier.kind, app.identifier.id, Options(app))
  {
    out := lines;
    var opts := Options(app);
    var j := 0;
    while j < |opts|
      invariant j <= |opts|
      invariant out == lines + OptionLines(style, app.identifier.kind, app.identifier.id, opts[..j])
    {
      WriteOptionsStep(style, app.identifier.kind, app.identifier.id, opts, j, lines, out);
      out := out + OptionBlock(style, opts[j], app.identifier.kind, app.identifier.id);
      j := j + 1;
    }
    assert opts[..j] == opts;
  }

  lemma WriteOptionsStep(style: Style, kind: ApplicationIdentifier, id: string, opts: seq<ApplicationOptions>, j: nat,
                         lines: seq<string>, out: seq<string>)
    requires j < |opts| && BorderOverflow !in opts
    requires out == lines + OptionLines(style, kind, id, opts[..j])
    ensures out + OptionBlock(style, opts[j], kind, id) == lines + OptionLines(style, kind, id, opts[..j + 1])
  {
    OptionLinesStep(style, kind, id, opts, j);
    Strings.AppendAssoc(lines, OptionLines(style, kind, id, opts[..j]), OptionBlock(style, opts[j], kind, id));
  }

  lemma OptionLinesStep(style: Style, kind: ApplicationIdentifier, id: string, opts: seq<ApplicationOptions>, j: nat)
    requires j < |opts| && BorderOverflow !in opts
    ensures OptionLines(style, kind, id, opts[..j + 1]) == OptionLines(style, kind, id, opts[..j]) + OptionBlock(style, opts[j], kind, id)
  {
    assert opts[..j + 1][..j] == opts[..j];
  }

  /** The float rules of one application that were not emitted before, each written and remembered. */
  method WriteFloatRules(style: Style, app: ApplicationConfiguration, lines: seq<string>, seen: seq<string>)
    returns (out: seq<string>, ignoreRules: seq<string>)
    ensures ignoreRules == SeenAfter(style, IgnoreRules(app), seen)
    ensures out == lines + ignoreRules[|seen|..]
  {
    out, ignoreRules := lines, seen;
    var rules := IgnoreRules(app);
    var k := 0;
    while k < |rules|
      invariant k <= |rules|
      invariant ignoreRules == SeenAfter(style, rules[..k], seen)
      invariant out == lines + ignoreRules[|seen|..]
    {
      assert rules[..k + 1][..k] == rules[..k];
      if rules[k].Simple? {
        var floatRule := FloatRule(style, rules[k].identifier);
        if floatRule !in ignoreRules {
          ignoreRules := ignoreRules + [floatRule];
          out := out + [floatRule];
        }
      }
      k := k + 1;
    }
    assert rules[..k] == rules;
  }

  /**
   * `generate_pwsh` and `generate_ahk`: a header, then for each application in
   * name order its name as a comment, its option commands and the float rules
   * not yet emitted, and a blank line.
   */
  method Generate(style: Style, base: seq<ApplicationConfiguration>, over: Option<seq<ApplicationConfiguration>>)
    returns (lines: seq<string>)
    requires forall a :: a in base ==> Current(a)
    requires over.Some? ==> forall a :: a in over.value ==> Current(a)
    ensures lines == Header(style) + Body(style, Ordered(base, over))
  {
    var cfgen;
    if over.Some? {
      cfgen := Merge(base, over.value);
    } else {
      cfgen := base;
    }
    cfgen := Strings.SortBy(cfgen, NameOf);
    assert cfgen == Ordered(base, over);
    lines := WriteApps(style, cfgen, Header(style));
  }

  /** The lines of the applications `apps`, in order, after `lines`. */
  method WriteApps(style: Style, apps: seq<ApplicationConfiguration>, lines: seq<string>) returns (out: seq<string>)
    requires forall a :: a in apps ==> Current(a)
    ensures out == lines + Body(style, apps)
  {
    out := lines;
    var ignoreRules: seq<string> := [];
    var i := 0;
    while i < |apps|
      invariant i <= |apps|
      invariant out == lines + Body(style, apps[..i])
      invariant ignoreRules == AllSeen(style, apps[..i])
    {
      BodyStep(style, apps, i);
      Strings.AppendAssoc(lines, Body(style, apps[..i]), AppLines(style, apps[i], ignoreRules));
      out, ignoreRules := WriteApp(style, apps[i], out, ignoreRules);
      i := i + 1;
    }
    assert apps[..i] == apps;
  }

  /** The lines of one application, written after `lines` with the float rules `seen` already emitted. */
  method WriteApp(style: Style, app: ApplicationConfiguration, lines: seq<string>, seen: seq<string>)
    returns (out: seq<string>, ignoreRules: seq<string>)
    requires Current(app)
    ensures ignoreRules == SeenAfter(style, IgnoreRules(app), seen)
    ensures out == lines + AppLines(style, app, seen)
  {
    var named := lines + [CommentMark(style) + app.name];
    var withOptions := WriteOptions(style, app, named);
    out, ignoreRules := WriteFloatRules(style, app, withOptions, seen);
    out := out + [""];
  }

  lemma BodyStep(style: Style, apps: seq<ApplicationConfiguration>, i: nat)
    requires i < |apps| && forall a :: a in apps ==> Current(a)
    ensures Body(style, apps[..i + 1]) == Body(style, apps[..i]) + AppLines(style, apps[i], AllSeen(style, apps[..i]))
    ensures AllSeen(style, apps[..i + 1]) == SeenAfter(style, IgnoreRules(apps[i]), AllSeen(style, apps[..i]))
  {
    assert apps[..i + 1][..i] == apps[..i];
    assert forall a :: a in apps[..i + 1] ==> a in apps;
  }

  method GeneratePwsh(base: seq<ApplicationConfiguration>, over: Option<seq<ApplicationConfiguration>>)
    returns (lines: seq<string>)
    requires forall a :: a in base ==> Current(a)
    requires over.Some? ==> forall a :: a in over.value ==> Current(a)
    ensures lines == Header(Pwsh) + Body(Pwsh, Ordered(base, over))
  {
    lines := Generate(Pwsh, base, over);
  }

  method GenerateAhk(base: seq<ApplicationConfiguration>, over: Option<seq<ApplicationConfiguration>>)
    returns (lines: seq<string>)
    requires forall a :: a in base ==> Current(a)
    requires over.Some? ==> forall a :: a in over.value ==> Current(a)
    ensures lines == Header(Ahk) + Body(Ahk, Ordered(base, over))
  {
    lines := Generate(Ahk, base, over);
  }

  // ------------------------------------------- float rules appear once

  predicate IsFloatLine(style: Style, line: string)
  {
    Strings.IsPrefix(FloatRulePrefix(style), line)
  }

  /** The lines that are float-rule commands, in order. */
  function FloatLines(style: Style, lines: seq<string>): seq<string>
  {
    if |lines| == 0 then []
    else
      var last := lines[|lines| - 1];
      FloatLines(style, lines[..|lines| - 1]) + (if IsFloatLine(style, last) then [last] else [])
  }

  lemma {:induction false} FloatLinesAppend(style: Style, a: seq<string>, b: seq<string>)
    ensures FloatLines(style, a + b) == FloatLines(style, a) + FloatLines(style, b)
    decreases |b|
  {
    if |b| == 0 {
      assert a + b == a;
    } else {
      FloatLinesAppend(style, a, b[..|b| - 1]);
      assert (a + b)[..|a + b| - 1] == a + b[..|b| - 1];
      assert (a + b)[|a + b| - 1] == b[|b| - 1];
    }
  }

  lemma FloatLinesSingle(style: Style, line: string)
    ensures FloatLines(style, [line]) == if IsFloatLine(style, line) then [line] else []
  {
    assert [line][..0] == [];
  }

  /** Comment lines are not float rules. */
  lemma CommentNotFloat(style: Style, text: string)
    ensures FloatLines(style, [CommentMark(style) + text]) == []
  {
    var p := FloatRulePrefix(style);
    var line := CommentMark(style) + text;
    assert p[0] != line[0];
    if |p| <= |line| {
      assert line[..|p|][0] == line[0];
    }
    FloatLinesSingle(style, line);
  }

  /** Blank lines are not float rules. */
  lemma BlankNotFloat(style: Style)
    ensures FloatLines(style, [""]) == []
  {
    FloatLinesSingle(style, "");
  }

  /** Two strings that part ways after a common start cannot be prefixes of one another. */
  lemma Diverge(a: string, b: string, c: string, d: string)
    requires |b| > 0 && |c| > 0 && b[0] != c[0]
    ensures !Strings.IsPrefix(a + b, a + c + d)
  {
    if |a + b| <= |a + c + d| {
      assert (a + c + d)[..|a + b|][|a|] == c[0];
      assert (a + b)[|a|] == b[0];
    }
  }

  lemma FloatRuleIsFloatLine(style: Style, float: IdWithIdentifier)
    ensures IsFloatLine(style, FloatRule(style, float))
  {
    var p := Komorebic + "float-rule ";
    var command := p + Quoted(float.kind, float.id);
    assert command[..|p|] == p;
    if style == Ahk {
      assert RunWaitHidden(command) == (RunWaitOpen + p) + (Quoted(float.kind, float.id) + RunWaitClose);
      assert FloatRulePrefix(style) == RunWaitOpen + p;
    }
  }

  /** Option commands differ from float rules at the first letter of the subcommand. */
  lemma OptionLineNotFloat(style: Style, opt: ApplicationOptions, kind: ApplicationIdentifier, id: string)
    requires opt != BorderOverflow
    ensures FloatLines(style, [OptionLine(style, opt, kind, id)]) == []
  {
    OptionLineUnprefixed(style, opt, kind, id);
    FloatLinesSingle(style, OptionLine(style, opt, kind, id));
  }

  /** An option command names its own subcommand where a float rule names `float-rule`. */
  lemma OptionLineUnprefixed(style: Style, opt: ApplicationOptions, kind: ApplicationIdentifier, id: string)
    requires opt != BorderOverflow
    ensures !IsFloatLine(style, OptionLine(style, opt, kind, id))
  {
    var rest := " " + Quoted(kind, id);
    var sub := Subcommand(opt);
    var command := Komorebic + sub + rest;
    assert RawCfgen(opt, kind, id) == command;
    match style {
      case Pwsh =>
        Diverge(Komorebic, "float-rule ", sub, rest);
      case Ahk =>
        AhkOptionLine(command, Komorebic, sub, rest);
        Diverge(RunWaitOpen + Komorebic, "float-rule ", sub, rest + RunWaitClose);
    }
  }

  lemma AhkOptionLine(command: string, k: string, sub: string, rest: string)
    requires command == k + sub + rest
    ensures RunWaitHidden(command) == (RunWaitOpen + k) + sub + (rest + RunWaitClose)
  {
  }

  lemma OptionBlockNotFloat(style: Style, opt: ApplicationOptions, kind: ApplicationIdentifier, id: string)
    requires opt != BorderOverflow
    ensures FloatLines(style, OptionBlock(style, opt, kind, id)) == []
  {
    OptionLineNotFloat(style, opt, kind, id);
    if opt == TrayAndMultiWindow {
      CommentNotFloat(style, TrayText);
      FloatLinesAppend(style, [TrayNote(style)], [OptionLine(style, opt, kind, id)]);
    } else {
      assert OptionBlock(style, opt, kind, id) == [OptionLine(style, opt, kind, id)];
    }
  }

  lemma {:induction false} OptionLinesNotFloat(style: Style, kind: ApplicationIdentifier, id: string, opts: seq<ApplicationOptions>)
    requires BorderOverflow !in opts
    ensures FloatLines(style, OptionLines(style, kind, id, opts)) == []
  {
    if |opts| > 0 {
      var init := opts[..|opts| - 1];
      var last := opts[|opts| - 1];
      OptionLinesNotFloat(style, kind, id, init);
      OptionBlockNotFloat(style, last, kind, id);
      FloatLinesAppend(style, OptionLines(style, kind, id, init), OptionBlock(style, last, kind, id));
    }
  }

  /** The newly emitted rules are all float lines. */
  lemma {:induction false} NewFloatLines(style: Style, rules: seq<MatchingRule>, seen: seq<string>)
    ensures FloatLines(style, SeenAfter(style, rules, seen)[|seen|..]) == SeenAfter(style, rules, seen)[|seen|..]
  {
    if |rules| > 0 {
      var init := rules[..|rules| - 1];
      var s := SeenAfter(style, init, seen);
      NewFloatLines(style, init, seen);
      var rule := rules[|rules| - 1];
      if rule.Simple? && FloatRule(style, rule.identifier) !in s {
        var f := FloatRule(style, rule.identifier);
        assert SeenAfter(style, rules, seen)[|seen|..] == s[|seen|..] + [f];
        FloatLinesAppend(style, s[|seen|..], [f]);
        FloatRuleIsFloatLine(style, rule.identifier);
        FloatLinesSingle(style, f);
      }
    }
  }

  lemma AppFloatLines(style: Style, app: ApplicationConfiguration, seen: seq<string>)
    requires Current(app)
    ensures FloatLines(style, AppLines(style, app, seen)) == SeenAfter(style, IgnoreRules(app), seen)[|seen|..]
  {
    var name := [CommentMark(style) + app.name];
    var opts := OptionLines(style, app.identifier.kind, app.identifier.id, Options(app));
    var added := SeenAfter(style, IgnoreRules(app), seen)[|seen|..];
    CommentNotFloat(style, app.name);
    BlankNotFloat(style);
    OptionLinesNotFloat(style, app.identifier.kind, app.identifier.id, Options(app));
    NewFloatLines(style, IgnoreRules(app), seen);
    FloatLinesAppend4(style, name, opts, added, [""]);
  }

  lemma FloatLinesAppend4(style: Style, a: seq<string>, b: seq<string>, c: seq<string>, d: seq<string>)
    ensures FloatLines(style, a + b + c + d)
      == FloatLines(style, a) + FloatLines(style, b) + FloatLines(style, c) + FloatLines(style, d)
  {
    FloatLinesAppend(style, a, b);
    FloatLinesAppend(style, a + b, c);
    FloatLinesAppend(style, a + b + c, d);
  }

  lemma {:induction false} BodyFloatLines(style: Style, apps: seq<ApplicationConfiguration>)
    requires forall a :: a in apps ==> Current(a)
    ensures FloatLines(style, Body(style, apps)) == AllSeen(style, apps)
  {
    if |apps| > 0 {
      var init := apps[..|apps| - 1];
      var last := apps[|apps| - 1];
      assert forall a :: a in init ==> a in apps;
      BodyFloatLines(style, init);
      var seen := AllSeen(style, init);
      AppFloatLines(style, last, seen);
      FloatLinesAppend(style, Body(style, init), AppLines(style, last, seen));
      var after := SeenAfter(style, IgnoreRules(last), seen);
      assert after[..|seen|] == seen;
      Strings.SplitAt(after, |seen|);
    }
  }

  lemma {:induction false} SeenAfterDistinct(style: Style, rules: seq<MatchingRule>, seen: seq<string>)
    requires Strings.Distinct(seen)
    ensures Strings.Distinct(SeenAfter(style, rules, seen))
  {
    if |rules| > 0 {
      SeenAfterDistinct(style, rules[..|rules| - 1], seen);
    }
  }

  lemma {:induction false} AllSeenDistinct(style: Style, apps: seq<ApplicationConfiguration>)
    ensures Strings.Distinct(AllSeen(style, apps))
  {
    if |apps| > 0 {
      AllSeenDistinct(style, apps[..|apps| - 1]);
      SeenAfterDistinct(style, IgnoreRules(apps[|apps| - 1]), AllSeen(style, apps[..|apps| - 1]));
    }
  }

  /**
   * In generated output the float-rule lines are exactly the emitted rules,
   * and no float-rule line appears twice.
   */
  lemma GeneratedFloatRulesOnce(style: Style, apps: seq<ApplicationConfiguration>)
    requires forall a :: a in apps ==> Current(a)
    ensures FloatLines(style, Header(style) + Body(style, apps)) == AllSeen(style, apps)
    ensures Strings.Distinct(FloatLines(style, Header(style) + Body(style, apps)))
  {
    CommentNotFloat(style, GeneratedBy);
    BlankNotFloat(style);
    FloatLinesAppend(style, [Header(style)[0]], [""]);
    assert Header(style) == [Header(style)[0]] + [""];
    BodyFloatLines(style, apps);
    FloatLinesAppend(style, Header(style), Body(style, apps));
    AllSeenDistinct(style, apps);
  }

  lemma {:induction false} SeenAfterCovers(style: Style, rules: seq<MatchingRule>, seen: seq<string>)
    ensures forall x :: x in seen ==> x in SeenAfter(style, rules, seen)
    ensures forall i :: 0 <= i < |rules| && rules[i].Simple? ==> FloatRule(style, rules[i].identifier) in SeenAfter(style, rules, seen)
  {
    if |rules| > 0 {
      var init := rules[..|rules| - 1];
      SeenAfterCovers(style, init, seen);
      forall i | 0 <= i < |rules| - 1 && rules[i].Simple?
        ensures FloatRule(style, rules[i].identifier) in SeenAfter(style, rules, seen)
      {
        assert init[i] == rules[i];
      }
    }
  }

  /** Every simple ignore rule of every application is emitted. */
  lemma {:induction false} AllSeenCovers(style: Style, apps: seq<ApplicationConfiguration>)
    ensures forall a, i :: a in apps && 0 <= i < |IgnoreRules(a)| && IgnoreRules(a)[i].Simple? ==>
      FloatRule(style, IgnoreRules(a)[i].identifier) in AllSeen(style, apps)
  {
    if |apps| > 0 {
      var init := apps[..|apps| - 1];
      var last := apps[|apps| - 1];
      AllSeenCovers(style, init);
      SeenAfterCovers(style, IgnoreRules(last), AllSeen(style, init));
      forall a, i | a in apps && 0 <= i < |IgnoreRules(a)| && IgnoreRules(a)[i].Simple?
        ensures FloatRule(style, IgnoreRules(a)[i].identifier) in AllSeen(style, apps)
      {
        if a != last {
          assert a in init;
        }
      }
    }
  }
}
