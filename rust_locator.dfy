// Locating, in Rust source files, the line where a missing doc comment
// belongs. A type is found by its `pub enum` or `pub struct` line; a variant
// or a property only inside the braces of its parent type, tracked by
// counting braces line by line. Each regular expression of the audit is
// written out as a predicate on one line of text; a file is its lines.

module RustLocator {

  import opened Wrappers

  /** The four kinds of missing documentation. */
  datatype GapKind = TypeGap | VariantGap | VariantTitleGap | PropertyGap

  /** A source file as its lines, or nothing when it cannot be read. */
  datatype RustFile = RustFile(path: string, content: Option<seq<string>>)

  /** A file and a line number counted from 1. */
  datatype Location = Location(file: string, line: nat)

  // ------------------------------------------------------ line patterns

  /** `\s`, over ASCII. */
  predicate IsSpace(c: char)
  {
    c == ' ' || c == '\t' || c == '\n' || c == '\r' || c == '\U{000C}' || c == '\U{000B}'
  }

  /** `\w`, over ASCII. */
  predicate IsWord(c: char)
  {
    ('a' <= c <= 'z') || ('A' <= c <= 'Z') || ('0' <= c <= '9') || c == '_'
  }

  predicate AllSpace(s: string)
  {
    forall k :: 0 <= k < |s| ==> IsSpace(s[k])
  }

  /** `\b` at position `i`: a word character on exactly one side. */
  predicate Boundary(line: string, i: nat)
    requires i <= |line|
  {
    (i > 0 && IsWord(line[i - 1])) != (i < |line| && IsWord(line[i]))
  }

  /** `text` occurs at position `i`. */
  predicate At(line: string, i: nat, text: string)
  {
    i + |text| <= |line| && line[i..i + |text|] == text
  }

  /** `pub\s+<keyword>\s+<name>\b`, matched at position `i`. */
  predicate DeclAt(line: string, i: nat, keyword: string, name: string)
  {
    At(line, i, "pub")
    && exists a, b | i + 3 < a <= |line| && a + |keyword| < b <= |line| ::
         AllSpace(line[i + 3..a]) && At(line, a, keyword) && AllSpace(line[a + |keyword|..b])
         && At(line, b, name) && Boundary(line, b + |name|)
  }

  /** `re.search` of `pub\s+<keyword>\s+<name>\b`. */
  predicate Declares(line: string, keyword: string, name: string)
  {
    exists i | 0 <= i <= |line| :: DeclAt(line, i, keyword, name)
  }

  /** The parent pattern `pub\s+(?:enum|struct)\s+<name>\b`. */
  predicate DeclaresType(line: string, name: string)
  {
    Declares(line, "enum", name) || Declares(line, "struct", name)
  }

  /** The first variant pattern, `^\s*<item>\s*[,\(\{]`. */
  predicate VariantOpens(line: string, item: string)
  {
    exists a, b | 0 <= a && a + |item| <= b < |line| ::
      AllSpace(line[..a]) && At(line, a, item) && AllSpace(line[a + |item|..b])
      && (line[b] == ',' || line[b] == '(' || line[b] == '{')
  }

  /** The second variant pattern, `^\s*<item>\s*$`. */
  predicate VariantAlone(line: string, item: string)
  {
    exists a | 0 <= a && a + |item| <= |line| ::
      AllSpace(line[..a]) && At(line, a, item) && AllSpace(line[a + |item|..])
  }

  /**
   * The third variant pattern, `^\s*#\[.*\]\s*\n\s*<item>\b`: an attribute,
   * a line break, then the item.
   */
  predicate VariantAfterAttribute(line: string, item: string)
  {
    exists a, b, c, d | 0 <= a && a + 2 <= b < c < d <= |line| ::
      AllSpace(line[..a]) && At(line, a, "#[") && '\n' !in line[a + 2..b] && line[b] == ']'
      && AllSpace(line[b + 1..c]) && line[c] == '\n' && AllSpace(line[c + 1..d])
      && At(line, d, item) && Boundary(line, d + |item|)
  }

  /** The property pattern, `pub\s+<item>\s*:`, anywhere in the line. */
  predicate DeclaresField(line: string, item: string)
  {
    exists i, a, b | 0 <= i && i + 3 < a && a + |item| <= b < |line| ::
      At(line, i, "pub") && AllSpace(line[i + 3..a]) && At(line, a, item)
      && AllSpace(line[a + |item|..b]) && line[b] == ':'
  }

  /** Some pattern of the kind matches the item on this line. */
  predicate MemberMatches(line: string, kind: GapKind, item: string)
  {
    if kind == PropertyGap then DeclaresField(line, item)
    else VariantOpens(line, item) || VariantAlone(line, item) || VariantAfterAttribute(line, item)
  }

  /** Lines split at line breaks never match the third variant pattern. */
  lemma AttributePatternNeedsLineBreak(line: string, item: string)
    requires '\n' !in line
    ensures !VariantAfterAttribute(line, item)
  {
  }

  /** The third pattern does match the attribute and the variant when both are in one text. */
  lemma AttributePatternMatchesTwoLines()
    ensures VariantAfterAttribute("#[x]\nFoo", "Foo")
  {
    var line := "#[x]\nFoo";
    assert AllSpace(line[..0]) && At(line, 0, "#[") && '\n' !in line[2..3] && line[3] == ']'
      && AllSpace(line[4..4]) && line[4] == '\n' && AllSpace(line[5..5])
      && At(line, 5, "Foo") && Boundary(line, 8);
  }

  // ----------------------------------------------------- brace tracking

  function Count(c: char, s: string): (n: nat)
    ensures n <= |s|
    ensures n > 0 <==> c in s
  {
    if |s| == 0 then 0 else Count(c, s[..|s| - 1]) + (if s[|s| - 1] == c then 1 else 0)
  }

  /** The brace depth of a run of lines: opening minus closing braces. */
  function Depth(lines: seq<string>): int
  {
    if |lines| == 0 then 0
    else Depth(lines[..|lines| - 1]) + Count('{', lines[|lines| - 1]) - Count('}', lines[|lines| - 1])
  }

  /** Some line of the run has an opening brace. */
  predicate AnyOpen(lines: seq<string>)
  {
    exists k :: 0 <= k < |lines| && '{' in lines[k]
  }

  /** The run opened a brace and closed all it opened. */
  predicate Closed(lines: seq<string>)
  {
    AnyOpen(lines) && Depth(lines) <= 0
  }

  /** The scanner's state: inside the parent type, its brace depth, and whether a brace opened. */
  datatype Scan = Scan(inType: bool, braceCount: int, foundOpenBrace: bool)

  const Outside := Scan(false, 0, false)

  /** A line declaring the parent restarts the scope. */
  function Enter(st: Scan, line: string, typeName: string): Scan
  {
    if DeclaresType(line, typeName) then Scan(true, 0, false) else st
  }

  /** Inside the parent, a line adds its braces; the scope ends once an opened brace is closed again. */
  function Advance(st: Scan, line: string): Scan
  {
    var count := st.braceCount + Count('{', line) - Count('}', line);
    var open := st.foundOpenBrace || '{' in line;
    Scan(!(open && count <= 0), count, open)
  }

  /**
   * The first line, from `i` on, that matches the member while inside the
   * parent type.
   */
  function MemberLine(lines: seq<string>, i: nat, st: Scan, typeName: string, kind: GapKind, item: string): (r: Option<nat>)
    requires i <= |lines|
    ensures r.Some? ==> i <= r.value < |lines| && MemberMatches(lines[r.value], kind, item)
    decreases |lines| - i
  {
    if i == |lines| then None
    else
      var st1 := Enter(st, lines[i], typeName);
      if !st1.inType then MemberLine(lines, i + 1, st1, typeName, kind, item)
      else if MemberMatches(lines[i], kind, item) then Some(i)
      else MemberLine(lines, i + 1, Advance(st1, lines[i]), typeName, kind, item)
  }

  /** The lines `p` to `j` opened a brace and closed all they opened. */
  ghost predicate ClosedAfter(lines: seq<string>, p: nat, j: nat)
    requires p <= j < |lines|
  {
    Closed(lines[p..j + 1])
  }

  /**
   * Line `k` lies in the scope of the parent declared at line `p`: no other
   * declaration of the parent in between, and the braces opened since `p`
   * were never all closed before `k`.
   */
  ghost predicate ScopedFrom(lines: seq<string>, typeName: string, p: nat, k: nat)
  {
    p <= k < |lines| && DeclaresType(lines[p], typeName)
    && (forall j :: p < j <= k ==> !DeclaresType(lines[j], typeName))
    && (forall j :: p <= j < k ==> !ClosedAfter(lines, p, j))
  }

  /** The state inside the parent declared at `p` records the braces of lines `p` to `i - 1`. */
  ghost predicate TracksFrom(lines: seq<string>, typeName: string, p: nat, i: nat, st: Scan)
  {
    p < i <= |lines| && DeclaresType(lines[p], typeName)
    && (forall j :: p < j < i ==> !DeclaresType(lines[j], typeName))
    && (forall j :: p <= j < i ==> !ClosedAfter(lines, p, j))
    && st.braceCount == Depth(lines[p..i]) && st.foundOpenBrace == AnyOpen(lines[p..i])
  }

  lemma DepthStep(lines: seq<string>, p: nat, i: nat)
    requires p <= i < |lines|
    ensures Depth(lines[p..i + 1]) == Depth(lines[p..i]) + Count('{', lines[i]) - Count('}', lines[i])
    ensures AnyOpen(lines[p..i + 1]) <==> AnyOpen(lines[p..i]) || '{' in lines[i]
  {
    assert lines[p..i + 1][..i - p] == lines[p..i];
    assert lines[p..i + 1][i - p] == lines[i];
    if AnyOpen(lines[p..i + 1]) && !('{' in lines[i]) {
      var k :| 0 <= k < i + 1 - p && '{' in lines[p..i + 1][k];
      assert lines[p..i][k] == lines[p..i + 1][k];
    }
    if AnyOpen(lines[p..i]) {
      var k :| 0 <= k < i - p && '{' in lines[p..i][k];
      assert lines[p..i + 1][k] == lines[p..i][k];
    }
  }

  /** A declaration of the parent opens its scope at its own line. */
  lemma ScopeOpens(lines: seq<string>, typeName: string, i: nat, st: Scan)
    requires i < |lines| && DeclaresType(lines[i], typeName)
    ensures ScopedFrom(lines, typeName, i, i)
    ensures Advance(Scan(true, 0, false), lines[i]).inType ==> TracksFrom(lines, typeName, i, i + 1, Advance(Scan(true, 0, false), lines[i]))
  {
    DepthStep(lines, i, i);
    assert lines[i..i] == [];
    assert !AnyOpen([]);
  }

  /** A line inside the scope that does not redeclare the parent keeps it, unless it closes it. */
  lemma ScopeContinues(lines: seq<string>, typeName: string, p: nat, i: nat, st: Scan)
    requires i < |lines| && TracksFrom(lines, typeName, p, i, st) && !DeclaresType(lines[i], typeName)
    ensures ScopedFrom(lines, typeName, p, i)
    ensures Advance(st, lines[i]).inType ==> TracksFrom(lines, typeName, p, i + 1, Advance(st, lines[i]))
  {
    DepthStep(lines, p, i);
  }

  /** Whatever the scan finds lies in the scope of a declaration of the parent. */
  lemma {:induction false} MemberLineScoped(lines: seq<string>, i: nat, st: Scan, p: nat, typeName: string, kind: GapKind, item: string)
    requires i <= |lines| && (st.inType ==> TracksFrom(lines, typeName, p, i, st))
    ensures var r := MemberLine(lines, i, st, typeName, kind, item);
      r.Some? ==> exists q: nat :: ScopedFrom(lines, typeName, q, r.value)
    decreases |lines| - i
  {
    if i < |lines| {
      var st1 := Enter(st, lines[i], typeName);
      if !st1.inType {
        MemberLineScoped(lines, i + 1, st1, p, typeName, kind, item);
      } else {
        var q := if DeclaresType(lines[i], typeName) then i else p;
        if DeclaresType(lines[i], typeName) {
          ScopeOpens(lines, typeName, i, st);
        } else {
          ScopeContinues(lines, typeName, p, i, st);
        }
        if MemberMatches(lines[i], kind, item) {
          assert ScopedFrom(lines, typeName, q, i);
        } else {
          MemberLineScoped(lines, i + 1, Advance(st1, lines[i]), q, typeName, kind, item);
        }
      }
    }
  }

  /** A member is only ever found inside its parent's braces, on a line matching it. */
  lemma MemberFoundInScope(lines: seq<string>, typeName: string, kind: GapKind, item: string)
    ensures var r := MemberLine(lines, 0, Outside, typeName, kind, item);
      r.Some? ==> MemberMatches(lines[r.value], kind, item) && exists p: nat :: ScopedFrom(lines, typeName, p, r.value)
  {
    MemberLineScoped(lines, 0, Outside, 0, typeName, kind, item);
  }

  // ------------------------------------------------------------ search

  /** The first line, from `i` on, declaring `pub <keyword> <name>`. */
  function FirstDeclaration(lines: seq<string>, i: nat, keyword: string, name: string): (r: Option<nat>)
    requires i <= |lines|
    ensures r.Some? ==> (i <= r.value < |lines| && Declares(lines[r.value], keyword, name)
                         && forall j :: i <= j < r.value ==> !Declares(lines[j], keyword, name))
    ensures r.None? ==> forall j :: i <= j < |lines| ==> !Declares(lines[j], keyword, name)
    decreases |lines| - i
  {
    if i == |lines| then None
    else if Declares(lines[i], keyword, name) then Some(i)
    else FirstDeclaration(lines, i + 1, keyword, name)
  }

  /** The line of a file where the item belongs: the type's declaration, or the member in its scope. */
  function InFile(lines: seq<string>, typeName: string, kind: GapKind, item: string): Option<nat>
  {
    if kind == TypeGap then
      var e := FirstDeclaration(lines, 0, "enum", typeName);
      if e.Some? then e else FirstDeclaration(lines, 0, "struct", typeName)
    else MemberLine(lines, 0, Outside, typeName, kind, item)
  }

  /** The first readable file, in order, holding the item. */
  function Locate(files: seq<RustFile>, typeName: string, kind: GapKind, item: string): (r: Option<Location>)
    ensures r.Some? ==> exists k :: 0 <= k < |files| && files[k].path == r.value.file
  {
    if |files| == 0 then None
    else
      var f := files[0];
      var here := if f.content.Some? then InFile(f.content.value, typeName, kind, item) else None;
      if here.Some? then Some(Location(f.path, here.value + 1))
      else
        var r := Locate(files[1..], typeName, kind, item);
        assert r.Some? ==> exists k :: 1 <= k < |files| && files[k].path == r.value.file;
        r
  }

  /** The search of one file for a type's declaration with one keyword. */
  method FindDeclaration(lines: seq<string>, keyword: string, typeName: string) returns (r: Option<nat>)
    ensures r == FirstDeclaration(lines, 0, keyword, typeName)
  {
    var i := 0;
    while i < |lines|
      invariant i <= |lines|
      invariant FirstDeclaration(lines, 0, keyword, typeName) == FirstDeclaration(lines, i, keyword, typeName)
    {
      if Declares(lines[i], keyword, typeName) {
        return Some(i);
      }
      i := i + 1;
    }
    return None;
  }

  /** The search of one file for a member, tracking the parent's braces line by line. */
  method FindMember(lines: seq<string>, typeName: string, kind: GapKind, item: string) returns (r: Option<nat>)
    ensures r == MemberLine(lines, 0, Outside, typeName, kind, item)
  {
    var inType := false;
    var braceCount := 0;
    var foundOpenBrace := false;
    var i := 0;
    while i < |lines|
      invariant i <= |lines|
      invariant MemberLine(lines, 0, Outside, typeName, kind, item)
        == MemberLine(lines, i, Scan(inType, braceCount, foundOpenBrace), typeName, kind, item)
    {
      var line := lines[i];
      ghost var entered := Enter(Scan(inType, braceCount, foundOpenBrace), line, typeName);
      if DeclaresType(line, typeName) {
        inType := true;
        braceCount := 0;
        foundOpenBrace := false;
      }
      if inType {
        if '{' in line {
          foundOpenBrace := true;
        }
        braceCount := braceCount + Count('{', line) - Count('}', line);
        if MemberMatches(line, kind, item) {
          return Some(i);
        }
        if foundOpenBrace && braceCount <= 0 {
          inType := false;
        }
        assert Scan(inType, braceCount, foundOpenBrace) == Advance(entered, line);
      }
      i := i + 1;
    }
    return None;
  }

  /** The search of one readable file: by declaration for a type, by scanning for a member. */
  method FindInFile(lines: seq<string>, typeName: string, kind: GapKind, item: string) returns (here: Option<nat>)
    ensures here == InFile(lines, typeName, kind, item)
  {
    if kind == TypeGap {
      here := FindDeclaration(lines, "enum", typeName);
      if here.None? {
        here := FindDeclaration(lines, "struct", typeName);
      }
    } else {
      here := FindMember(lines, typeName, kind, item);
    }
  }

  /** The search from file `f` on looks at file `f` first, and moves on when it holds nothing. */
  lemma LocateStep(files: seq<RustFile>, typeName: string, kind: GapKind, item: string, f: nat)
    requires f < |files|
    ensures Locate(files[f..], typeName, kind, item)
      == (var here := if files[f].content.Some? then InFile(files[f].content.value, typeName, kind, item) else None;
          if here.Some? then Some(Location(files[f].path, here.value + 1)) else Locate(files[f + 1..], typeName, kind, item))
  {
    assert files[f..][1..] == files[f + 1..];
  }

  /**
   * `find_rust_definition`: searches the files in order; a type by its
   * `enum` and then its `struct` declaration, a variant or a property line
   * by line while inside its parent's braces. Unreadable files are skipped.
   */
  method FindRustDefinition(typeName: string, item: string, kind: GapKind, files: seq<RustFile>) returns (found: Option<Location>)
    ensures found == Locate(files, typeName, kind, item)
  {
    var f := 0;
    while f < |files|
      invariant f <= |files|
      invariant Locate(files, typeName, kind, item) == Locate(files[f..], typeName, kind, item)
    {
      LocateStep(files, typeName, kind, item, f);
      if files[f].content.Some? {
        var here := FindInFile(files[f].content.value, typeName, kind, item);
        if here.Some? {
          return Some(Location(files[f].path, here.value + 1));
        }
      }
      f := f + 1;
    }
    return None;
  }
}
