/** The annotation and comment front end (parser/parser.go): the scalar-type test, the
    type-name splitter, the struct-key rule, import aliases, the json tag rule, the
    comment helpers, the global project tags and the per-function annotations. */
module Parser {
  import opened Wrappers
  import opened GoStrings
  import opened GoAst
  import opened Models
  import Utils

  // ---------------------------------------------------------------------------
  // isBasicType
  // ---------------------------------------------------------------------------

  /** The scalar names the parser never looks up as structs. */
  const ScalarNames: set<string> := {
    "string", "bool",
    "int", "int8", "int16", "int32", "int64",
    "uint", "uint8", "uint16", "uint32", "uint64",
    "float32", "float64",
    "byte", "rune"}

  predicate IsBasicType(typeName: string) {
    typeName in ScalarNames
  }

  /** The parser's scalar list is the generator's without uintptr, complex64 and
      complex128: for one of those three the parser attempts a struct lookup that the
      generator skips. */
  lemma BasicTypesVsUtils(t: string)
    ensures IsBasicType(t) <==> t in Utils.BasicTypes && t != "uintptr" && t != "complex64" && t != "complex128"
  {
  }

  // ---------------------------------------------------------------------------
  // resolveType
  // ---------------------------------------------------------------------------

  predicate IsDecoration(c: char) {
    c == '*' || c == '[' || c == ']'
  }

  /** The text after the longest leading run of '*', '[' and ']' (the anchored pattern
      `^[\*\[\]]+` replaced by nothing). */
  function StripDecorations(s: string): (r: string)
    ensures |r| <= |s| && r == s[|s| - |r|..]
    ensures forall i :: 0 <= i < |s| - |r| ==> IsDecoration(s[i])
    ensures r == [] || !IsDecoration(r[0])
  {
    if s != [] && IsDecoration(s[0]) then StripDecorations(s[1..]) else s
  }

  /** Stripping removes exactly a leading run of decorations. */
  lemma {:induction false} StripDecorationsOf(d: string, t: string)
    requires forall i :: 0 <= i < |d| ==> IsDecoration(d[i])
    requires t == [] || !IsDecoration(t[0])
    ensures StripDecorations(d + t) == t
  {
    if d == [] {
      assert d + t == t;
    } else {
      assert (d + t)[1..] == d[1..] + t;
      StripDecorationsOf(d[1..], t);
    }
  }

  /** (base type, package) of a field or result type: decorations stripped, then the two
      sides of a single dot; any other number of dots leaves the whole stripped text as
      the base and no package. */
  function ResolveType(typeStr: string): (r: (string, string))
    ensures var t := StripDecorations(typeStr);
      && (Count(t, '.') == 1 ==> t == r.1 + "." + r.0 && '.' !in r.0 && '.' !in r.1)
      && (Count(t, '.') != 1 ==> r == (t, ""))
  {
    var t := StripDecorations(typeStr);
    CountZero(t, '.');
    if '.' in t then
      var parts := Split(t, '.');
      if |parts| == 2 then (parts[1], parts[0]) else (t, "")
    else (t, "")
  }

  /** A decorated `pkg.Name` resolves to its two parts. */
  lemma ResolveTypeDecorated(d: string, pkg: string, name: string)
    requires forall i :: 0 <= i < |d| ==> IsDecoration(d[i])
    requires pkg != [] && !IsDecoration(pkg[0])
    requires '.' !in pkg && '.' !in name
    ensures ResolveType(d + pkg + "." + name) == (name, pkg)
  {
    var t := pkg + "." + name;
    assert d + pkg + "." + name == d + t;
    assert t[0] == pkg[0];
    StripDecorationsOf(d, t);
    SplitPair(pkg, name, '.');
  }

  /** The parser's splitter and the generator's agree on undecorated names with at most
      one dot; with two dots or more the parser keeps the name as the base where the
      generator gives nothing. */
  lemma ResolveTypeVsUtils(t: string)
    requires t == [] || !IsDecoration(t[0])
    ensures ResolveType(t) == Utils.ResolveType(t) <==> Count(t, '.') <= 1
  {
    StripDecorationsOf([], t);
    assert [] + t == t;
    CountZero(t, '.');
  }

  // ---------------------------------------------------------------------------
  // The struct key of a field or result type
  // ---------------------------------------------------------------------------

  /** The key under which the parser looks for the struct a field or result type names:
      none for an empty or scalar base, otherwise the base under its explicit package,
      or under the current package when it has none. */
  function StructKeyOf(typeStr: string, currentPackage: string): (r: Option<StructKey>)
    ensures r.Some? ==> r.value.name != [] && !IsBasicType(r.value.name)
    ensures r.None? <==> ResolveType(typeStr).0 == [] || IsBasicType(ResolveType(typeStr).0)
  {
    var (baseType, pkg) := ResolveType(typeStr);
    if baseType == [] || IsBasicType(baseType) then None
    else if pkg != [] then Some(StructKey(pkg, baseType))
    else Some(StructKey(currentPackage, baseType))
  }

  /** A decorated qualified type is looked up in its named package. */
  lemma StructKeyOfQualified(d: string, pkg: string, name: string, currentPackage: string)
    requires forall i :: 0 <= i < |d| ==> IsDecoration(d[i])
    requires pkg != [] && !IsDecoration(pkg[0]) && '.' !in pkg && '.' !in name
    requires name != [] && !IsBasicType(name)
    ensures StructKeyOf(d + pkg + "." + name, currentPackage) == Some(StructKey(pkg, name))
  {
    ResolveTypeDecorated(d, pkg, name);
  }

  /** A decorated unqualified type is looked up in the current package. */
  lemma StructKeyOfLocal(d: string, name: string, currentPackage: string)
    requires forall i :: 0 <= i < |d| ==> IsDecoration(d[i])
    requires name != [] && !IsDecoration(name[0]) && '.' !in name && !IsBasicType(name)
    ensures StructKeyOf(d + name, currentPackage) == Some(StructKey(currentPackage, name))
  {
    StripDecorationsOf(d, name);
    CountZero(name, '.');
  }

  /** A decorated scalar never produces a key. */
  lemma StructKeyOfScalar(d: string, name: string, currentPackage: string)
    requires forall i :: 0 <= i < |d| ==> IsDecoration(d[i])
    requires IsBasicType(name)
    ensures StructKeyOf(d + name, currentPackage) == None
  {
    assert name[0] != '*' && name[0] != '[' && name[0] != ']';
    assert '.' !in name;
    StripDecorationsOf(d, name);
    CountZero(name, '.');
  }

  // ---------------------------------------------------------------------------
  // extractImportAliases
  // ---------------------------------------------------------------------------

  /** The alias of an import: its explicit name, or else the last '/'-separated segment
      of its path with the quotes removed. */
  function ImportAlias(imp: ImportSpec): string {
    match imp.name
    case Some(n) => n
    case None => Utils.Last(Split(TrimChar(imp.pathValue, '"'), '/'))
  }

  /** An unnamed import whose path literal is a quoted text: its alias is the text's
      last segment. */
  lemma ImportAliasOfQuoted(p: string)
    requires p != [] && p[0] != '"' && p[|p| - 1] != '"'
    ensures ImportAlias(ImportSpec(None, ['"'] + p + ['"'])) == Utils.Last(Split(p, '/'))
  {
    TrimCharWrapped('"', p);
  }

  lemma LastSegment(dir: string, pkg: string)
    requires '/' !in pkg
    ensures Utils.Last(Split(dir + "/" + pkg, '/')) == pkg
  {
    SplitLast(dir, pkg, '/');
  }

  lemma QuotedPath(dir: string, pkg: string)
    requires '"' !in dir && '"' !in pkg
    ensures var p := dir + "/" + pkg;
      && "\"" + dir + "/" + pkg + "\"" == ['"'] + p + ['"']
      && p[0] != '"' && p[|p| - 1] != '"'
  {
    var p := dir + "/" + pkg;
    assert p[0] in p && p[|p| - 1] in p;
  }

  /** An unnamed import of `"dir/pkg"` is known by its last segment. */
  lemma ImportAliasOfPath(dir: string, pkg: string)
    requires '"' !in dir && '"' !in pkg && '/' !in pkg
    ensures ImportAlias(ImportSpec(None, "\"" + dir + "/" + pkg + "\"")) == pkg
  {
    var p := dir + "/" + pkg;
    QuotedPath(dir, pkg);
    ImportAliasOfQuoted(p);
    LastSegment(dir, pkg);
  }

  /** An unnamed import of a one-segment path is known by that path. */
  lemma ImportAliasOfSingle(pkg: string)
    requires pkg != [] && '"' !in pkg && '/' !in pkg
    ensures ImportAlias(ImportSpec(None, "\"" + pkg + "\"")) == pkg
  {
    assert pkg[0] in pkg && pkg[|pkg| - 1] in pkg;
    ImportAliasOfQuoted(pkg);
    assert "\"" + pkg + "\"" == ['"'] + pkg + ['"'];
    SplitNoSeparator(pkg, '/');
  }

  /** The aliases of a run of imports, gathered front to back. */
  function AliasSet(imports: seq<ImportSpec>): set<string>
    decreases |imports|
  {
    if imports == [] then {}
    else AliasSet(imports[..|imports| - 1]) + {ImportAlias(imports[|imports| - 1])}
  }

  /** A name is gathered exactly when some import of the run has it as its alias. */
  lemma {:induction false} AliasSetMembers(imports: seq<ImportSpec>, a: string)
    ensures a in AliasSet(imports) <==> exists j :: 0 <= j < |imports| && ImportAlias(imports[j]) == a
    decreases |imports|
  {
    if imports != [] {
      var front := imports[..|imports| - 1];
      AliasSetMembers(front, a);
      if a in AliasSet(front) {
        var j :| 0 <= j < |front| && ImportAlias(front[j]) == a;
        assert imports[j] == front[j];
      } else if exists j :: 0 <= j < |imports| && ImportAlias(imports[j]) == a {
        var j :| 0 <= j < |imports| && ImportAlias(imports[j]) == a;
        if j < |front| {
          assert front[j] == imports[j];
        }
      }
    }
  }

  /** The alias map of a file: every import's alias, each mapped to itself. */
  method ExtractImportAliases(imports: seq<ImportSpec>) returns (aliases: map<string, string>)
    ensures aliases.Keys == AliasSet(imports)
    ensures forall a :: a in aliases ==> aliases[a] == a
  {
    aliases := map[];
    for i := 0 to |imports|
      invariant aliases.Keys == AliasSet(imports[..i])
      invariant forall a :: a in aliases ==> aliases[a] == a
    {
      var alias := AliasOf(imports[i]);
      assert imports[..i + 1][..i] == imports[..i];
      aliases := aliases[alias := alias];
    }
    assert imports[..|imports|] == imports;
  }

  /** The alias of one import: its explicit name, or the last segment of its path. */
  method AliasOf(imp: ImportSpec) returns (alias: string)
    ensures alias == ImportAlias(imp)
  {
    if imp.name.Some? {
      alias := imp.name.value;
    } else {
      var path := TrimChar(imp.pathValue, '"');
      var parts := Split(path, '/');
      alias := parts[|parts| - 1];
    }
  }

  // ---------------------------------------------------------------------------
  // The json tag rule
  // ---------------------------------------------------------------------------

  /** The length of the longest prefix of s without a double quote. */
  function QuoteFreeLength(s: string): (n: nat)
    ensures n <= |s| && '"' !in s[..n]
    ensures n < |s| ==> s[n] == '"'
  {
    if s == [] || s[0] == '"' then 0
    else
      var n := QuoteFreeLength(s[1..]);
      assert s[..n + 1] == [s[0]] + s[1..][..n];
      n + 1
  }

  const JSONKey: string := "json:\""

  /** The pattern `json:"([^"]+)"` matches at position i: the key, one or more runes
      other than a quote, and a closing quote. */
  predicate JSONMatchAt(tag: string, i: nat) {
    && i + |JSONKey| <= |tag|
    && tag[i..i + |JSONKey|] == JSONKey
    && var n := QuoteFreeLength(tag[i + |JSONKey|..]);
       0 < n && i + |JSONKey| + n < |tag|
  }

  /** The leftmost position at or after i where the pattern matches, or -1. */
  function FirstJSONMatch(tag: string, i: nat): (r: int)
    requires i <= |tag|
    ensures r == -1 || (i <= r && JSONMatchAt(tag, r))
    ensures forall j :: i <= j < (if r == -1 then |tag| else r) ==> !JSONMatchAt(tag, j)
    decreases |tag| - i
  {
    if i == |tag| then -1
    else if JSONMatchAt(tag, i) then i
    else FirstJSONMatch(tag, i + 1)
  }

  /** The submatch that FindStringSubmatch captures, when the pattern matches. */
  function JSONCapture(tag: string): (r: Option<string>)
    ensures r.Some? ==> r.value != [] && '"' !in r.value
  {
    var k := FirstJSONMatch(tag, 0);
    if k < 0 then None
    else
      var rest := tag[k + |JSONKey|..];
      Some(rest[..QuoteFreeLength(rest)])
  }

  /** The json name of a field as parser.go:112-121 computes it: the capture of the
      leftmost `json:"..."`, unless there is none or it is "-"; then the field name.
      The capture keeps any options after a comma. */
  function JSONNameAsWritten(tag: Option<string>, fieldName: string): (r: string)
    ensures r == fieldName || (r != [] && '"' !in r)
  {
    match tag
    case None => fieldName
    case Some(t) =>
      match JSONCapture(t)
      case Some(c) => if c != "-" then c else fieldName
      case None => fieldName
  }

  /** The json name with the options removed: the capture's text before its first
      comma, unless it is empty or "-"; then the field name. */
  function JSONName(tag: Option<string>, fieldName: string): (r: string)
    ensures r == fieldName || (r != [] && r != "-" && '"' !in r && ',' !in r)
  {
    match tag
    case None => fieldName
    case Some(t) =>
      match JSONCapture(t)
      case Some(c) =>
        var name := Split(c, ',')[0];
        SplitHead(c, ',');
        if c != "-" && name != [] && name != "-" then name else fieldName
      case None => fieldName
  }

  /** A backquoted `json:"inner"` tag captures inner. */
  lemma JSONCaptureOfQuoted(inner: string)
    requires inner != [] && '"' !in inner
    ensures JSONCapture("`json:\"" + inner + "\"`") == Some(inner)
  {
    var tag := "`json:\"" + inner + "\"`";
    assert !JSONMatchAt(tag, 0) by {
      assert tag[0] == '`';
    }
    var rest := tag[1 + |JSONKey|..];
    assert rest == inner + "\"`";
    QuoteFreeOf(inner, "\"`");
    assert tag[1..1 + |JSONKey|] == JSONKey;
    assert JSONMatchAt(tag, 1);
    assert FirstJSONMatch(tag, 0) == 1;
  }

  lemma QuoteFreeOf(a: string, b: string)
    requires '"' !in a && b != [] && b[0] == '"'
    ensures QuoteFreeLength(a + b) == |a| && (a + b)[..|a|] == a
  {
    if a != [] {
      assert (a + b)[1..] == a[1..] + b;
      QuoteFreeOf(a[1..], b);
    }
  }

  /** The parser keeps the options of a json tag in the name: `json:"id,omitempty"`
      names the field "id,omitempty", where encoding/json and Utils.ExtractJSONTag
      both give "id". */
  lemma JSONNameAsWrittenKeepsOptions()
    ensures JSONNameAsWritten(Some("`json:\"id,omitempty\"`"), "ID") == "id,omitempty"
    ensures Utils.JSONTagName("`json:\"id,omitempty\"`", "ID") == "id"
  {
    OmitemptyTag();
    JSONCaptureOfQuoted("id,omitempty");
    Utils.JSONTagNameRoundTrip("id", ",omitempty", "ID");
  }

  lemma OmitemptyTag()
    ensures "`json:\"id,omitempty\"`" == "`json:\"" + "id,omitempty" + "\"`"
    ensures "`json:\"id,omitempty\"`" == "`json:\"" + "id" + ",omitempty" + "\"`"
    ensures '"' !in "id,omitempty" && ' ' !in "id" && ' ' !in ",omitempty"
  {
  }

  /** With the options removed, a backquoted `json:"name,options"` tag names the field
      name, as Utils.ExtractJSONTag reads the same tag. */
  lemma JSONNameRoundTrip(name: string, options: string, fieldName: string)
    requires name != [] && name != "-" && ',' !in name && '"' !in name
    requires options == [] || options[0] == ','
    requires '"' !in options
    ensures JSONName(Some("`json:\"" + name + options + "\"`"), fieldName) == name
  {
    var inner := name + options;
    assert '"' !in inner && inner != [] by {
      assert forall x :: x in inner ==> x in name || x in options;
    }
    JSONCaptureOfQuoted(inner);
    AppendAssoc("`json:\"", name, options);
    Utils.OptionsFirstPart(name, options);
  }

  /** A "-" tag keeps the field name. */
  lemma JSONNameOfDash(fieldName: string)
    ensures JSONName(Some("`json:\"-\"`"), fieldName) == fieldName
    ensures JSONNameAsWritten(Some("`json:\"-\"`"), fieldName) == fieldName
  {
    JSONCaptureOfQuoted("-");
    assert "`json:\"-\"`" == "`json:\"" + "-" + "\"`";
  }

  // ---------------------------------------------------------------------------
  // extractStructDescription and extractFieldDescription
  // ---------------------------------------------------------------------------

  /** The images under f of the elements of s, in order. */
  function MapSeq<T, U>(f: T -> U, s: seq<T>): (r: seq<U>)
    ensures |r| == |s|
  {
    if s == [] then [] else MapSeq(f, s[..|s| - 1]) + [f(s[|s| - 1])]
  }

  lemma MapSeqSnoc<T, U>(f: T -> U, s: seq<T>, i: nat)
    requires i < |s|
    ensures MapSeq(f, s[..i + 1]) == MapSeq(f, s[..i]) + [f(s[i])]
  {
    assert s[..i + 1][..i] == s[..i];
  }

  lemma {:induction false} MapSeqAppend<T, U>(f: T -> U, a: seq<T>, b: seq<T>)
    ensures MapSeq(f, a + b) == MapSeq(f, a) + MapSeq(f, b)
    decreases |b|
  {
    if b == [] {
      assert a + b == a;
    } else {
      var b' := b[..|b| - 1];
      assert (a + b)[..|a + b| - 1] == a + b';
      assert (a + b)[|a + b| - 1] == b[|b| - 1];
      MapSeqAppend(f, a, b');
    }
  }

  /** A map whose function fixes every element changes nothing. */
  lemma {:induction false} MapSeqFixed<T>(f: T -> T, s: seq<T>)
    requires forall k :: 0 <= k < |s| ==> f(s[k]) == s[k]
    ensures MapSeq(f, s) == s
  {
    if s != [] {
      var init := s[..|s| - 1];
      assert forall k :: 0 <= k < |init| ==> init[k] == s[k];
      MapSeqFixed(f, init);
      assert s == init + [s[|s| - 1]];
    }
  }

  /** Mapping one more element and keeping the non-empty images. */
  lemma KeepNonEmptyMapSnoc<T>(f: T -> string, s: seq<T>, i: nat)
    requires i < |s|
    ensures KeepNonEmpty(MapSeq(f, s[..i + 1]))
      == KeepNonEmpty(MapSeq(f, s[..i])) + (if f(s[i]) != [] then [f(s[i])] else [])
  {
    MapSeqSnoc(f, s, i);
    var m := MapSeq(f, s[..i + 1]);
    assert m[..|m| - 1] == MapSeq(f, s[..i]);
  }

  /** The non-empty strings of xs, in order. */
  function KeepNonEmpty(xs: seq<string>): (r: seq<string>)
    ensures |r| <= |xs|
    ensures forall k :: 0 <= k < |r| ==> r[k] != [] && r[k] in xs
  {
    if xs == [] then []
    else
      var init := KeepNonEmpty(xs[..|xs| - 1]);
      var x := xs[|xs| - 1];
      assert forall y :: y in init ==> y in xs[..|xs| - 1] ==> y in xs;
      if x != [] then init + [x] else init
  }

  lemma KeepNonEmptySnoc(xs: seq<string>, i: nat)
    requires i < |xs|
    ensures KeepNonEmpty(xs[..i + 1]) == KeepNonEmpty(xs[..i]) + (if xs[i] != [] then [xs[i]] else [])
  {
    assert xs[..i + 1][..i] == xs[..i];
  }

  lemma {:induction false} KeepNonEmptyOfNonEmpty(xs: seq<string>)
    requires forall k :: 0 <= k < |xs| ==> xs[k] != []
    ensures KeepNonEmpty(xs) == xs
  {
    if xs != [] {
      var init := xs[..|xs| - 1];
      assert forall k :: 0 <= k < |init| ==> init[k] == xs[k];
      KeepNonEmptyOfNonEmpty(init);
      assert xs == init + [xs[|xs| - 1]];
    }
  }

  /** A line of a struct's doc comment with the space and any `//` marker trimmed. */
  function DescriptionLine(line: string): (r: string)
    ensures Trimmed(r)
  {
    TrimSpace(TrimPrefix(TrimSpace(line), "//"))
  }

  /** The description of a struct: the non-empty cleaned lines of its doc comment,
      joined by single spaces; nothing when it has no doc comment. */
  method ExtractStructDescription(cg: Option<CommentGroup>) returns (d: string)
    ensures cg.None? ==> d == []
    ensures cg.Some? ==> d == Join(KeepNonEmpty(MapSeq(DescriptionLine, Lines(cg.value.text))), " ")
  {
    if cg.None? {
      return [];
    }
    var lines := Lines(cg.value.text);
    var desc: seq<string> := [];
    for i := 0 to |lines|
      invariant desc == KeepNonEmpty(MapSeq(DescriptionLine, lines[..i]))
    {
      var line := TrimSpace(lines[i]);
      line := TrimPrefix(line, "//");
      line := TrimSpace(line);
      assert line == DescriptionLine(lines[i]);
      KeepNonEmptyMapSnoc(DescriptionLine, lines, i);
      if line != [] {
        desc := desc + [line];
      }
    }
    assert lines[..|lines|] == lines;
    d := Join(desc, " ");
  }

  /** A clean doc-comment line is kept as it is. */
  lemma DescriptionLineOfClean(l: string)
    requires Trimmed(l) && !HasPrefix(l, "//")
    ensures DescriptionLine(l) == l
  {
    TrimSpaceOfTrimmed(l);
  }

  /** Lines that are already clean and non-empty come through unchanged. */
  lemma DescriptionLinesOfClean(lines: seq<string>)
    requires forall k :: 0 <= k < |lines| ==> lines[k] != [] && Trimmed(lines[k]) && !HasPrefix(lines[k], "//")
    ensures KeepNonEmpty(MapSeq(DescriptionLine, lines)) == lines
  {
    forall k | 0 <= k < |lines|
      ensures DescriptionLine(lines[k]) == lines[k]
    {
      DescriptionLineOfClean(lines[k]);
    }
    MapSeqFixed(DescriptionLine, lines);
    KeepNonEmptyOfNonEmpty(lines);
  }

  /** Blank lines are dropped. */
  lemma DescriptionLinesBlank(lines: seq<string>, blank: string)
    requires AllSpace(blank)
    ensures KeepNonEmpty(MapSeq(DescriptionLine, lines + [blank])) == KeepNonEmpty(MapSeq(DescriptionLine, lines))
  {
    var s := lines + [blank];
    assert s[..|lines|] == lines && s[..|lines| + 1] == s && s[|lines|] == blank;
    BlankDescriptionLine(blank);
    KeepNonEmptyMapSnoc(DescriptionLine, s, |lines|);
  }

  lemma BlankDescriptionLine(blank: string)
    requires AllSpace(blank)
    ensures DescriptionLine(blank) == []
  {
    TrimLeftSpacePrefix(blank, []);
    assert blank + [] == blank;
  }

  /** A field comment with its `//`, `/*` and `*/` markers and the surrounding space
      removed. */
  function CleanComment(c: string): (r: string)
    ensures Trimmed(r)
  {
    var line := TrimSpace(TrimPrefix(c, "//"));
    var line' := TrimSpace(TrimPrefix(line, "/*"));
    TrimSpace(TrimSuffix(line', "*/"))
  }

  function CommentList(cg: Option<CommentGroup>): seq<string> {
    match cg
    case None => []
    case Some(g) => g.list
  }

  /** The description of a field: its doc comments and then its trailing comments, each
      cleaned, joined by single spaces (empty ones included). */
  method ExtractFieldDescription(doc: Option<CommentGroup>, comment: Option<CommentGroup>) returns (d: string)
    ensures d == Join(MapSeq(CleanComment, CommentList(doc) + CommentList(comment)), " ")
  {
    var docs := CleanCommentList(CommentList(doc));
    var comments := CleanCommentList(CommentList(comment));
    MapSeqAppend(CleanComment, CommentList(doc), CommentList(comment));
    d := Join(docs + comments, " ");
  }

  /** The loop that extractFieldDescription runs over the doc comments and again over the
      trailing comments: each comment cleaned, in order. */
  method CleanCommentList(list: seq<string>) returns (comments: seq<string>)
    ensures comments == MapSeq(CleanComment, list)
  {
    comments := [];
    for i := 0 to |list|
      invariant comments == MapSeq(CleanComment, list[..i])
    {
      var line := TrimSpace(TrimPrefix(list[i], "//"));
      line := TrimSpace(TrimPrefix(line, "/*"));
      line := TrimSpace(TrimSuffix(line, "*/"));
      assert line == CleanComment(list[i]);
      MapSeqSnoc(CleanComment, list, i);
      comments := comments + [line];
    }
    assert list[..|list|] == list;
  }

  /** A `// text` comment gives its text. */
  lemma CleanLineComment(text: string)
    requires Trimmed(text) && !HasPrefix(text, "/*") && !HasSuffix(text, "*/")
    ensures CleanComment("// " + text) == text
  {
    var c := "// " + text;
    assert HasPrefix(c, "//") && c[2..] == " " + text;
    TrimSpaceSpacePrefix(" ", text);
    TrimSpaceOfTrimmed(text);
  }

  /** A `/* text */` comment gives its text. */
  lemma CleanBlockComment(text: string)
    requires text != [] && Trimmed(text) && !HasSuffix(text, "*/")
    ensures CleanComment("/* " + text + " */") == text
  {
    var c := "/* " + text + " */";
    var t := text + " */";
    BlockOuter(text);
    BlockInner(text);
    TrimSpaceTrailingBlank(text);
  }

  /** Removing the line marker leaves a block comment alone; removing the opening
      marker leaves its body. */
  lemma BlockOuter(text: string)
    requires text != [] && Trimmed(text)
    ensures var c := "/* " + text + " */";
      TrimPrefix(TrimSpace(TrimPrefix(c, "//")), "/*") == " " + (text + " */")
  {
    var body := " " + (text + " */");
    var c := "/* " + text + " */";
    assert c == "/*" + body;
    NoLineMarker(body);
    TrimSpaceOfTrimmed("/*" + body);
    TrimPrefixOfConcat("/*", body);
  }

  lemma NoLineMarker(body: string)
    requires body != [] && body[|body| - 1] == '/'
    ensures TrimPrefix("/*" + body, "//") == "/*" + body
    ensures Trimmed("/*" + body)
  {
    var c := "/*" + body;
    assert c[1] == '*' && c[0] == '/' && c[|c| - 1] == '/';
  }

  /** The body with its leading space and closing marker removed. */
  lemma BlockInner(text: string)
    requires text != [] && Trimmed(text)
    ensures TrimSuffix(TrimSpace(" " + (text + " */")), "*/") == text + " "
  {
    var u := text + " ";
    var t := u + "*/";
    assert t == text + " */";
    assert t[0] == text[0] && t[|t| - 1] == '/';
    SpaceThenTrimmed(t);
    TrimSuffixOfConcat(u, "*/");
  }

  lemma TrimSpaceTrailingBlank(text: string)
    requires text != [] && Trimmed(text)
    ensures TrimSpace(text + " ") == text
  {
    var s := text + " ";
    assert s[0] == text[0];
    TrimLeftOfNonSpace(s);
    assert s[..|s| - 1] == text && IsSpace(s[|s| - 1]);
    TrimRightOfNonSpace(text);
  }
}
