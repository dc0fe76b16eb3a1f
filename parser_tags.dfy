/** parseGlobalTags (parser/parser.go): the project-wide annotations of a doc comment.
    Each line is cleaned of surrounding white space and comment markers; a line that
    starts with '@' names an annotation, matched without regard to case. The value
    annotations must have a value; @tags is split at commas; title, version and
    description are mandatory. */
module ParserTags {
  import opened Wrappers
  import opened GoStrings
  import opened GoAst
  import opened Models

  /** The errors parseGlobalTags reports, in the order of its checks. */
  datatype TagError =
    | MissingValue(annotation: string)
    | MissingTitle
    | MissingVersion
    | MissingDescription

  /** A line of the comment text with white space trimmed, then a leading line-comment
      marker, a leading block opener and a trailing block closer removed, then white
      space trimmed again. */
  function TagLine(raw: string): (r: string)
    ensures Trimmed(r)
  {
    TrimSpace(TrimSuffix(TrimPrefix(TrimPrefix(TrimSpace(raw), "//"), "/*"), "*/"))
  }

  /** The annotations that take a value and fail without one. */
  const ValueTags: set<string> := {
    "@title", "@version", "@author", "@license", "@contact",
    "@terms", "@repository", "@tags", "@copyright"}

  /** Every annotation the parser recognises, in lower case. */
  const KnownTags: set<string> := ValueTags + {"@description"}

  /** The project info with the field of a recognised annotation set to value; the
      value of @tags is split at commas. Any other annotation changes nothing. */
  function SetField(info: ProjectInfo, annotation: string, value: string): ProjectInfo {
    if annotation == "@title" then info.(title := value)
    else if annotation == "@version" then info.(version := value)
    else if annotation == "@description" then info.(description := value)
    else if annotation == "@author" then info.(author := value)
    else if annotation == "@license" then info.(license := value)
    else if annotation == "@contact" then info.(contact := value)
    else if annotation == "@terms" then info.(terms := value)
    else if annotation == "@repository" then info.(repository := value)
    else if annotation == "@tags" then info.(tags := Split(value, ','))
    else if annotation == "@copyright" then info.(copyright := value)
    else info
  }

  /** The @description value as parseGlobalTags computes it: only the lower-case
      spelling is removed from the front of the line, so any other spelling of the
      annotation stays in the value. */
  function DescriptionAsWritten(line: string): string {
    TrimSpace(TrimPrefix(line, "@description"))
  }

  /** The evidently intended @description value: the line with the annotation removed
      as it is spelled there. */
  function DescriptionValue(line: string, annotation: string): string {
    TrimSpace(TrimPrefix(line, annotation))
  }

  /** One cleaned line applied to the project info. */
  function ApplyTagLine(info: ProjectInfo, line: string): Result<ProjectInfo, TagError> {
    if !HasPrefix(line, "@") then Success(info)
    else
      var parts := Fields(line);
      if parts == [] then Success(info)
      else
        var annotation := ToLower(parts[0]);
        if annotation == "@description" then
          Success(SetField(info, annotation, DescriptionAsWritten(line)))
        else if annotation !in ValueTags then Success(info)
        else if |parts| < 2 then Failure(MissingValue(annotation))
        else Success(SetField(info, annotation, Join(parts[1..], " ")))
  }

  /** ApplyTagLine with the evidently intended @description rule: the annotation is
      removed however it is spelled. Every other line reads as in ApplyTagLine. */
  function ApplyTagLineIntended(info: ProjectInfo, line: string): Result<ProjectInfo, TagError> {
    if HasPrefix(line, "@") && Fields(line) != [] && ToLower(Fields(line)[0]) == "@description" then
      Success(SetField(info, "@description", DescriptionValue(line, Fields(line)[0])))
    else ApplyTagLine(info, line)
  }

  /** The lines applied in order from info, stopping at the first error. */
  function ScanTags(info: ProjectInfo, lines: seq<string>): Result<ProjectInfo, TagError>
    decreases |lines|
  {
    if lines == [] then Success(info)
    else
      match ApplyTagLine(info, TagLine(lines[0]))
      case Failure(e) => Failure(e)
      case Success(next) => ScanTags(next, lines[1..])
  }

  /** The mandatory annotations, checked in the order title, version, description. */
  function Validate(info: ProjectInfo): (r: Result<ProjectInfo, TagError>)
    ensures r == Failure(MissingTitle) <==> info.title == []
    ensures r == Failure(MissingVersion) <==> info.title != [] && info.version == []
    ensures r == Failure(MissingDescription) <==>
      info.title != [] && info.version != [] && info.description == []
    ensures r.Success? <==> info.title != [] && info.version != [] && info.description != []
    ensures r.Success? ==> r.value == info
  {
    if info.title == [] then Failure(MissingTitle)
    else if info.version == [] then Failure(MissingVersion)
    else if info.description == [] then Failure(MissingDescription)
    else Success(info)
  }

  /** The result of parseGlobalTags for a comment text. */
  function GlobalTags(text: string): (r: Result<ProjectInfo, TagError>)
    ensures r.Success? ==> r.value.title != [] && r.value.version != [] && r.value.description != []
  {
    match ScanTags(EmptyProjectInfo, Lines(text))
    case Failure(e) => Failure(e)
    case Success(info) => Validate(info)
  }

  lemma ScanTagsStep(info: ProjectInfo, lines: seq<string>, i: nat)
    requires i < |lines|
    ensures ScanTags(info, lines[i..]) ==
      match ApplyTagLine(info, TagLine(lines[i]))
      case Failure(e) => Failure(e)
      case Success(next) => ScanTags(next, lines[i + 1..])
  {
    assert lines[i..][1..] == lines[i + 1..];
  }

  method ParseGlobalTags(cg: Option<CommentGroup>) returns (r: Result<ProjectInfo, TagError>)
    ensures r == GlobalTags(CommentText(cg))
  {
    var info := EmptyProjectInfo;
    var lines := Lines(CommentText(cg));
    for i := 0 to |lines|
      invariant ScanTags(info, lines[i..]) == ScanTags(EmptyProjectInfo, lines)
    {
      ScanTagsStep(info, lines, i);
      var line := CleanLine(lines[i]);
      var step := ReadTagLine(info, line);
      if step.Failure? {
        return Failure(step.error);
      }
      info := step.value;
    }
    assert lines[|lines|..] == [];
    if info.title == [] {
      return Failure(MissingTitle);
    }
    if info.version == [] {
      return Failure(MissingVersion);
    }
    if info.description == [] {
      return Failure(MissingDescription);
    }
    return Success(info);
  }

  /** The clean-up parseGlobalTags applies to every line before reading it. */
  method CleanLine(raw: string) returns (line: string)
    ensures line == TagLine(raw)
  {
    line := TrimSpace(raw);
    line := TrimPrefix(line, "//");
    line := TrimPrefix(line, "/*");
    line := TrimSuffix(line, "*/");
    line := TrimSpace(line);
  }

  /** One cleaned line of parseGlobalTags's loop: the field it sets, or the error that
      ends the loop. */
  method ReadTagLine(info: ProjectInfo, line: string) returns (r: Result<ProjectInfo, TagError>)
    ensures r == ApplyTagLine(info, line)
  {
    if !HasPrefix(line, "@") {
      return Success(info);
    }
    var parts := Fields(line);
    if |parts| == 0 {
      return Success(info);
    }
    var annotation := ToLower(parts[0]);
    if annotation == "@description" {
      var description := TrimPrefix(line, "@description");
      return Success(SetField(info, annotation, TrimSpace(description)));
    } else if annotation in ValueTags {
      if |parts| < 2 {
        return Failure(MissingValue(annotation));
      }
      return Success(SetField(info, annotation, Join(parts[1..], " ")));
    }
    return Success(info);
  }

  // ---------------------------------------------------------------------------
  // One annotation line
  // ---------------------------------------------------------------------------

  /** An annotation as it can be written: '@' and then no white space. */
  predicate IsAnnotation(tag: string) {
    HasPrefix(tag, "@") && NoSpace(tag)
  }

  /** An annotation followed by a blank and a value: the value annotations take the
      words of the value joined by single spaces, and fail when it has none; unknown
      annotations change nothing. Which case applies depends only on the lower-case
      spelling of the annotation. Spelled "@description", the annotation yields the
      trimmed value; any other spelling of it stays in the value. */
  lemma TagLineApplies(info: ProjectInfo, tag: string, v: string)
    requires IsAnnotation(tag)
    ensures var a := ToLower(tag);
      ApplyTagLine(info, tag + " " + v) ==
        if a == "@description" then
          Success(SetField(info, a, if tag == "@description" then TrimSpace(v) else TrimSpace(tag + " " + v)))
        else if a !in ValueTags then Success(info)
        else if Fields(v) == [] then Failure(MissingValue(a))
        else Success(SetField(info, a, Join(Fields(v), " ")))
  {
    var rest := " " + v;
    var line := tag + rest;
    assert line == tag + " " + v;
    HasPrefixAppend(tag, rest, "@");
    FieldsWordThenSpace(tag, v);
    ApplyOfFields(info, line, tag, Fields(v));
    if ToLower(tag) == "@description" {
      TrimSameLength(tag, rest, "@description");
      SpacePrefixTrimmed(v);
    }
  }

  /** A line read through its fields: the first one names the annotation, the others
      are its arguments. */
  lemma ApplyOfFields(info: ProjectInfo, line: string, tag: string, args: seq<string>)
    requires HasPrefix(line, "@") && Fields(line) == [tag] + args
    ensures var a := ToLower(tag);
      ApplyTagLine(info, line) ==
        if a == "@description" then Success(SetField(info, a, DescriptionAsWritten(line)))
        else if a !in ValueTags then Success(info)
        else if args == [] then Failure(MissingValue(a))
        else Success(SetField(info, a, Join(args, " ")))
    ensures ApplyTagLineIntended(info, line) ==
      if ToLower(tag) == "@description" then Success(SetField(info, "@description", DescriptionValue(line, tag)))
      else ApplyTagLine(info, line)
  {
    assert Fields(line)[0] == tag && Fields(line)[1..] == args;
  }

  /** Removing a prefix as long as the first piece removes that piece exactly when it
      is the prefix. */
  lemma TrimSameLength(a: string, b: string, p: string)
    requires |a| == |p|
    ensures TrimPrefix(a + b, p) == if a == p then b else a + b
  {
    PrefixOfSameLength(a, b, p);
    TrimPrefixOfConcat(a, b);
  }

  /** An annotation alone on its line: a value annotation reports its missing value and
      an unknown annotation changes nothing. A lone "@description" empties the
      description; any other spelling of it becomes the description itself. */
  lemma LoneAnnotation(info: ProjectInfo, tag: string)
    requires IsAnnotation(tag)
    ensures var a := ToLower(tag);
      ApplyTagLine(info, tag) ==
        if a == "@description" then Success(SetField(info, a, if tag == "@description" then [] else tag))
        else if a in ValueTags then Failure(MissingValue(a))
        else Success(info)
  {
    FieldsOfWord(tag);
    assert [tag] + [] == [tag];
    ApplyOfFields(info, tag, tag, []);
    if ToLower(tag) == "@description" {
      assert tag + [] == tag;
      TrimSameLength(tag, [], "@description");
      AnnotationTrimmed(tag);
    }
  }

  lemma AnnotationTrimmed(tag: string)
    requires IsAnnotation(tag)
    ensures TrimSpace(tag) == tag
  {
    assert tag[0] in tag && tag[|tag| - 1] in tag;
    TrimSpaceOfTrimmed(tag);
  }

  /** Annotations are matched without regard to case: two spellings of one annotation
      read alike, except for the value of @description, which depends on the spelling. */
  lemma AnnotationCaseInsensitive(info: ProjectInfo, t1: string, t2: string, v: string)
    requires IsAnnotation(t1) && IsAnnotation(t2) && ToLower(t1) == ToLower(t2)
    ensures ToLower(t1) != "@description" ==> ApplyTagLine(info, t1 + " " + v) == ApplyTagLine(info, t2 + " " + v)
    ensures ToLower(t1) != "@description" ==> ApplyTagLine(info, t1) == ApplyTagLine(info, t2)
    ensures ApplyTagLine(info, t1 + " " + v).Success? <==> ApplyTagLine(info, t2 + " " + v).Success?
    ensures ApplyTagLine(info, t1).Success? <==> ApplyTagLine(info, t2).Success?
  {
    TagLineApplies(info, t1, v);
    TagLineApplies(info, t2, v);
    LoneAnnotation(info, t1);
    LoneAnnotation(info, t2);
  }

  /** Under the intended rule, however @description is spelled, the description is the
      rest of the line. */
  lemma DescriptionAnySpelling(info: ProjectInfo, tag: string, v: string)
    requires IsAnnotation(tag) && ToLower(tag) == "@description"
    ensures ApplyTagLineIntended(info, tag + " " + v) == Success(info.(description := TrimSpace(v)))
  {
    var rest := " " + v;
    var line := tag + rest;
    assert line == tag + " " + v;
    HasPrefixAppend(tag, rest, "@");
    FieldsWordThenSpace(tag, v);
    ApplyOfFields(info, line, tag, Fields(v));
    TrimPrefixOfConcat(tag, rest);
    SpacePrefixTrimmed(v);
  }

  /** The intended rule matches every annotation without regard to case. */
  lemma IntendedCaseInsensitive(info: ProjectInfo, t1: string, t2: string, v: string)
    requires IsAnnotation(t1) && IsAnnotation(t2) && ToLower(t1) == ToLower(t2)
    ensures ApplyTagLineIntended(info, t1 + " " + v) == ApplyTagLineIntended(info, t2 + " " + v)
  {
    if ToLower(t1) == "@description" {
      DescriptionAnySpelling(info, t1, v);
      DescriptionAnySpelling(info, t2, v);
    } else {
      IntendedOtherTag(info, t1, v);
      IntendedOtherTag(info, t2, v);
      AnnotationCaseInsensitive(info, t1, t2, v);
    }
  }

  /** Away from @description the intended rule is the rule as written. */
  lemma IntendedOtherTag(info: ProjectInfo, tag: string, v: string)
    requires IsAnnotation(tag) && ToLower(tag) != "@description"
    ensures ApplyTagLineIntended(info, tag + " " + v) == ApplyTagLine(info, tag + " " + v)
  {
    var rest := " " + v;
    var line := tag + rest;
    assert line == tag + " " + v;
    FieldsWordThenSpace(tag, v);
    if HasPrefix(line, "@") {
      ApplyOfFields(info, line, tag, Fields(v));
    }
  }

  /** As written, a spelling of @description other than the lower-case one stays in
      the value, where the intended rule yields only the rest of the line. */
  lemma DescriptionAsWrittenKeepsAnnotation(tag: string, v: string)
    requires IsAnnotation(tag) && ToLower(tag) == "@description" && tag != "@description"
    requires v != [] && Trimmed(v)
    ensures ApplyTagLine(EmptyProjectInfo, tag + " " + v) == Success(EmptyProjectInfo.(description := tag + " " + v))
    ensures ApplyTagLineIntended(EmptyProjectInfo, tag + " " + v) == Success(EmptyProjectInfo.(description := v))
  {
    var line := tag + " " + v;
    assert line == tag + (" " + v);
    assert line[|line| - 1] == v[|v| - 1];
    assert line[0] == tag[0];
    TrimSpaceOfTrimmed(line);
    TrimSpaceOfTrimmed(v);
    TagLineApplies(EmptyProjectInfo, tag, v);
    DescriptionAnySpelling(EmptyProjectInfo, tag, v);
  }

  /** A lone "@Description" line sets the description to "@Description", so a comment
      whose only description line is that one passes the mandatory check. */
  lemma LoneCapitalDescription(info: ProjectInfo)
    ensures ApplyTagLine(info, "@Description") == Success(info.(description := "@Description"))
  {
    CapitalDescription();
    LoneAnnotation(info, "@Description");
  }

  /** "@Description", the spelling the function annotations use, is such a spelling. */
  lemma CapitalDescription()
    ensures IsAnnotation("@Description") && ToLower("@Description") == "@description"
    ensures "@Description" != "@description"
  {
    CapitalDescriptionIsAnnotation();
    CapitalDescriptionLower();
    CapitalDescriptionDiffers();
  }

  lemma CapitalDescriptionDiffers()
    ensures "@Description" != "@description"
  {
    assert "@Description"[1] != "@description"[1];
  }

  lemma CapitalDescriptionLower()
    ensures ToLower("@Description") == "@description"
  {
    CapitalDescriptionPieces();
    CapitalDescriptionHead();
    DescriptionTail();
    LowerDescriptionSplit();
  }

  lemma DescriptionTail()
    ensures ToLower("escription") == "escription"
  {
    ToLowerOfLower("escription");
  }

  lemma CapitalDescriptionPieces()
    ensures ToLower("@Description") == ToLower("@D") + ToLower("escription")
  {
    CapitalDescriptionSplit();
    ToLowerAppend("@D", "escription");
  }

  lemma CapitalDescriptionIsAnnotation()
    ensures IsAnnotation("@Description")
  {
    assert "@"[..1] == "@";
    HasPrefixAppend("@", "Description", "@");
    assert "@" + "Description" == "@Description";
  }

  lemma CapitalDescriptionSplit()
    ensures "@D" + "escription" == "@Description"
  {
  }

  lemma CapitalDescriptionHead()
    ensures ToLower("@D") == "@d"
  {
  }

  lemma LowerDescriptionSplit()
    ensures "@d" + "escription" == "@description"
  {
  }

  /** The value of @tags is split at its commas, and only there. */
  lemma TagsSplitAtCommas(info: ProjectInfo, ts: seq<string>)
    requires ts != [] && forall k :: 0 <= k < |ts| ==> ',' !in ts[k]
    ensures SetField(info, "@tags", Join(ts, ",")).tags == ts
  {
    SplitJoin(ts, ',');
  }

  // ---------------------------------------------------------------------------
  // Round trip: a project info spelled as a doc comment parses back to itself
  // ---------------------------------------------------------------------------

  /** A value as a doc comment can spell it: words separated by single blanks, not
      ending in a block-comment closer (which the line cleaning would remove). */
  predicate IsValue(v: string) {
    v != [] && Join(Fields(v), " ") == v && !HasSuffix(v, "*/")
  }

  predicate OptValue(v: string) {
    v == [] || IsValue(v)
  }

  /** Tags that survive the comma split: comma-free words whose joined spelling does not
      end in a block-comment closer. */
  predicate IsTagList(tags: seq<string>) {
    tags != [] && Words(tags) && (forall k :: 0 <= k < |tags| ==> ',' !in tags[k])
    && !HasSuffix(Join(tags, ","), "*/")
  }

  /** A project info whose fields a doc comment can spell: every field holds a value or
      nothing. */
  predicate Spellable(info: ProjectInfo) {
    OptValue(info.title) && OptValue(info.version) && OptValue(info.description)
    && OptValue(info.author) && OptValue(info.license) && OptValue(info.contact)
    && OptValue(info.terms) && OptValue(info.repository) && OptValue(info.copyright)
    && (info.tags == [] || IsTagList(info.tags))
  }

  function Opt(annotation: string, v: string, rest: seq<(string, string)>): seq<(string, string)> {
    if v == [] then rest else [(annotation, v)] + rest
  }

  /** The annotations that spell info, one per field that is set, in the order of the
      ProjectInfo declaration (the mandatory fields are set in a spellable info). */
  function Entries(info: ProjectInfo): seq<(string, string)> {
    Opt("@title", info.title,
      Opt("@version", info.version,
      Opt("@description", info.description,
      Opt("@author", info.author,
      Opt("@license", info.license,
      Opt("@contact", info.contact,
      Opt("@terms", info.terms,
      Opt("@repository", info.repository,
      Opt("@tags", Join(info.tags, ","),
      Opt("@copyright", info.copyright, []))))))))))
  }

  /** One line per annotation: the annotation, a blank, the value. */
  function EntryLines(es: seq<(string, string)>): (r: seq<string>)
    ensures |r| == |es|
    ensures forall k :: 0 <= k < |es| ==> r[k] == es[k].0 + " " + es[k].1
  {
    if es == [] then [] else [es[0].0 + " " + es[0].1] + EntryLines(es[1..])
  }

  /** The doc-comment text that spells info. */
  function Spell(info: ProjectInfo): string {
    Join(EntryLines(Entries(info)), "\n")
  }

  /** The annotations applied in order. */
  function FoldEntries(info: ProjectInfo, es: seq<(string, string)>): ProjectInfo
    decreases |es|
  {
    if es == [] then info else FoldEntries(SetField(info, es[0].0, es[0].1), es[1..])
  }

  predicate EntryOk(e: (string, string)) {
    e.0 in KnownTags && IsValue(e.1)
  }

  predicate LowerAnnotation(a: string) {
    IsAnnotation(a) && ToLower(a) == a
  }

  /** '@' followed by lower-case letters. */
  lemma LowerWord(a: string)
    requires a != [] && a[0] == '@' && forall c :: c in a ==> c == '@' || 'a' <= c <= 'z'
    ensures LowerAnnotation(a)
  {
    assert a[..1] == [a[0]];
    forall i | 0 <= i < |a| ensures !IsSpace(a[i]) {
      assert a[i] in a;
    }
    ToLowerOfLower(a);
  }

  /** Every recognised annotation is written in lower case. */
  lemma KnownTagsLower(a: string)
    requires a in KnownTags
    ensures LowerAnnotation(a)
  {
    LowerWord(a);
  }

  /** The facts about a value that its line needs: no white space at either end and
      no white space but blanks inside. */
  lemma ValueShape(v: string)
    requires IsValue(v)
    ensures Trimmed(v) && Fields(v) != []
    ensures forall c :: c in v ==> c == ' ' || !IsSpace(c)
  {
    var ws := Fields(v);
    if ws != [] {
      JoinWords(ws);
    }
    JoinWordsBlanks(ws);
  }

  /** The line that spells an annotation and a value survives the line splitting and
      the line cleaning unchanged. */
  lemma EntryLineClean(tag: string, v: string)
    requires LowerAnnotation(tag) && IsValue(v)
    ensures var l := tag + " " + v; l != [] && PlainLine(l) && TagLine(l) == l
  {
    var l := tag + " " + v;
    EntryLineShape(tag, v);
    EntryLineNoCloser(tag, v);
    TagLineOfClean(l);
  }

  lemma EntryLineShape(tag: string, v: string)
    requires LowerAnnotation(tag) && IsValue(v)
    ensures var l := tag + " " + v; l != [] && l[0] == '@' && Trimmed(l) && PlainLine(l)
  {
    ValueShape(v);
    AnnotatedLineShape(tag, v);
  }

  lemma AnnotatedLineShape(tag: string, v: string)
    requires IsAnnotation(tag) && v != [] && Trimmed(v)
    requires forall c :: c in v ==> c == ' ' || !IsSpace(c)
    ensures var l := tag + " " + v; l != [] && l[0] == '@' && Trimmed(l) && PlainLine(l)
  {
    var l := tag + " " + v;
    assert l[0] == '@' by {
      FirstOfPrefix(tag, "@");
      assert l[0] == tag[0];
    }
    assert l[|l| - 1] == v[|v| - 1];
    assert '\n' !in l by {
      assert IsSpace('\n');
      assert '\n' !in tag;
      assert '\n' !in v;
      NotInAppend('\n', tag, " ", v);
    }
  }

  lemma EntryLineNoCloser(tag: string, v: string)
    requires v != [] && !HasSuffix(v, "*/")
    ensures !HasSuffix(tag + " " + v, "*/")
  {
    if |v| >= 2 {
      SuffixOfAppend(tag + " ", v, "*/");
    } else {
      var l := tag + " " + v;
      assert l[|l| - 2] == ' ';
    }
  }

  /** A trimmed annotation line without a closing block marker is already clean. */
  lemma TagLineOfClean(l: string)
    requires l != [] && l[0] == '@' && Trimmed(l) && !HasSuffix(l, "*/")
    ensures TagLine(l) == l
  {
    TrimSpaceOfTrimmed(l);
    NotPrefixOfFirst(l, "//");
    NotPrefixOfFirst(l, "/*");
  }

  /** The line that spells a recognised annotation and a value sets exactly that field. */
  lemma EntryApplies(info: ProjectInfo, tag: string, v: string)
    requires LowerAnnotation(tag) && tag in KnownTags && IsValue(v)
    ensures ApplyTagLine(info, tag + " " + v) == Success(SetField(info, tag, v))
  {
    ValueShape(v);
    TrimSpaceOfTrimmed(v);
    TagLineApplies(info, tag, v);
  }

  /** Lines spelling recognised annotations apply them in order. */
  lemma {:induction false} ScanEntries(info: ProjectInfo, es: seq<(string, string)>)
    requires forall k :: 0 <= k < |es| ==> EntryOk(es[k])
    ensures ScanTags(info, EntryLines(es)) == Success(FoldEntries(info, es))
    decreases |es|
  {
    if es != [] {
      var e := es[0];
      KnownTagsLower(e.0);
      EntryLineClean(e.0, e.1);
      EntryApplies(info, e.0, e.1);
      var lines := EntryLines(es);
      assert lines[1..] == EntryLines(es[1..]);
      ScanEntries(SetField(info, e.0, e.1), es[1..]);
    }
  }

  lemma OptOk(a: string, v: string, rest: seq<(string, string)>)
    requires a in KnownTags && OptValue(v)
    requires forall k :: 0 <= k < |rest| ==> EntryOk(rest[k])
    ensures forall k :: 0 <= k < |Opt(a, v, rest)| ==> EntryOk(Opt(a, v, rest)[k])
  {
    if v != [] {
      var r := Opt(a, v, rest);
      forall k | 0 <= k < |r| ensures EntryOk(r[k]) {
        if k > 0 {
          assert r[k] == rest[k - 1];
        }
      }
    }
  }

  /** Joined by commas, a tag list is a single value. */
  lemma TagListValue(tags: seq<string>)
    requires tags == [] || IsTagList(tags)
    ensures OptValue(Join(tags, ","))
    ensures tags == [] <==> Join(tags, ",") == []
  {
    if tags != [] {
      var j := Join(tags, ",");
      assert NoSpace(",");
      JoinNoSpace(tags, ",");
      assert |j| >= |tags[0]|;
      FieldsOfWord(j);
    }
  }

  /** Every annotation in the spelling of a spellable info is recognised and carries a
      value. */
  lemma EntriesOk(info: ProjectInfo)
    requires Spellable(info)
    ensures forall k :: 0 <= k < |Entries(info)| ==> EntryOk(Entries(info)[k])
  {
    RecognisedTags();
    var r10 := Opt("@copyright", info.copyright, []);
    OptOk("@copyright", info.copyright, []);
    TagListValue(info.tags);
    var r9 := Opt("@tags", Join(info.tags, ","), r10);
    OptOk("@tags", Join(info.tags, ","), r10);
    var r8 := Opt("@repository", info.repository, r9);
    OptOk("@repository", info.repository, r9);
    var r7 := Opt("@terms", info.terms, r8);
    OptOk("@terms", info.terms, r8);
    var r6 := Opt("@contact", info.contact, r7);
    OptOk("@contact", info.contact, r7);
    var r5 := Opt("@license", info.license, r6);
    OptOk("@license", info.license, r6);
    var r4 := Opt("@author", info.author, r5);
    OptOk("@author", info.author, r5);
    var r3 := Opt("@description", info.description, r4);
    OptOk("@description", info.description, r4);
    var r2 := Opt("@version", info.version, r3);
    OptOk("@version", info.version, r3);
    OptOk("@title", info.title, r2);
  }

  lemma RecognisedTags()
    ensures "@title" in KnownTags && "@version" in KnownTags && "@description" in KnownTags
    ensures "@author" in KnownTags && "@license" in KnownTags && "@contact" in KnownTags
    ensures "@terms" in KnownTags && "@repository" in KnownTags && "@tags" in KnownTags
    ensures "@copyright" in KnownTags
  {
  }

  lemma FoldOpt(x: ProjectInfo, a: string, v: string, rest: seq<(string, string)>)
    ensures FoldEntries(x, Opt(a, v, rest)) == FoldEntries(if v == [] then x else SetField(x, a, v), rest)
  {
    if v != [] {
      assert ([(a, v)] + rest)[1..] == rest;
    }
  }

  lemma SetTitle(x: ProjectInfo, v: string)
    ensures SetField(x, "@title", v) == x.(title := v)
  {
  }

  lemma SetVersion(x: ProjectInfo, v: string)
    ensures SetField(x, "@version", v) == x.(version := v)
  {
  }

  lemma SetDescription(x: ProjectInfo, v: string)
    ensures SetField(x, "@description", v) == x.(description := v)
  {
  }

  lemma SetAuthor(x: ProjectInfo, v: string)
    ensures SetField(x, "@author", v) == x.(author := v)
  {
  }

  lemma SetLicense(x: ProjectInfo, v: string)
    ensures SetField(x, "@license", v) == x.(license := v)
  {
  }

  lemma SetContact(x: ProjectInfo, v: string)
    ensures SetField(x, "@contact", v) == x.(contact := v)
  {
  }

  lemma SetTerms(x: ProjectInfo, v: string)
    ensures SetField(x, "@terms", v) == x.(terms := v)
  {
  }

  lemma SetRepository(x: ProjectInfo, v: string)
    ensures SetField(x, "@repository", v) == x.(repository := v)
  {
  }

  lemma SetCopyright(x: ProjectInfo, v: string)
    ensures SetField(x, "@copyright", v) == x.(copyright := v)
  {
  }

  lemma SetTags(x: ProjectInfo, v: string)
    ensures SetField(x, "@tags", v) == x.(tags := Split(v, ','))
  {
  }


  /** Applying the spelling of a spellable info to the empty info rebuilds it. */
  lemma SpellFolds(info: ProjectInfo)
    requires Spellable(info)
    ensures FoldEntries(EmptyProjectInfo, Entries(info)) == info
  {
    var r10 := Opt("@copyright", info.copyright, []);
    var r9 := Opt("@tags", Join(info.tags, ","), r10);
    var r8 := Opt("@repository", info.repository, r9);
    var r7 := Opt("@terms", info.terms, r8);
    var r6 := Opt("@contact", info.contact, r7);
    var r5 := Opt("@license", info.license, r6);
    var r4 := Opt("@author", info.author, r5);
    var r3 := Opt("@description", info.description, r4);
    var r2 := Opt("@version", info.version, r3);
    var x0 := EmptyProjectInfo;
    SetTitle(x0, info.title);
    FoldOpt(x0, "@title", info.title, r2);
    var x1 := x0.(title := info.title);
    SetVersion(x1, info.version);
    FoldOpt(x1, "@version", info.version, r3);
    var x2 := x1.(version := info.version);
    SetDescription(x2, info.description);
    FoldOpt(x2, "@description", info.description, r4);
    var x3 := x2.(description := info.description);
    SetAuthor(x3, info.author);
    FoldOpt(x3, "@author", info.author, r5);
    var x4 := x3.(author := info.author);
    SetLicense(x4, info.license);
    FoldOpt(x4, "@license", info.license, r6);
    var x5 := x4.(license := info.license);
    SetContact(x5, info.contact);
    FoldOpt(x5, "@contact", info.contact, r7);
    var x6 := x5.(contact := info.contact);
    SetTerms(x6, info.terms);
    FoldOpt(x6, "@terms", info.terms, r8);
    var x7 := x6.(terms := info.terms);
    SetRepository(x7, info.repository);
    FoldOpt(x7, "@repository", info.repository, r9);
    var x8 := x7.(repository := info.repository);
    TagListValue(info.tags);
    if info.tags != [] {
      TagsSplitAtCommas(x8, info.tags);
    }
    SetTags(x8, Join(info.tags, ","));
    FoldOpt(x8, "@tags", Join(info.tags, ","), r10);
    var x9 := x8.(tags := info.tags);
    SetCopyright(x9, info.copyright);
    FoldOpt(x9, "@copyright", info.copyright, []);
  }

  /** Spelling a project info as a doc comment and parsing the comment gives the info
      back when its mandatory fields are set, and otherwise the error for the first
      missing one. */
  lemma GlobalTagsOfSpell(info: ProjectInfo)
    requires Spellable(info)
    ensures GlobalTags(Spell(info)) == Validate(info)
  {
    var es := Entries(info);
    EntriesOk(info);
    var ls := EntryLines(es);
    forall k | 0 <= k < |ls| ensures PlainLine(ls[k]) && ls[k] != [] {
      KnownTagsLower(es[k].0);
      EntryLineClean(es[k].0, es[k].1);
    }
    LinesOfJoin(ls);
    ScanEntries(EmptyProjectInfo, es);
    SpellFolds(info);
  }

  lemma GlobalTagsRoundTrip(info: ProjectInfo)
    requires Spellable(info) && info.title != [] && info.version != [] && info.description != []
    ensures GlobalTags(Spell(info)) == Success(info)
  {
    GlobalTagsOfSpell(info);
  }
}
