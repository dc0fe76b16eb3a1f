/** The function annotations of the parser (parseFunction in parser/parser.go): the
    @Command, @Description, @Parameter, @Result and @Error lines of a function's doc
    comment, the checks made on each, the checks made once all lines are read, and
    the struct that the result type leads the parser to look up. */
module ParserFunction {
  import opened Wrappers
  import opened GoStrings
  import opened GoAst
  import opened Models
  import Parser
  import ParserTags

  /** The errors parseFunction reports. */
  datatype FunctionError =
    | MissingCommandName   // @Command without a name
    | InvalidParameter     // @Parameter without both a name and a type
    | InvalidError         // @Error without both a code and a description
    | InvalidErrorCode     // @Error whose code is not a 64-bit integer
    | MultipleResults      // more than one @Result line
    | MalformedResult      // @Result without both a type and a description
    | MissingCommand       // no @Command line
    | MissingDescription   // no @Description line, or an empty one

  /** What the annotation loop has collected so far: the last command and description,
      the parameters and errors in order, and the @Result lines, which are only
      interpreted once the loop is over. */
  datatype Annotations = Annotations(
    command: string,
    description: string,
    parameters: seq<APIParameter>,
    errors: seq<APIError>,
    resultLines: seq<string>)

  const NoAnnotations := Annotations("", "", [], [], [])

  /** The annotations parseFunction acts on; it ignores every other '@' word. Unlike
      the project tags, they are matched with their case. */
  predicate IsFunctionTag(tag: string) {
    tag == "@Command" || tag == "@Description" || tag == "@Parameter" || tag == "@Result" || tag == "@Error"
  }

  /** A @Parameter annotation from the words after the tag: a name, a type, the word
      "optional" in any case, and the description words. */
  function ParameterOf(args: seq<string>): APIParameter
    requires |args| >= 2
  {
    var rest := args[2..];
    var optional := rest != [] && EqualFoldAscii(rest[0], "optional");
    APIParameter(args[0], args[1], Join(if optional then rest[1..] else rest, " "), !optional)
  }

  /** An @Error annotation from the words after the tag: a code and the description
      words. */
  function ErrorOf(args: seq<string>): Result<APIError, FunctionError>
    requires |args| >= 2
  {
    match Atoi(args[0])
    case None => Failure(InvalidErrorCode)
    case Some(code) => Success(APIError(code, Join(args[1..], " ")))
  }

  /** One trimmed doc line applied to the annotations collected so far. */
  function ApplyFunctionLine(a: Annotations, line: string): Result<Annotations, FunctionError> {
    if !HasPrefix(line, "@") then Success(a)
    else
      var parts := Fields(line);
      if parts == [] then Success(a)
      else
        var tag := parts[0];
        var args := parts[1..];
        if tag == "@Command" then
          if args == [] then Failure(MissingCommandName) else Success(a.(command := args[0]))
        else if tag == "@Description" then
          Success(a.(description := TrimSpace(TrimPrefix(line, "@Description"))))
        else if tag == "@Parameter" then
          if |args| < 2 then Failure(InvalidParameter)
          else Success(a.(parameters := a.parameters + [ParameterOf(args)]))
        else if tag == "@Result" then
          Success(a.(resultLines := a.resultLines + [line]))
        else if tag == "@Error" then
          if |args| < 2 then Failure(InvalidError)
          else
            match ErrorOf(args)
            case Failure(e) => Failure(e)
            case Success(err) => Success(a.(errors := a.errors + [err]))
        else Success(a)
  }

  /** The doc lines applied in order, each trimmed first, stopping at the first error. */
  function ScanFunction(a: Annotations, lines: seq<string>): Result<Annotations, FunctionError>
    decreases |lines|
  {
    if lines == [] then Success(a)
    else
      match ApplyFunctionLine(a, TrimSpace(lines[0]))
      case Failure(e) => Failure(e)
      case Success(next) => ScanFunction(next, lines[1..])
  }

  /** The return value of a @Result line: always named "result" and required, with
      the type and the description words that follow the tag. */
  function ResultOf(line: string): Result<APIReturn, FunctionError> {
    var parts := Fields(TrimSpace(line));
    if |parts| < 3 then Failure(MalformedResult)
    else Success(APIReturn("result", parts[1], Join(parts[2..], " "), true))
  }

  /** The results of a function from its @Result lines: none, or the one line's. */
  function ResultsOf(lines: seq<string>): Result<seq<APIReturn>, FunctionError> {
    if |lines| > 1 then Failure(MultipleResults)
    else if lines == [] then Success([])
    else
      match ResultOf(lines[0])
      case Failure(e) => Failure(e)
      case Success(ret) => Success([ret])
  }

  /** At most one @Result line is allowed, and it must be well formed; the result is
      then named "result" and required. */
  lemma ResultsOfChecks(lines: seq<string>)
    ensures var r := ResultsOf(lines);
      && (r.Success? ==> |r.value| == |lines| <= 1)
      && (r.Success? ==> forall k :: 0 <= k < |r.value| ==> r.value[k].name == "result" && r.value[k].required)
      && (r == Failure(MultipleResults) <==> |lines| > 1)
      && (r == Failure(MalformedResult) <==> |lines| == 1 && ResultOf(lines[0]).Failure?)
  {
  }

  /** The struct that a result type sends parseFunction looking for: the key of a type
      that is not basic, unless the struct tables already hold it. */
  function LookupOf(typ: string, currentPackage: string, known: set<StructKey>): Option<StructKey> {
    var key := Parser.StructKeyOf(typ, currentPackage);
    if key.Some? && key.value !in known then key else None
  }

  /** The struct looked up is one the tables do not hold, named by a type that is not
      basic. */
  lemma LookupOfKey(typ: string, currentPackage: string, known: set<StructKey>)
    ensures var r := LookupOf(typ, currentPackage, known);
      r.Some? ==> r.value !in known && r.value.name != [] && !Parser.IsBasicType(r.value.name)
  {
  }

  /** The outcome of parseFunction: the function or its first error, and the struct it
      goes on to look up, if any. */
  datatype Parsed = Parsed(outcome: Result<APIFunction, FunctionError>, lookup: Option<StructKey>)

  /** The checks made once every line is read: the results first, then the command,
      then the description. */
  function Finish(a: Annotations, currentPackage: string, importAliases: map<string, string>,
                  known: set<StructKey>): Parsed
  {
    match ResultsOf(a.resultLines)
    case Failure(e) => Parsed(Failure(e), None)
    case Success(results) =>
      var lookup := if results == [] then None else LookupOf(results[0].typ, currentPackage, known);
      if a.command == [] then Parsed(Failure(MissingCommand), lookup)
      else if a.description == [] then Parsed(Failure(MissingDescription), lookup)
      else Parsed(Success(APIFunction(a.command, a.description, a.parameters, results, a.errors,
                                      currentPackage, importAliases)), lookup)
  }

  /** The result checks come before the command check, which comes before the
      description check; a function that passes them all carries what the lines
      collected, and the struct to look up is the single result's. */
  lemma FinishOrder(a: Annotations, currentPackage: string, importAliases: map<string, string>,
                    known: set<StructKey>)
    ensures var r := Finish(a, currentPackage, importAliases, known);
      var results := ResultsOf(a.resultLines);
      && (r.outcome == Failure(MultipleResults) <==> |a.resultLines| > 1)
      && (r.outcome == Failure(MalformedResult) <==>
            |a.resultLines| == 1 && ResultOf(a.resultLines[0]).Failure?)
      && (r.outcome == Failure(MissingCommand) <==> results.Success? && a.command == [])
      && (r.outcome == Failure(MissingDescription) <==>
            results.Success? && a.command != [] && a.description == [])
      && (r.outcome.Success? <==> results.Success? && a.command != [] && a.description != [])
      && (r.outcome.Success? ==>
            r.outcome.value == APIFunction(a.command, a.description, a.parameters,
              results.value, a.errors, currentPackage, importAliases))
      && (r.lookup ==
            if results.Success? && |a.resultLines| == 1
            then LookupOf(results.value[0].typ, currentPackage, known)
            else None)
  {
    ResultsOfChecks(a.resultLines);
  }

  /** The result of parseFunction for the text of a function's doc comment, in a file of
      package currentPackage with the given import aliases, when the struct tables
      already hold the keys in known. */
  function FunctionAnnotations(text: string, currentPackage: string, importAliases: map<string, string>,
                               known: set<StructKey>): Parsed
  {
    match ScanFunction(NoAnnotations, Lines(text))
    case Failure(e) => Parsed(Failure(e), None)
    case Success(a) => Finish(a, currentPackage, importAliases, known)
  }

  /** A parsed function has a command, a description, at most one result, named
      "result" and required, and the package and aliases of its file; the struct to look
      up is one the tables do not hold, and not a basic type. */
  lemma FunctionAnnotationsShape(text: string, currentPackage: string,
                                 importAliases: map<string, string>, known: set<StructKey>)
    ensures var r := FunctionAnnotations(text, currentPackage, importAliases, known);
      && (r.outcome.Success? ==>
            var f := r.outcome.value;
            f.command != [] && f.description != [] && |f.results| <= 1
            && (forall k :: 0 <= k < |f.results| ==> f.results[k].name == "result" && f.results[k].required)
            && f.packageName == currentPackage && f.importAliases == importAliases)
      && (r.lookup.Some? ==>
            r.lookup.value !in known && r.lookup.value.name != [] && !Parser.IsBasicType(r.lookup.value.name))
  {
    var scan := ScanFunction(NoAnnotations, Lines(text));
    if scan.Success? {
      var a := scan.value;
      FinishOrder(a, currentPackage, importAliases, known);
      ResultsOfChecks(a.resultLines);
      var results := ResultsOf(a.resultLines);
      if results.Success? && |a.resultLines| == 1 {
        LookupOfKey(results.value[0].typ, currentPackage, known);
      }
    }
  }

  lemma ScanFunctionStep(a: Annotations, lines: seq<string>, i: nat)
    requires i < |lines|
    ensures ScanFunction(a, lines[i..]) ==
      match ApplyFunctionLine(a, TrimSpace(lines[i]))
      case Failure(e) => Failure(e)
      case Success(next) => ScanFunction(next, lines[i + 1..])
  {
    assert lines[i..][1..] == lines[i + 1..];
  }

  /** The loop of parseFunction over the doc lines: the annotations collected, or the
      first error. */
  method CollectAnnotations(lines: seq<string>) returns (r: Result<Annotations, FunctionError>)
    ensures r == ScanFunction(NoAnnotations, lines)
  {
    var a := NoAnnotations;
    for i := 0 to |lines|
      invariant ScanFunction(a, lines[i..]) == ScanFunction(NoAnnotations, lines)
    {
      ScanFunctionStep(a, lines, i);
      var step := ReadLine(a, TrimSpace(lines[i]));
      if step.Failure? {
        return Failure(step.error);
      }
      a := step.value;
    }
    assert lines[|lines|..] == [];
    return Success(a);
  }

  /** One trimmed doc line of parseFunction's loop: the annotation it records, or the
      error that ends the loop. */
  method ReadLine(a: Annotations, line: string) returns (r: Result<Annotations, FunctionError>)
    ensures r == ApplyFunctionLine(a, line)
  {
    if !HasPrefix(line, "@") {
      return Success(a);
    }
    var parts := Fields(line);
    if |parts| < 1 {
      return Success(a);
    }
    var next := a;
    if parts[0] == "@Command" {
      if |parts| < 2 {
        return Failure(MissingCommandName);
      }
      next := a.(command := parts[1]);
    } else if parts[0] == "@Description" {
      next := a.(description := TrimSpace(TrimPrefix(line, "@Description")));
    } else if parts[0] == "@Parameter" {
      if |parts| < 3 {
        return Failure(InvalidParameter);
      }
      var isOptional := false;
      var paramDescParts := parts[3..];
      if |paramDescParts| > 0 && EqualFoldAscii(paramDescParts[0], "optional") {
        isOptional := true;
        paramDescParts := paramDescParts[1..];
      }
      var param := APIParameter(parts[1], parts[2], Join(paramDescParts, " "), !isOptional);
      assert param == ParameterOf(parts[1..]) by {
        ParameterOfArgs(parts[1..]);
        assert parts[1..][2..] == parts[3..];
      }
      next := a.(parameters := a.parameters + [param]);
    } else if parts[0] == "@Result" {
      next := a.(resultLines := a.resultLines + [line]);
    } else if parts[0] == "@Error" {
      if |parts| < 3 {
        return Failure(InvalidError);
      }
      var errorCode := Atoi(parts[1]);
      if errorCode.None? {
        return Failure(InvalidErrorCode);
      }
      assert parts[1..][1..] == parts[2..];
      next := a.(errors := a.errors + [APIError(errorCode.value, Join(parts[2..], " "))]);
    }
    return Success(next);
  }

  /** The @Result check of parseFunction: at most one line, with a type and a
      description after the tag. */
  method ProcessResults(resultLines: seq<string>) returns (r: Result<seq<APIReturn>, FunctionError>)
    ensures r == ResultsOf(resultLines)
  {
    if |resultLines| > 1 {
      return Failure(MultipleResults);
    }
    if |resultLines| == 0 {
      return Success([]);
    }
    var line := TrimSpace(resultLines[0]);
    var parts := Fields(line);
    if |parts| < 3 {
      return Failure(MalformedResult);
    }
    var resultType := parts[1];
    var result := APIReturn("result", resultType, Join(parts[2..], " "), true);
    return Success([result]);
  }

  /** The checks parseFunction makes after the loop: at most one well-formed @Result
      line, whose type names the struct to look up, then a command and a description. */
  method CheckAnnotations(a: Annotations, currentPackage: string,
                          importAliases: map<string, string>, known: set<StructKey>)
    returns (r: Result<APIFunction, FunctionError>, lookup: Option<StructKey>)
    ensures Parsed(r, lookup) == Finish(a, currentPackage, importAliases, known)
  {
    var results := ProcessResults(a.resultLines);
    if results.Failure? {
      return Failure(results.error), None;
    }
    lookup := None;
    if |results.value| == 1 {
      var structKey := Parser.StructKeyOf(results.value[0].typ, currentPackage);
      if structKey.Some? && structKey.value !in known {
        lookup := structKey;
      }
    }
    if a.command == [] {
      return Failure(MissingCommand), lookup;
    }
    if a.description == [] {
      return Failure(MissingDescription), lookup;
    }
    r := Success(APIFunction(a.command, a.description, a.parameters, results.value, a.errors,
                             currentPackage, importAliases));
  }

  /** parseFunction, without the struct lookup itself: the function or the first error,
      and the key of the struct to look up. */
  method ParseFunction(doc: Option<CommentGroup>, currentPackage: string,
                       importAliases: map<string, string>, known: set<StructKey>)
    returns (r: Result<APIFunction, FunctionError>, lookup: Option<StructKey>)
    ensures Parsed(r, lookup) == FunctionAnnotations(CommentText(doc), currentPackage, importAliases, known)
  {
    var collected := CollectAnnotations(Lines(CommentText(doc)));
    if collected.Failure? {
      return Failure(collected.error), None;
    }
    r, lookup := CheckAnnotations(collected.value, currentPackage, importAliases, known);
  }

  // ---------------------------------------------------------------------------
  // One annotation line

  /** A trimmed line that starts with '@' and whose fields are tag and then args. */
  predicate Annotated(line: string, tag: string, args: seq<string>) {
    HasPrefix(line, "@") && Fields(line) == [tag] + args
  }

  lemma PartsOf(line: string, tag: string, args: seq<string>)
    requires Annotated(line, tag, args)
    ensures Fields(line) != [] && Fields(line)[0] == tag && Fields(line)[1..] == args
  {
    assert ([tag] + args)[1..] == args;
  }

  /** @Command takes the first word after the tag as the command and ignores the rest;
      without one it fails. */
  lemma CommandAnnotation(a: Annotations, line: string, args: seq<string>)
    requires Annotated(line, "@Command", args)
    ensures ApplyFunctionLine(a, line) ==
      if args == [] then Failure(MissingCommandName) else Success(a.(command := args[0]))
  {
    PartsOf(line, "@Command", args);
  }

  /** @Parameter needs a name and a type; a third word "optional" in any case makes the
      parameter optional and is not part of the description, which is the remaining
      words joined by single spaces. */
  lemma ParameterAnnotation(a: Annotations, line: string, args: seq<string>)
    requires Annotated(line, "@Parameter", args)
    ensures |args| < 2 ==> ApplyFunctionLine(a, line) == Failure(InvalidParameter)
    ensures |args| >= 2 ==>
      var optional := |args| > 2 && EqualFoldAscii(args[2], "optional");
      ApplyFunctionLine(a, line) == Success(a.(parameters := a.parameters +
        [APIParameter(args[0], args[1], Join(args[if optional then 3 else 2..], " "), !optional)]))
  {
    PartsOf(line, "@Parameter", args);
    if |args| >= 2 {
      ParameterOfArgs(args);
    }
  }

  lemma ParameterOfArgs(args: seq<string>)
    requires |args| >= 2
    ensures var optional := |args| > 2 && EqualFoldAscii(args[2], "optional");
      ParameterOf(args) == APIParameter(args[0], args[1], Join(args[if optional then 3 else 2..], " "), !optional)
  {
    if |args| > 2 {
      assert args[2..][0] == args[2];
      assert args[2..][1..] == args[3..];
    }
  }

  /** @Result lines are kept whole, to be checked after the loop. */
  lemma ResultAnnotation(a: Annotations, line: string, args: seq<string>)
    requires Annotated(line, "@Result", args)
    ensures ApplyFunctionLine(a, line) == Success(a.(resultLines := a.resultLines + [line]))
  {
    PartsOf(line, "@Result", args);
  }

  /** @Error needs a code and a description; the code must be a 64-bit integer, and the
      description is the remaining words joined by single spaces. */
  lemma ErrorAnnotation(a: Annotations, line: string, args: seq<string>)
    requires Annotated(line, "@Error", args)
    ensures |args| < 2 ==> ApplyFunctionLine(a, line) == Failure(InvalidError)
    ensures |args| >= 2 && Atoi(args[0]).None? ==> ApplyFunctionLine(a, line) == Failure(InvalidErrorCode)
    ensures |args| >= 2 && Atoi(args[0]).Some? ==>
      ApplyFunctionLine(a, line) ==
        Success(a.(errors := a.errors + [APIError(Atoi(args[0]).value, Join(args[1..], " "))]))
  {
    PartsOf(line, "@Error", args);
  }

  /** Any other annotation changes nothing. */
  lemma OtherAnnotation(a: Annotations, line: string, tag: string, args: seq<string>)
    requires Annotated(line, tag, args) && !IsFunctionTag(tag)
    ensures ApplyFunctionLine(a, line) == Success(a)
  {
    PartsOf(line, tag, args);
  }

  lemma DescriptionOf(a: Annotations, line: string, args: seq<string>)
    requires Annotated(line, "@Description", args)
    ensures ApplyFunctionLine(a, line) == Success(a.(description := TrimSpace(TrimPrefix(line, "@Description"))))
  {
    PartsOf(line, "@Description", args);
  }

  /** An annotation, a blank and any text: the fields are the annotation and the words
      of the text, and what follows the annotation is the blank and the text. */
  lemma TaggedLine(tag: string, rest: string)
    requires ParserTags.IsAnnotation(tag)
    ensures Annotated(tag + " " + rest, tag, Fields(rest))
    ensures TrimPrefix(tag + " " + rest, tag) == " " + rest
  {
    FieldsWordThenSpace(tag, rest);
    AppendAssoc(tag, " ", rest);
    HasPrefixAppend(tag, " " + rest, "@");
    TrimPrefixOfConcat(tag, " " + rest);
  }

  /** A lone annotation: its only field is itself. */
  lemma LoneTag(tag: string)
    requires ParserTags.IsAnnotation(tag)
    ensures Annotated(tag, tag, []) && TrimPrefix(tag, tag) == []
  {
    FieldsOfWord(tag);
    AppendNil([tag]);
  }

  /** @Description takes everything after the tag, trimmed; a lone @Description sets
      the description to the empty text. */
  lemma DescriptionAnnotation(a: Annotations, d: string)
    ensures ApplyFunctionLine(a, "@Description" + " " + d) == Success(a.(description := TrimSpace(d)))
    ensures ApplyFunctionLine(a, "@Description") == Success(a.(description := []))
  {
    DescriptionIsAnnotation();
    TaggedLine("@Description", d);
    DescriptionOf(a, "@Description" + " " + d, Fields(d));
    SpacePrefixTrimmed(d);
    LoneTag("@Description");
    DescriptionOf(a, "@Description", []);
  }

  /** A line that does not start with '@' after trimming is skipped. */
  lemma ProseIgnored(a: Annotations, l: string, rest: seq<string>)
    requires !HasPrefix(TrimSpace(l), "@")
    ensures ScanFunction(a, [l] + rest) == ScanFunction(a, rest)
  {
    ScanCons(a, l, rest);
  }

  lemma ScanCons(a: Annotations, l: string, rest: seq<string>)
    ensures var step := ApplyFunctionLine(a, TrimSpace(l));
      ScanFunction(a, [l] + rest) == if step.Failure? then step else ScanFunction(step.value, rest)
  {
    assert ([l] + rest)[1..] == rest;
  }

  lemma CommandIsAnnotation()
    ensures ParserTags.IsAnnotation("@Command")
  {
  }

  lemma DescriptionIsAnnotation()
    ensures ParserTags.IsAnnotation("@Description")
  {
  }

  lemma ParameterIsAnnotation()
    ensures ParserTags.IsAnnotation("@Parameter")
  {
  }

  lemma ResultIsAnnotation()
    ensures ParserTags.IsAnnotation("@Result")
  {
  }

  lemma ErrorIsAnnotation()
    ensures ParserTags.IsAnnotation("@Error")
  {
  }

  lemma LowerCommandIsAnnotation()
    ensures ParserTags.IsAnnotation("@command") && !IsFunctionTag("@command")
  {
  }

  /** The function annotations are matched with their case: "@command" is not one. */
  lemma LowerCaseCommandIgnored(a: Annotations, name: string)
    ensures ApplyFunctionLine(a, "@command" + " " + name) == Success(a)
  {
    LowerCommandIsAnnotation();
    TaggedLine("@command", name);
    OtherAnnotation(a, "@command" + " " + name, "@command", Fields(name));
  }

  // ---------------------------------------------------------------------------
  // Writing a function's annotations as a doc comment and reading them back

  predicate IsWord(w: string) {
    w != [] && NoSpace(w)
  }

  /** Words separated by single blanks: the form of every description the parser
      joins from fields. */
  predicate IsText(d: string) {
    Join(Fields(d), " ") == d
  }

  /** A parameter that a @Parameter line can state: one-word name and type, and a
      description that does not itself start with the word "optional". */
  predicate ParameterSpellable(p: APIParameter) {
    IsWord(p.name) && IsWord(p.typ) && IsText(p.description)
    && (p.required && Fields(p.description) != [] ==> !EqualFoldAscii(Fields(p.description)[0], "optional"))
  }

  /** A result that a @Result line can state: the parser always names it "result" and
      makes it required, and the line needs a description. */
  predicate ResultSpellable(r: APIReturn) {
    r.name == "result" && r.required && IsWord(r.typ) && r.description != [] && IsText(r.description)
  }

  predicate ErrorSpellable(e: APIError) {
    InInt64(e.code) && e.description != [] && IsText(e.description)
  }

  /** A function that a doc comment can state: a one-word command, a trimmed one-line
      description, at most one result, and parameters, results and errors that their
      lines can state. */
  predicate Spellable(f: APIFunction) {
    IsWord(f.command) && f.description != [] && Trimmed(f.description) && '\n' !in f.description
    && (forall k :: 0 <= k < |f.parameters| ==> ParameterSpellable(f.parameters[k]))
    && |f.results| <= 1
    && (forall k :: 0 <= k < |f.results| ==> ResultSpellable(f.results[k]))
    && (forall k :: 0 <= k < |f.errors| ==> ErrorSpellable(f.errors[k]))
  }

  function ParameterWords(p: APIParameter): seq<string> {
    [p.name, p.typ] + (if p.required then [] else ["optional"]) + Fields(p.description)
  }

  function CommandLine(command: string): string {
    Join(["@Command"] + [command], " ")
  }

  function DescriptionAnnotationLine(description: string): string {
    "@Description" + " " + description
  }

  function ParameterLine(p: APIParameter): string {
    Join(["@Parameter"] + ParameterWords(p), " ")
  }

  function ResultLine(r: APIReturn): string {
    Join(["@Result"] + ([r.typ] + Fields(r.description)), " ")
  }

  function ErrorLine(e: APIError): string {
    Join(["@Error"] + ([Itoa(e.code)] + Fields(e.description)), " ")
  }

  function ParameterLines(ps: seq<APIParameter>): seq<string> {
    if ps == [] then [] else [ParameterLine(ps[0])] + ParameterLines(ps[1..])
  }

  function ResultLines(rs: seq<APIReturn>): seq<string> {
    if rs == [] then [] else [ResultLine(rs[0])] + ResultLines(rs[1..])
  }

  function ErrorLines(es: seq<APIError>): seq<string> {
    if es == [] then [] else [ErrorLine(es[0])] + ErrorLines(es[1..])
  }

  /** The doc comment text of a function: its command, its description, a line per
      parameter, per result and per error. */
  function DocText(f: APIFunction): string {
    Join(DocLines(f), "\n")
  }

  function DocLines(f: APIFunction): seq<string> {
    [CommandLine(f.command), DescriptionAnnotationLine(f.description)]
      + ParameterLines(f.parameters) + ResultLines(f.results) + ErrorLines(f.errors)
  }

  /** Lines that Lines gives back unchanged and that are not empty. */
  predicate CleanLines(ls: seq<string>) {
    forall l :: l in ls ==> PlainLine(l) && l != []
  }

  lemma CleanAppend(l1: seq<string>, l2: seq<string>)
    requires CleanLines(l1) && CleanLines(l2)
    ensures CleanLines(l1 + l2)
  {
  }

  lemma {:induction false} ScanAppend(a: Annotations, l1: seq<string>, l2: seq<string>)
    ensures var first := ScanFunction(a, l1);
      ScanFunction(a, l1 + l2) == if first.Failure? then first else ScanFunction(first.value, l2)
    decreases |l1|
  {
    if l1 == [] {
      assert l1 + l2 == l2;
    } else {
      assert l1 + l2 == [l1[0]] + (l1[1..] + l2);
      ScanCons(a, l1[0], l1[1..] + l2);
      HeadTail(l1);
      ScanCons(a, l1[0], l1[1..]);
      var step := ApplyFunctionLine(a, TrimSpace(l1[0]));
      if step.Success? {
        ScanAppend(step.value, l1[1..], l2);
      }
    }
  }

  /** Words joined by single blanks form one clean line whose fields are those words. */
  lemma WordLine(ws: seq<string>)
    requires Words(ws) && ws != []
    ensures var l := Join(ws, " ");
      TrimSpace(l) == l && Fields(l) == ws && HasPrefix(l, ws[0]) && PlainLine(l) && l != []
  {
    JoinWords(ws);
    TrimSpaceOfTrimmed(Join(ws, " "));
    FieldsOfJoin(ws);
    WordLinePlain(ws);
  }

  lemma WordLinePlain(ws: seq<string>)
    requires Words(ws)
    ensures PlainLine(Join(ws, " "))
  {
    var l := Join(ws, " ");
    JoinWordsBlanks(ws);
    assert IsSpace('\n') && IsSpace('\r');
    if l != [] {
      assert l[|l| - 1] in l;
    }
  }

  /** An annotation followed by words, as one line. */
  lemma AnnotationLine(tag: string, args: seq<string>)
    requires ParserTags.IsAnnotation(tag) && Words(args)
    ensures var l := Join([tag] + args, " ");
      TrimSpace(l) == l && Annotated(l, tag, args) && PlainLine(l) && l != []
  {
    var ws := [tag] + args;
    assert Words(ws) by {
      forall k | 0 <= k < |ws| ensures ws[k] != [] && NoSpace(ws[k]) {
        if k > 0 {
          assert ws[k] == args[k - 1];
        }
      }
    }
    WordLine(ws);
    HasPrefixTrans(Join(ws, " "), tag, "@");
  }

  lemma OptionalWord()
    ensures IsWord("optional") && EqualFoldAscii("optional", "optional")
  {
  }

  lemma WordsAppend(a: seq<string>, b: seq<string>)
    requires Words(a) && Words(b)
    ensures Words(a + b)
  {
    forall k | 0 <= k < |a + b| ensures (a + b)[k] != [] && NoSpace((a + b)[k]) {
      if k >= |a| {
        assert (a + b)[k] == b[k - |a|];
      }
    }
  }

  lemma TextFields(d: string)
    requires IsText(d) && d != []
    ensures Fields(d) != [] && Words(Fields(d))
  {
  }

  lemma CommandApplies(a: Annotations, c: string)
    requires IsWord(c)
    ensures var l := CommandLine(c);
      TrimSpace(l) == l && PlainLine(l) && l != [] && ApplyFunctionLine(a, l) == Success(a.(command := c))
  {
    CommandIsAnnotation();
    AnnotationLine("@Command", [c]);
    CommandAnnotation(a, CommandLine(c), [c]);
  }

  lemma DescriptionApplies(a: Annotations, d: string)
    requires d != [] && Trimmed(d) && '\n' !in d
    ensures var l := DescriptionAnnotationLine(d);
      TrimSpace(l) == l && PlainLine(l) && l != [] && ApplyFunctionLine(a, l) == Success(a.(description := d))
  {
    var l := DescriptionAnnotationLine(d);
    DescriptionAnnotation(a, d);
    TrimSpaceOfTrimmed(d);
    DescriptionIsAnnotation();
    FirstOfPrefix("@Description", "@");
    assert l[0] == '@';
    assert l[|l| - 1] == d[|d| - 1];
    TrimSpaceOfTrimmed(l);
    assert IsSpace('\n');
    assert '\n' !in "@Description";
    NotInAppend('\n', "@Description", " ", d);
  }

  /** The positions of the words of a parameter line after the tag. */
  lemma ParameterWordsShape(name: string, typ: string, required: bool, ds: seq<string>)
    ensures var ws := [name, typ] + (if required then [] else ["optional"]) + ds;
      |ws| >= 2 && ws[0] == name && ws[1] == typ
      && (required ==> ws[2..] == ds && (ds != [] ==> |ws| > 2 && ws[2] == ds[0]))
      && (!required ==> |ws| > 2 && ws[2] == "optional" && ws[3..] == ds)
  {
    var ws := [name, typ] + (if required then [] else ["optional"]) + ds;
    if required {
      assert ws == [name, typ] + ds;
    } else {
      assert ws == [name, typ, "optional"] + ds;
    }
  }

  /** The positions of the words of a line made of a tag, one word and more words. */
  lemma TagWordShape(tag: string, x: string, ds: seq<string>)
    ensures var args := [x] + ds;
      |args| == 1 + |ds| && args[0] == x && args[1..] == ds
    ensures var parts := [tag] + ([x] + ds);
      |parts| == 2 + |ds| && parts[1] == x && parts[2..] == ds
  {
    var parts := [tag] + ([x] + ds);
    assert parts == [tag, x] + ds;
  }

  lemma ParameterLineShape(p: APIParameter)
    requires ParameterSpellable(p)
    ensures var l := ParameterLine(p);
      TrimSpace(l) == l && PlainLine(l) && l != [] && Annotated(l, "@Parameter", ParameterWords(p))
  {
    assert Words(ParameterWords(p)) by {
      var opt: seq<string> := if p.required then [] else ["optional"];
      OptionalWord();
      WordsAppend([p.name, p.typ], opt);
      WordsAppend([p.name, p.typ] + opt, Fields(p.description));
    }
    ParameterIsAnnotation();
    AnnotationLine("@Parameter", ParameterWords(p));
  }

  /** A parameter line states the parameter. */
  lemma ParameterOfWords(p: APIParameter)
    requires ParameterSpellable(p)
    ensures ParameterOf(ParameterWords(p)) == p
  {
    var ws := ParameterWords(p);
    ParameterWordsShape(p.name, p.typ, p.required, Fields(p.description));
    ParameterOfArgs(ws);
  }

  lemma ParameterAnnotationOf(a: Annotations, line: string, args: seq<string>)
    requires Annotated(line, "@Parameter", args) && |args| >= 2
    ensures ApplyFunctionLine(a, line) == Success(a.(parameters := a.parameters + [ParameterOf(args)]))
  {
    PartsOf(line, "@Parameter", args);
  }

  lemma ParameterApplies(a: Annotations, p: APIParameter)
    requires ParameterSpellable(p)
    ensures var l := ParameterLine(p);
      TrimSpace(l) == l && PlainLine(l) && l != []
      && ApplyFunctionLine(a, l) == Success(a.(parameters := a.parameters + [p]))
  {
    ParameterLineShape(p);
    ParameterWordsShape(p.name, p.typ, p.required, Fields(p.description));
    ParameterAnnotationOf(a, ParameterLine(p), ParameterWords(p));
    ParameterOfWords(p);
  }

  lemma ResultLineShape(r: APIReturn)
    requires ResultSpellable(r)
    ensures var l := ResultLine(r);
      TrimSpace(l) == l && PlainLine(l) && l != [] && Annotated(l, "@Result", [r.typ] + Fields(r.description))
      && Fields(r.description) != []
  {
    var ds := Fields(r.description);
    TextFields(r.description);
    WordsAppend([r.typ], ds);
    ResultIsAnnotation();
    AnnotationLine("@Result", [r.typ] + ds);
  }

  lemma ResultOfWords(line: string, typ: string, ds: seq<string>)
    requires TrimSpace(line) == line && Fields(line) == ["@Result"] + ([typ] + ds) && ds != []
    ensures ResultOf(line) == Success(APIReturn("result", typ, Join(ds, " "), true))
  {
    TagWordShape("@Result", typ, ds);
  }

  lemma ResultApplies(a: Annotations, r: APIReturn)
    requires ResultSpellable(r)
    ensures var l := ResultLine(r);
      TrimSpace(l) == l && PlainLine(l) && l != []
      && ApplyFunctionLine(a, l) == Success(a.(resultLines := a.resultLines + [l]))
      && ResultOf(l) == Success(r)
  {
    ResultLineShape(r);
    ResultAnnotation(a, ResultLine(r), [r.typ] + Fields(r.description));
    ResultOfWords(ResultLine(r), r.typ, Fields(r.description));
  }

  lemma ErrorLineShape(e: APIError)
    requires ErrorSpellable(e)
    ensures var l := ErrorLine(e);
      TrimSpace(l) == l && PlainLine(l) && l != [] && Annotated(l, "@Error", [Itoa(e.code)] + Fields(e.description))
      && Fields(e.description) != []
  {
    var ds := Fields(e.description);
    TextFields(e.description);
    ItoaWord(e.code);
    WordsAppend([Itoa(e.code)], ds);
    ErrorIsAnnotation();
    AnnotationLine("@Error", [Itoa(e.code)] + ds);
  }

  lemma ErrorAnnotationOf(a: Annotations, line: string, code: int, ds: seq<string>)
    requires Annotated(line, "@Error", [Itoa(code)] + ds) && ds != [] && InInt64(code)
    ensures ApplyFunctionLine(a, line) == Success(a.(errors := a.errors + [APIError(code, Join(ds, " "))]))
  {
    TagWordShape("@Error", Itoa(code), ds);
    AtoiItoa(code);
    ErrorAnnotation(a, line, [Itoa(code)] + ds);
  }

  lemma ErrorApplies(a: Annotations, e: APIError)
    requires ErrorSpellable(e)
    ensures var l := ErrorLine(e);
      TrimSpace(l) == l && PlainLine(l) && l != []
      && ApplyFunctionLine(a, l) == Success(a.(errors := a.errors + [e]))
  {
    ErrorLineShape(e);
    ErrorAnnotationOf(a, ErrorLine(e), e.code, Fields(e.description));
  }

  /** A clean line that one annotation step turns from a into b moves the scan from a to b. */
  lemma ScanStep(a: Annotations, l: string, rest: seq<string>, b: Annotations)
    requires TrimSpace(l) == l && ApplyFunctionLine(a, l) == Success(b)
    ensures ScanFunction(a, [l] + rest) == ScanFunction(b, rest)
  {
    ScanCons(a, l, rest);
  }

  /** A clean line that takes the annotations from a to b, in front of more lines. */
  lemma BlockStep(a: Annotations, l: string, ls: seq<string>, b: Annotations)
    requires TrimSpace(l) == l && PlainLine(l) && l != [] && ApplyFunctionLine(a, l) == Success(b)
    ensures ScanFunction(a, [l] + ls) == ScanFunction(b, ls)
    ensures CleanLines(ls) ==> CleanLines([l] + ls)
  {
    ScanStep(a, l, ls, b);
    CleanConsIf(l, ls);
  }

  lemma CleanConsIf(l: string, rest: seq<string>)
    requires PlainLine(l) && l != []
    ensures CleanLines(rest) ==> CleanLines([l] + rest)
  {
  }

  lemma CleanCons(l: string, rest: seq<string>)
    requires PlainLine(l) && l != [] && CleanLines(rest)
    ensures CleanLines([l] + rest)
  {
  }

  lemma ParametersTail(ps: seq<APIParameter>)
    requires ps != [] && forall k :: 0 <= k < |ps| ==> ParameterSpellable(ps[k])
    ensures forall k :: 0 <= k < |ps[1..]| ==> ParameterSpellable(ps[1..][k])
  {
    forall k | 0 <= k < |ps[1..]| ensures ParameterSpellable(ps[1..][k]) {
      assert ps[1..][k] == ps[k + 1];
    }
  }

  lemma {:induction false} ScanParameters(a: Annotations, ps: seq<APIParameter>)
    requires forall k :: 0 <= k < |ps| ==> ParameterSpellable(ps[k])
    ensures ScanFunction(a, ParameterLines(ps)) == Success(a.(parameters := a.parameters + ps))
    ensures CleanLines(ParameterLines(ps))
    decreases |ps|
  {
    if ps == [] {
      AppendNil(a.parameters);
    } else {
      var b := a.(parameters := a.parameters + [ps[0]]);
      ParameterStep(a, ps);
      ParametersTail(ps);
      ScanParameters(b, ps[1..]);
      ConsAppend(a.parameters, ps);
    }
  }

  /** The first line of the block moves the scan past its annotation. */
  lemma ParameterStep(a: Annotations, ps: seq<APIParameter>)
    requires ps != [] && ParameterSpellable(ps[0])
    ensures ScanFunction(a, ParameterLines(ps)) == ScanFunction(a.(parameters := a.parameters + [ps[0]]), ParameterLines(ps[1..]))
    ensures CleanLines(ParameterLines(ps[1..])) ==> CleanLines(ParameterLines(ps))
  {
    ParameterApplies(a, ps[0]);
    BlockStep(a, ParameterLine(ps[0]), ParameterLines(ps[1..]), a.(parameters := a.parameters + [ps[0]]));
  }

  lemma ErrorsTail(es: seq<APIError>)
    requires es != [] && forall k :: 0 <= k < |es| ==> ErrorSpellable(es[k])
    ensures forall k :: 0 <= k < |es[1..]| ==> ErrorSpellable(es[1..][k])
  {
    forall k | 0 <= k < |es[1..]| ensures ErrorSpellable(es[1..][k]) {
      assert es[1..][k] == es[k + 1];
    }
  }

  lemma {:induction false} ScanErrors(a: Annotations, es: seq<APIError>)
    requires forall k :: 0 <= k < |es| ==> ErrorSpellable(es[k])
    ensures ScanFunction(a, ErrorLines(es)) == Success(a.(errors := a.errors + es))
    ensures CleanLines(ErrorLines(es))
    decreases |es|
  {
    if es == [] {
      AppendNil(a.errors);
    } else {
      var b := a.(errors := a.errors + [es[0]]);
      ErrorStep(a, es);
      ErrorsTail(es);
      ScanErrors(b, es[1..]);
      ConsAppend(a.errors, es);
    }
  }

  /** The first line of the block moves the scan past its annotation. */
  lemma ErrorStep(a: Annotations, es: seq<APIError>)
    requires es != [] && ErrorSpellable(es[0])
    ensures ScanFunction(a, ErrorLines(es)) == ScanFunction(a.(errors := a.errors + [es[0]]), ErrorLines(es[1..]))
    ensures CleanLines(ErrorLines(es[1..])) ==> CleanLines(ErrorLines(es))
  {
    ErrorApplies(a, es[0]);
    BlockStep(a, ErrorLine(es[0]), ErrorLines(es[1..]), a.(errors := a.errors + [es[0]]));
  }

  lemma ScanOneResult(a: Annotations, r: APIReturn)
    requires ResultSpellable(r)
    ensures var l := ResultLine(r);
      ScanFunction(a, [l]) == Success(a.(resultLines := a.resultLines + [l]))
      && CleanLines([l]) && ResultsOf([l]) == Success([r])
  {
    var l := ResultLine(r);
    ResultApplies(a, r);
    AppendNil([l]);
    ScanCons(a, l, []);
  }

  lemma ScanResults(a: Annotations, rs: seq<APIReturn>)
    requires |rs| <= 1 && forall k :: 0 <= k < |rs| ==> ResultSpellable(rs[k])
    ensures ScanFunction(a, ResultLines(rs)) == Success(a.(resultLines := a.resultLines + ResultLines(rs)))
    ensures CleanLines(ResultLines(rs))
    ensures ResultsOf(ResultLines(rs)) == Success(rs)
  {
    if rs == [] {
      AppendNil(a.resultLines);
    } else {
      assert rs == [rs[0]];
      assert ResultLines(rs) == [ResultLine(rs[0])] by {
        AppendNil([ResultLine(rs[0])]);
      }
      ScanOneResult(a, rs[0]);
    }
  }

  /** The @Command and @Description lines a doc comment opens with set the command
      and the description. */
  /** Two clean lines that take the annotations from a to b and from b to c. */
  lemma ScanTwo(a: Annotations, x: string, y: string, b: Annotations, c: Annotations)
    requires TrimSpace(x) == x && ApplyFunctionLine(a, x) == Success(b)
    requires TrimSpace(y) == y && ApplyFunctionLine(b, y) == Success(c)
    requires PlainLine(x) && x != [] && PlainLine(y) && y != []
    ensures ScanFunction(a, [x, y]) == Success(c)
  {
    assert ScanFunction(b, [y]) == Success(c) by {
      AppendNil([y]);
      ScanStep(b, y, [], c);
    }
    assert ScanFunction(a, [x] + [y]) == Success(c) by {
      ScanStep(a, x, [y], b);
    }
    assert [x, y] == [x] + [y];
  }

  lemma ScanHead(f: APIFunction)
    requires Spellable(f)
    ensures var head := [CommandLine(f.command), DescriptionAnnotationLine(f.description)];
      ScanFunction(NoAnnotations, head) == Success(NoAnnotations.(command := f.command, description := f.description))
      && CleanLines(head)
  {
    var a0 := NoAnnotations;
    var a1 := a0.(command := f.command);
    var a2 := a1.(description := f.description);
    CommandApplies(a0, f.command);
    DescriptionApplies(a1, f.description);
    ScanTwo(a0, CommandLine(f.command), DescriptionAnnotationLine(f.description), a1, a2);
    CleanPair(CommandLine(f.command), DescriptionAnnotationLine(f.description));
  }

  lemma CleanPair(x: string, y: string)
    requires PlainLine(x) && x != [] && PlainLine(y) && y != []
    ensures CleanLines([x, y])
  {
  }

  /** Scanning the lines of a function's doc comment collects its annotations. */
  lemma ScanDoc(f: APIFunction)
    requires Spellable(f)
    ensures ScanFunction(NoAnnotations, DocLines(f))
      == Success(Annotations(f.command, f.description, f.parameters, f.errors, ResultLines(f.results)))
    ensures CleanLines(DocLines(f))
    ensures ResultsOf(ResultLines(f.results)) == Success(f.results)
  {
    var a0 := NoAnnotations;
    var head := [CommandLine(f.command), DescriptionAnnotationLine(f.description)];
    var ps := ParameterLines(f.parameters);
    var rs := ResultLines(f.results);
    var es := ErrorLines(f.errors);
    var a2 := a0.(command := f.command, description := f.description);
    var a3 := a2.(parameters := f.parameters);
    var a4 := a3.(resultLines := rs);
    assert ScanFunction(a0, head) == Success(a2) && CleanLines(head) by {
      ScanHead(f);
    }
    assert ScanFunction(a2, ps) == Success(a3) && CleanLines(ps) by {
      ScanParameters(a2, f.parameters);
      NilAppend(f.parameters);
    }
    assert ScanFunction(a3, rs) == Success(a4) && CleanLines(rs) && ResultsOf(rs) == Success(f.results) by {
      ScanResults(a3, f.results);
      NilAppend(rs);
    }
    assert ScanFunction(a4, es) == Success(a4.(errors := f.errors)) && CleanLines(es) by {
      ScanErrors(a4, f.errors);
      NilAppend(f.errors);
    }
    ScanAppend(a0, head, ps);
    ScanAppend(a0, head + ps, rs);
    ScanAppend(a0, head + ps + rs, es);
    CleanAppend(head, ps);
    CleanAppend(head + ps, rs);
    CleanAppend(head + ps + rs, es);
  }

  /** Line splitting gives back the lines a doc comment was written from. */
  lemma DocTextLines(f: APIFunction)
    requires CleanLines(DocLines(f))
    ensures Lines(DocText(f)) == DocLines(f)
  {
    var ls := DocLines(f);
    forall k | 0 <= k < |ls| ensures PlainLine(ls[k]) {
      assert ls[k] in ls;
    }
    assert ls[|ls| - 1] in ls;
    LinesOfJoin(ls);
  }

  /** Writing a function's annotations as a doc comment and parsing that comment gives
      the function back, with the struct of its result type to look up. */
  lemma FunctionRoundTrip(f: APIFunction, known: set<StructKey>)
    requires Spellable(f)
    ensures FunctionAnnotations(DocText(f), f.packageName, f.importAliases, known) ==
      Parsed(Success(f), if f.results == [] then None else LookupOf(f.results[0].typ, f.packageName, known))
  {
    ScanDoc(f);
    DocTextLines(f);
    var a := Annotations(f.command, f.description, f.parameters, f.errors, ResultLines(f.results));
    assert ResultsOf(a.resultLines) == Success(f.results);
    assert f.command != [] && f.description != [];
  }
}
