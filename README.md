# jdocgen core, modelled in Dafny

jdocgen reads the annotated Go sources of a JSON-RPC service and writes Markdown
documentation for it. This project models the three parts of it that hold real logic,
and proves properties of that model:

- **The type-string toolkit** (`utils/utils.go`), in module `Utils`:
  - `ParseGenericType` splits `Base[A, B[C, D]]`, and the `splitTypeArguments` loop splits only at top-level commas;
  - `ResolveType` and `SplitQualifiedName` split `pkg.Name`;
  - `IsBasicType` recognises scalar type names;
  - `ReplaceTypeParams` substitutes type parameters by position;
  - `ExtractJSONTag` finds the serialisation name;
  - `ExprToString` renders a type expression.
- **Struct reference resolution and closure** (`generator/generator.go`), in module `Generator`:
  - `resolvePackageAndType` resolves a type name to a struct key;
  - the mutually recursive `collectStructsFromType` / `collectStructsToDocument` walk gathers every struct an API function reaches. It does this through its parameter and result types, their generic arguments, and the struct fields, with a shared `visited` set.
- **The annotation and comment front end** (`parser/parser.go`), in modules `Parser`, `ParserTags` and `ParserFunction`:
  - `isBasicType`;
  - `resolveType`;
  - the struct-key rule;
  - `extractImportAliases`;
  - the `json:"..."` tag rule;
  - the two comment helpers;
  - `parseGlobalTags`, the project tags, matched case-insensitively, with three mandatory ones;
  - `parseFunction`, the `@Command/@Description/@Parameter/@Result/@Error` annotations with all their error cases.

Supporting modules:

| module | contents |
|---|---|
| `Wrappers` | `Option` and `Result` |
| `GoStrings` | the Go library functions the core calls: `strings.TrimSpace`, `Fields`, `Split`, `Join`, `Trim`, `TrimPrefix`, `TrimSuffix`, `ReplaceAll`, `ToLower`, `EqualFold`, `strconv.Atoi` and `Itoa`, and the line splitting of `bufio.Scanner` |
| `Models` | the records of `models/models.go` |
| `GoAst` | small local stand-ins for the go/ast values the core reads: type expressions, imports and comment groups |

How the Go code is rendered:

- **Loops become methods.** Every loop of the source is a `method` proved equal to a specification function. Examples: `SplitTypeArguments`, `ExtractJSONTag`, `ParseGlobalTags`, `CollectAnnotations`, `ExtractImportAliases`.
- **Specification functions carry the properties.** Lemmas state what the source promises about them: round trips, error cases and their order, and case-insensitivity.
- **The struct walk threads its sets.** It is a pair of mutually recursive methods. They take the two Go maps `structsToDocument` and `visited` as set values and return them updated. They are proved to:
  - terminate on cyclic struct graphs;
  - only grow both sets;
  - traverse each defined struct's fields at most once.

  `collectStructsToDocument` is proved to return exactly the least set of keys that holds everything the functions' types mention and is closed under "the fields of a defined struct".
- **Where the design and the code differ, the model follows the code:**
  - `ReplaceTypeParams` is modelled, but the walk never calls it.
  - The walk keys structs on the bare base name, without instantiating generics.
  - The generator looks up decorated types such as `[]User` as they are, without stripping the decoration.

## Model

| member | source | states |
|---|---|---|
| Utils.SplitTypeArguments | utils/utils.go:111-138 | the rune loop with its depth counter and builder returns exactly `TypeArguments(argsStr)`: the trimmed segments between top-level commas, plus the last segment when it is non-empty |
| Utils.TypeArgumentsCount | utils/utils.go:123-137 | the number of pieces is the number of depth-0 commas plus one when the text after the last of them is non-empty, so empty middle pieces are kept |
| Utils.TypeArgumentsShape | utils/utils.go:125-135 | every piece is whitespace-trimmed and no longer than the input |
| Utils.TypeArgumentsNonEmpty | utils/utils.go:111-138 | a non-empty argument text yields at least one piece |
| Utils.SegsCount | utils/utils.go:123-129 | the scan emits one segment per top-level comma, and one more remains in the builder |
| Utils.SegsShape | utils/utils.go:115-133 | no emitted segment and no pending text contains a top-level comma, and the pending text carries the whole bracket depth |
| Utils.ScanOfJoin | utils/utils.go:115-137 | scanning well-formed arguments joined with "," plus blanks emits exactly those arguments |
| Utils.TypeArgumentsRoundTrip | utils/utils.go:111-138 | splitting the comma-joined list of well-formed, trimmed, bracket-balanced arguments gives the list back |
| Utils.PlainArg | utils/utils.go:117-131 | a trimmed name without brackets or commas is a well-formed argument |
| Utils.NestedArg | utils/utils.go:117-129 | `Base[inner]` is a well-formed argument: its comma-free brackets balance and never go below depth 0 |
| Utils.SplitTypeArgumentsExample | utils/utils.go:109-110 | `"ReportItem, Pair[Details, Info]"` splits into exactly `["ReportItem", "Pair[Details, Info]"]` |
| Utils.ParseGenericType | utils/utils.go:97-107 | a non-generic input (no `[`, no `]`, or the last `]` at or before the first `[` plus one) comes back unchanged with no arguments, so decorated names such as `[]User` are kept whole; there are arguments exactly when the input is generic; every argument is shorter than the input |
| Utils.ParseGenericTypeOfPlain | utils/utils.go:98-102 | a type without `[` comes back unchanged with no arguments |
| Utils.ParseGenericTypeRoundTrip | utils/utils.go:97-107 | `base[a1, ..., an]` parses back to the trimmed base and exactly the arguments a1..an |
| Utils.ParseGenericTypeSingleExample | utils/utils.go:95-96 | `"Pagination[ReportItem]"` gives `("Pagination", ["ReportItem"])` |
| Utils.ParseGenericTypePairExample | parser/parser_test.go:11-25 | `"Map[string, int]"` gives `("Map", ["string", "int"])` |
| Utils.ParseGenericTypePlainExample | parser/parser_test.go:27-33 | `"NonGenericType"` gives `("NonGenericType", [])` |
| Utils.ExprToString | utils/utils.go:12-39 | only a name, a literal or an unhandled node kind renders as the empty string; `ResolveTypeOfSelector` and `ParseGenericTypeOfIndex` connect the rendering to the two type splitters |
| Utils.ParseGenericTypeOfIndex | utils/utils.go:34-35 | the rendering of `Base[Arg]` parses back to `Base` and `[Arg]` |
| Utils.IsBasicType | utils/utils.go:65-80 | the search loop answers true exactly when the name is one of the listed scalar names |
| Utils.BasicTypesDistinct | utils/utils.go:66-73 | the list holds 19 pairwise distinct names |
| Utils.ResolveType | utils/utils.go:84-93 | no dot gives `(typ, "")`; exactly one dot gives `(after, before)` with both parts dot-free; two or more dots give `("", "")` |
| Utils.ResolveTypeQualified | utils/utils.go:85-90 | `pkg.Name` resolves to `(Name, pkg)` |
| Utils.ResolveTypeOfSelector | utils/utils.go:20-21 | the rendering of a selector `pkg.Name` resolves back to `(Name, pkg)` |
| Utils.SplitQualifiedName | utils/utils.go:155-161 | exactly one dot gives `(before, after)`; otherwise `("", whole)` |
| Utils.SplitQualifiedNameRoundTrip | utils/utils.go:155-159 | `pkg.Name` splits back to `(pkg, Name)` |
| Utils.ResolveTypeVsSplitQualifiedName | utils/utils.go:84-93 | the two splitters agree, parts swapped, exactly when the input has at most one dot |
| Utils.ReplaceTypeParams | utils/utils.go:142-151 | a count mismatch returns the input unchanged; otherwise the loop applies `ReplaceAll(name_i, concrete_i)` in parameter order |
| Utils.Names | utils/utils.go:147-148 | the names of the type parameters, position by position |
| Utils.SubstituteIdentity | utils/utils.go:147-150 | replacing every parameter by its own name changes nothing |
| Utils.SubstituteAbsent | utils/utils.go:147-150 | parameters whose names do not occur leave the type unchanged |
| Utils.SubstituteExample | utils/utils.go:140-141 | `"[]T"` with T replaced by ReportItem gives `"[]ReportItem"` |
| Utils.FirstWithPrefix | utils/utils.go:48-49 | the index of the first piece with the prefix, or -1 exactly when no piece has it |
| Utils.ExtractJSONTag | utils/utils.go:43-62 | the loop returns the first comma-separated part of the first `json:` piece when that part is non-empty, and the field name otherwise |
| Utils.JSONNameShape | utils/utils.go:51-56 | the extracted name never contains a comma, nor a space when its piece has none |
| Utils.JSONTagNameShape | utils/utils.go:43-62 | the result is the field name or a non-empty name without commas or spaces |
| Utils.JSONNameOfQuoted | utils/utils.go:51-54 | for `json:"inner"` the name is the first comma-separated part of inner |
| Utils.JSONTagNameOfQuoted | utils/utils.go:43-61 | a backquoted tag with one json piece yields its first part, or the field name when that part is empty |
| Utils.JSONTagNameRoundTrip | utils/utils.go:43-62 | `` `json:"name,opts"` `` yields `name` |
| Generator.ResolvePackageAndType | generator/generator.go:256-287 | the resolved type name never contains a dot, and a name with two or more dots resolves to `("", "")` |
| Generator.ResolveQualified | generator/generator.go:257-272 | `a.N` resolves to `(importAliases[a], N)` when `a` is an alias and to `(a, N)` otherwise |
| Generator.ResolveQualifiedIgnoresContext | generator/generator.go:257-272 | a qualified name resolves the same whatever the current package and struct table |
| Generator.ResolveUnqualified | generator/generator.go:274-286 | an unqualified name resolves to `(currentPackage, N)` exactly when that key is defined, and to `("", "")` otherwise |
| Generator.ReferencedKey | generator/generator.go:206-223 | a type yields a key only with a non-empty name |
| Generator.DecoratedNotResolved | generator/generator.go:206-218 | `[]Name` is not stripped: unless the key `[]Name` itself is defined, it refers to no struct |
| Generator.QualifiedField | generator/generator.go:248-250 | a field typed `alias.Name` makes the key `(alias, Name)` a successor of its struct, because fields are resolved with an empty alias map |
| Generator.MentionsOfKey | generator/generator.go:220-234 | a type with a key mentions that key plus what its type arguments mention |
| Generator.FieldTypes | generator/generator.go:248 | the types of a struct's fields, in order |
| Generator.CollectStructsFromType | generator/generator.go:205-251 | both sets only grow; the documents gain what the type mentions and stay inside the closure; a basic or unresolvable type leaves both sets unchanged; a resolved key is documented even without a definition; each newly visited defined key has its fields traversed exactly once; the recursion terminates |
| Generator.CollectAll | generator/generator.go:191-198 | feeding a list of types in order through the shared sets gathers what each of them mentions, with the same growth guarantees |
| Generator.ParamTypes | generator/generator.go:191-192 | the parameter types of a function, in order |
| Generator.ResultTypes | generator/generator.go:196-197 | the result types of a function, in order |
| Generator.CollectStructsToDocument | generator/generator.go:182-202 | the result holds every key the parameter and result types mention, is closed under struct fields and lies inside every such closed set, so it is the least one; every expanded struct is expanded once, and exactly the documented defined keys are expanded |
| Generator.LeastClosedUnique | generator/generator.go:182-202 | two least closed sets over the same seeds are equal, so the result does not depend on the traversal order |
| Parser.BasicTypesVsUtils | parser/parser.go:376-397 | the parser's 16 scalar names are the generator's 19 without uintptr, complex64 and complex128 |
| Parser.StripDecorations | parser/parser.go:715-716 | the longest leading run of `*`, `[`, `]` is removed and nothing else |
| Parser.StripDecorationsOf | parser/parser.go:715-716 | a decoration run followed by a non-decoration text strips to that text |
| Parser.ResolveType | parser/parser.go:713-725 | after stripping, exactly one dot gives `(after, before)`, and otherwise `(stripped, "")`, multi-dot names included |
| Parser.ResolveTypeDecorated | parser/parser.go:713-722 | `*[]pkg.Name` resolves to `(Name, pkg)` |
| Parser.ResolveTypeVsUtils | parser/parser.go:718-724 | for an undecorated type, the parser's and the generator's `resolveType` agree exactly when there is at most one dot |
| Parser.StructKeyOf | parser/parser.go:519-533 | there is no key exactly when the base type is empty or a scalar; a key is never a scalar name |
| Parser.StructKeyOfQualified | parser/parser.go:523-527 | a decorated `pkg.Name` gives the key `(pkg, Name)` |
| Parser.StructKeyOfLocal | parser/parser.go:528-533 | an unqualified name gives the key in the current package |
| Parser.StructKeyOfScalar | parser/parser.go:135-142 | a decorated scalar gives no key |
| Parser.ExtractImportAliases | parser/parser.go:400-416 | the map's keys are exactly the aliases of the imports, and each alias maps to itself |
| Parser.AliasOf | parser/parser.go:403-411 | the alias is the explicit name, or else the last `/`-segment of the unquoted path |
| Parser.AliasSetMembers | parser/parser.go:402-414 | a name is a key exactly when some import has it as its alias |
| Parser.ImportAliasOfPath | parser/parser.go:407-410 | `"dir/pkg"` without a name is known as `pkg` |
| Parser.ImportAliasOfSingle | parser/parser.go:407-410 | `"pkg"` without a name is known as `pkg` |
| Parser.FirstJSONMatch | parser/parser.go:116-117 | the leftmost position where `json:"x...x"` with a non-empty quote-free capture matches, or -1 when there is none |
| Parser.JSONCapture | parser/parser.go:116-117 | a captured value is non-empty and quote-free |
| Parser.JSONCaptureOfQuoted | parser/parser.go:116-117 | `` `json:"inner"` `` captures `inner` |
| Parser.JSONName | parser/parser.go:112-121 | the name is the field name, or a non-empty name that is not `-` and holds no quote and no comma (the corrected rule) |
| Parser.JSONNameRoundTrip | parser/parser.go:112-121 | `` `json:"name,opts"` `` gives `name`, in agreement with `Utils.ExtractJSONTag` |
| Parser.JSONNameAsWritten | parser/parser.go:112-121 | the rule as written: the field name, or the whole quote-free capture |
| Parser.JSONNameAsWrittenKeepsOptions | parser/parser.go:116-119 | as written, `` `json:"id,omitempty"` `` names the field `id,omitempty`, where `Utils.ExtractJSONTag` gives `id` |
| Parser.JSONNameOfDash | parser/parser.go:118 | a `-` capture leaves the field name, both as written and corrected |
| Parser.ExtractStructDescription | parser/parser.go:560-575 | no group gives ""; otherwise the non-empty cleaned lines of the text, joined with single spaces |
| Parser.CleanCommentList | parser/parser.go:671-676 | the loop cleans each raw comment in order |
| Parser.DescriptionLine | parser/parser.go:567-569 | a cleaned line is trimmed |
| Parser.DescriptionLineOfClean | parser/parser.go:567-569 | a trimmed line that does not start with `//` is kept unchanged |
| Parser.DescriptionLinesOfClean | parser/parser.go:566-573 | clean non-empty lines are all kept, in order |
| Parser.DescriptionLinesBlank | parser/parser.go:570-572 | a blank line adds nothing to the description |
| Parser.KeepNonEmptyOfNonEmpty | parser/parser.go:570-572 | the filter keeps a list without empty entries unchanged |
| Parser.KeepNonEmpty | parser/parser.go:570-572 | the kept lines are non-empty lines of the input, and no more of them |
| Parser.ExtractFieldDescription | parser/parser.go:667-689 | the doc entries, then the comment entries, each stripped of `//`, `/*`, `*/` and blanks, joined with single spaces |
| Parser.CleanComment | parser/parser.go:672-674 | a cleaned comment is trimmed |
| Parser.CleanLineComment | parser/parser.go:672-674 | `// text` cleans to `text` |
| Parser.CleanBlockComment | parser/parser.go:672-674 | `/* text */` cleans to `text` |
| ParserTags.TagLine | parser/parser.go:582-588 | a cleaned line is trimmed |
| ParserTags.TagLineOfClean | parser/parser.go:582-588 | a trimmed `@` line with no closing marker is left as it is |
| ParserTags.Validate | parser/parser.go:652-663 | a missing title, then a missing version, then a missing description is reported, in that order and each exactly when it applies; otherwise the info is accepted unchanged |
| ParserTags.GlobalTags | parser/parser.go:578-664 | an accepted result always has a title, a version and a description |
| ParserTags.ScanTagsStep | parser/parser.go:581-650 | one loop turn: an error stops the scan, otherwise it goes on from the updated info |
| ParserTags.ParseGlobalTags | parser/parser.go:578-664 | the loop over the comment's lines returns exactly `GlobalTags` of the comment text (the text of a missing group is empty) |
| ParserTags.CleanLine | parser/parser.go:582-588 | the loop body's cleaning is `TagLine` |
| ParserTags.ReadTagLine | parser/parser.go:590-649 | the loop body's switch is `ApplyTagLine` |
| ParserTags.TagLineApplies | parser/parser.go:593-649 | `@tag v`: a valued tag without a value fails with that tag, a valued tag is set to its words joined by single spaces, and an unknown tag changes nothing, whatever the case of the tag; the lower-case `@description` sets the trimmed rest, while any other spelling of it stays in the value, which is the trimmed whole line |
| ParserTags.LoneAnnotation | parser/parser.go:600-649 | a tag alone is an error for the value tags and ignored when unknown; a lone `@description` empties the description, and any other spelling of it becomes the description itself |
| ParserTags.AnnotationCaseInsensitive | parser/parser.go:597-599 | two spellings of a tag that lower-case alike have the same effect, except for the value of `@description`; both spellings are accepted or rejected alike |
| ParserTags.DescriptionAnySpelling | parser/parser.go:610-612 | under the corrected rule `ApplyTagLineIntended`, every spelling of `@description` sets the description to the trimmed rest of the line |
| ParserTags.IntendedCaseInsensitive | parser/parser.go:597-612 | the corrected rule matches every tag, `@description` included, without regard to case |
| ParserTags.DescriptionAsWrittenKeepsAnnotation | parser/parser.go:610-612 | as written, a spelling other than `@description` stays in the value (`@Description X` sets `@Description X`), where the corrected rule sets `X` |
| ParserTags.LoneCapitalDescription | parser/parser.go:610-612 | a lone `@Description` line sets the description to `@Description`, so it satisfies the mandatory description check |
| ParserTags.CapitalDescription | parser/parser.go:610-612 | `@Description` is a spelling of `@description` that differs from it |
| ParserTags.TagsSplitAtCommas | parser/parser.go:638-643 | `@tags` stores its comma-split value, so comma-free tags joined by commas come back |
| ParserTags.RecognisedTags | parser/parser.go:600-648 | the ten recognised tags |
| ParserTags.EntryApplies | parser/parser.go:593-649 | a recognised tag with a clean value sets exactly that field |
| ParserTags.ScanEntries | parser/parser.go:581-650 | scanning the lines of well-formed entries folds them into the info in order |
| ParserTags.SpellFolds | parser/parser.go:600-648 | the entries printed for an info fold back to that info |
| ParserTags.GlobalTagsOfSpell | parser/parser.go:578-664 | parsing the printed tags of an info gives the mandatory-tag check of that info |
| ParserTags.GlobalTagsRoundTrip | parser/parser.go:578-664 | an info with title, version and description parses back from its printed tags |
| ParserTags.SetTags | parser/parser.go:642-643 | the `@tags` field is the comma split of its value |
| ParserFunction.CollectAnnotations | parser/parser.go:431-492 | the line loop returns exactly `ScanFunction` of the lines |
| ParserFunction.ReadLine | parser/parser.go:432-491 | the loop body's switch is `ApplyFunctionLine` |
| ParserFunction.ScanFunctionStep | parser/parser.go:431-492 | one loop turn: an error stops the scan, otherwise it goes on from the updated annotations |
| ParserFunction.ProcessResults | parser/parser.go:494-516 | the checks on the collected `@Result` lines are `ResultsOf` |
| ParserFunction.ResultsOfChecks | parser/parser.go:494-516 | more than one `@Result` is `ErrMultipleResults`; one with fewer than 3 fields is `ErrMalformedResult`; a result is always named `result` and required |
| ParserFunction.CheckAnnotations | parser/parser.go:494-554 | the checks after the loop are `Finish` |
| ParserFunction.FinishOrder | parser/parser.go:494-554 | the result errors come first, then a missing command, then a missing description, each exactly when it applies; success builds the function from the annotations; the struct key to look up comes from the single result's type |
| ParserFunction.LookupOfKey | parser/parser.go:519-535 | a key to look up is not yet known, has a name, and is not a scalar |
| ParserFunction.ParseFunction | parser/parser.go:423-557 | the whole annotation parse of a doc comment (empty when missing) is `FunctionAnnotations` |
| ParserFunction.FunctionAnnotationsShape | parser/parser.go:423-557 | an accepted function has a command, a description, at most one result named `result` and required, and the file's package and aliases |
| ParserFunction.CommandAnnotation | parser/parser.go:441-445 | `@Command` without a name fails; otherwise it sets the command to the first word |
| ParserFunction.DescriptionOf | parser/parser.go:446-448 | `@Description` sets the description to the trimmed rest of the line |
| ParserFunction.DescriptionAnnotation | parser/parser.go:446-448 | `@Description d` sets the trimmed d, and a lone `@Description` clears it |
| ParserFunction.ParameterAnnotation | parser/parser.go:449-469 | `@Parameter` with fewer than 2 arguments fails; otherwise it appends a parameter. A leading case-insensitive `optional` word makes the parameter optional and is dropped from the description |
| ParserFunction.ParameterOfArgs | parser/parser.go:453-468 | the parameter built from the arguments, with the `optional` rule |
| ParserFunction.ResultAnnotation | parser/parser.go:470-472 | `@Result` lines are collected unchecked |
| ParserFunction.ErrorAnnotation | parser/parser.go:473-490 | `@Error` with fewer than 2 arguments fails; a code Atoi rejects is `ErrInvalidErrorCode`; otherwise it appends the error |
| ParserFunction.OtherAnnotation | parser/parser.go:440-491 | any other tag changes nothing |
| ParserFunction.LowerCaseCommandIgnored | parser/parser.go:440-441 | tags are case-sensitive here: `@command` is ignored |
| ParserFunction.ProseIgnored | parser/parser.go:432-435 | a line not starting with `@` is skipped |
| ParserFunction.ScanAppend | parser/parser.go:431-492 | scanning two runs of lines is scanning the first and then the second, unless the first fails |
| ParserFunction.ParameterApplies | parser/parser.go:449-469 | the printed line of a parameter appends exactly that parameter |
| ParserFunction.ResultApplies | parser/parser.go:470-472 | the printed line of a result is collected and parses back to that result |
| ParserFunction.ErrorApplies | parser/parser.go:473-490 | the printed line of an error appends exactly that error |
| ParserFunction.ScanParameters | parser/parser.go:449-469 | the printed lines of parameters append them all, in order |
| ParserFunction.ScanErrors | parser/parser.go:473-490 | the printed lines of errors append them all, in order |
| ParserFunction.ScanResults | parser/parser.go:494-516 | the printed line of at most one result is collected and parses back |
| ParserFunction.ScanDoc | parser/parser.go:431-516 | the printed annotation lines of a function scan back to its annotations |
| ParserFunction.FunctionRoundTrip | parser/parser.go:423-557 | the printed doc comment of a function parses back to that function, with the key of its result's type to look up |
| GoStrings.AtoiItoa | parser/parser.go:481-484 | Atoi reads back every 64-bit numeral Itoa writes, so the printed error codes parse |

## Left out

- ParseProject and findAndParseStruct (parser/parser.go:32-373) are not part of this model. They walk the file system, call go/parser, and end their search through a sentinel error.
- The findAndParseStruct call inside parseFunction (parser/parser.go:534-544) is not modelled. `ParserFunction.ParseFunction` instead returns the struct key it would look up, which is the key of the result type when that key is not among the known ones.
- GenerateDocumentation (generator/generator.go:19-178) is not modelled because it is file output and Markdown formatting. The same goes for cmd/jdocgen/main.go, which is command-line handling.
- parser.go's own exprToString (parser/parser.go:692-709) is not modelled; only ParseProject uses it. `Utils.ExprToString` models the utils version.
- Every log.Printf diagnostic is dropped.
- The partial `apiFunc` / `projectInfo` that the Go functions return next to an error is not modelled: an error result carries only the error.
- Error messages are error constructors. `fmt.Errorf` wrapping is not modelled.
- The two regular expressions (parser/parser.go:116, 715) are written out as string functions. Their semantics: a leftmost match, and a greedy quote-free capture.
- `CommentGroup.Text` is not computed: a comment group carries its text as a field. `bufio.Scanner` is modelled as splitting lines at newlines and dropping a trailing carriage return. Scanner's 64 KiB token limit is not modelled.
- `strings.ToLower` lowers ASCII letters plus the two non-ASCII runes that lower to ASCII letters. Other runes stay as they are, so they can change only the spelling of an unrecognised tag.
- `strings.EqualFold` folds ASCII only, which is exact against the literal `optional`.
- `strings.Fields` and `TrimSpace` use Go's `unicode.IsSpace` set. There is no UTF-8 decoding, since strings are sequences of runes.
- Generator.CollectStructsFromType: Go's maps are updated in place. Here they are set values passed in and returned, so aliasing is not modelled, and the `visited` and `structsToDocument` maps of one call are the sets it returns.
- Generator.CollectStructsToDocument: the order in which keys enter the sets is not stated. The result is proved to be the least closed set, which does not depend on that order.
- The `len(parts) == 0` / `len(parts) < 1` branches (parser/parser.go:437, 594) are unreachable after the `@` prefix test. They are modelled but prove nothing new.
- Utils.ExtractJSONTag: the `break` after an empty first part is written as returning the field name, which is what the function does next.
- `ReplaceTypeParams` is modelled on its own. Nothing in the walk calls it, as in the source.

## Findings

| source | as written | input that shows it | evidently intended | confidence | as-written member | corrected member |
|---|---|---|---|---|---|---|
| parser/parser.go:116-119 | the json name is the whole `[^"]+` capture, options included | the tag `` `json:"id,omitempty"` `` names the field `id,omitempty` | the name is the part before the first comma, as `utils.ExtractJSONTag` computes | medium, not executed | Parser.JSONNameAsWrittenKeepsOptions | Parser.JSONNameRoundTrip |
| parser/parser.go:610-612 | tags match case-insensitively, but only the lower-case `@description` is removed from the line | `@Description Service API` sets the description to `@Description Service API` | the description is the rest of the line after the tag, however it is spelled | medium, not executed | ParserTags.DescriptionAsWrittenKeepsAnnotation | ParserTags.DescriptionAnySpelling |
