/** The data model of the documentation generator (models/models.go), completed with
    the members the parser and the generator use but that file does not declare:
    APIFunction.errors, packageName and importAliases, APIError, StructDefinition's
    description, and TypeParam. */
module Models {

  /** Identity of a struct: the package that declares it and its name. */
  datatype StructKey = StructKey(package: string, name: string)

  datatype APIParameter = APIParameter(name: string, typ: string, description: string, required: bool)

  datatype APIReturn = APIReturn(name: string, typ: string, description: string, required: bool)

  datatype APIError = APIError(code: int, description: string)

  /** One annotated function: its annotations plus the package and import aliases of
      the file that declares it, which the generator uses to resolve type names. */
  datatype APIFunction = APIFunction(
    command: string,
    description: string,
    parameters: seq<APIParameter>,
    results: seq<APIReturn>,
    errors: seq<APIError>,
    packageName: string,
    importAliases: map<string, string>)

  datatype StructField = StructField(name: string, typ: string, description: string, jsonName: string)

  datatype StructDefinition = StructDefinition(name: string, description: string, fields: seq<StructField>)

  datatype TypeParam = TypeParam(name: string)

  datatype ProjectInfo = ProjectInfo(
    title: string,
    version: string,
    description: string,
    author: string,
    license: string,
    contact: string,
    terms: string,
    repository: string,
    tags: seq<string>,
    copyright: string)

  /** The zero ProjectInfo that parseGlobalTags starts from. */
  const EmptyProjectInfo := ProjectInfo("", "", "", "", "", "", "", "", [], "")

  /** The struct table: every declared struct under its key. */
  type StructTable = map<StructKey, StructDefinition>
}

/** Local stand-ins for the go/ast values the core reads: type expressions, import
    declarations and comment groups. */
module GoAst {
  import opened Wrappers

  /** The expression kinds that utils' ExprToString distinguishes. The text
      of a basic literal is kept as written; OtherExpr stands for every other node. */
  datatype Expr =
    | Ident(name: string)
    | StarExpr(x: Expr)
    | ArrayType(elt: Expr)
    | SelectorExpr(x: Expr, sel: string)
    | MapType(key: Expr, value: Expr)
    | FuncType
    | InterfaceType
    | ChanType(value: Expr)
    | Ellipsis(elt: Expr)
    | BasicLit(text: string)
    | IndexExpr(x: Expr, index: Expr)
    | OtherExpr

  /** An import: the optional explicit name and the path literal, quotes included. */
  datatype ImportSpec = ImportSpec(name: Option<string>, pathValue: string)

  /** A comment group: the raw comments (markers included) and the text that the
      library's CommentGroup.Text returns for them. */
  datatype CommentGroup = CommentGroup(list: seq<string>, text: string)

  /** CommentGroup.Text, which is empty for a missing group. */
  function CommentText(cg: Option<CommentGroup>): string {
    if cg.Some? then cg.value.text else []
  }
}
