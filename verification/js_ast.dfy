/** The part of an esprima parse tree that the JavaScript analyser looks at
    (analyseJs.py). esprima itself is not modelled: a parsed file is given as a
    `Program` value. Attributes esprima nodes lack read as `None`, so the name of
    a non-identifier and the value of a non-literal are `None` here too. */
module JsAst {
  import opened Common

  /** `loc.start` of a node */
  datatype Pos = Pos(line: nat, column: nat)

  /** `VariableDeclaration.kind` */
  datatype DeclKind = Var | Let | Const

  datatype FunctionForm = FunctionDeclaration | FunctionExpression | ArrowFunctionExpression

  /** A node, with its fields in esprima's attribute order. Every node type the
      analyser does not single out is an `Other` node whose fields are either a
      single sub-node or a list of sub-nodes; scalar fields play no part. */
  datatype Node =
    | Identifier(at: Pos, name: string)
    | Literal(at: Pos, value: string)
    | VariableDeclaration(at: Pos, kind: DeclKind, declarations: seq<Declarator>)
    | ExpressionStatement(at: Pos, expression: Node, directive: Option<string>)
    | AssignmentExpression(at: Pos, left: Node, right: Node)
    | BlockStatement(at: Pos, statements: seq<Node>)
    | Function(at: Pos, form: FunctionForm, id: Option<Node>, params: seq<Node>, body: Node)
    | Other(at: Pos, nodeType: string, fields: seq<Field>)

  datatype Declarator = Declarator(at: Pos, id: Node, init: Option<Node>)

  datatype Field = Child(node: Node) | Children(nodes: seq<Node>)

  /** An entry of `Program.tokens` */
  datatype Token = Token(tokenType: string, value: string, at: Pos)

  /** `Program` as returned by `esprima.parseModule`, with `body` its top-level
      statements and `tokens` the token list the parser was asked for. */
  datatype Program = Program(sourceType: string, body: seq<Node>, tokens: seq<Token>)

  /** `node.type` */
  function TypeName(n: Node): string {
    match n
    case Identifier(_, _) => "Identifier"
    case Literal(_, _) => "Literal"
    case VariableDeclaration(_, _, _) => "VariableDeclaration"
    case ExpressionStatement(_, _, _) => "ExpressionStatement"
    case AssignmentExpression(_, _, _) => "AssignmentExpression"
    case BlockStatement(_, _) => "BlockStatement"
    case Function(_, form, _, _, _) =>
      (match form
       case FunctionDeclaration => "FunctionDeclaration"
       case FunctionExpression => "FunctionExpression"
       case ArrowFunctionExpression => "ArrowFunctionExpression")
    case Other(_, t, _) => t
  }

  /** `node.name`: present on identifiers only. */
  function NameOf(n: Node): (r: Option<string>)
    ensures r.Some? <==> n.Identifier?
  {
    if n.Identifier? then Some(n.name) else None
  }

  /** `node.value`: present on literals only. */
  function LiteralValue(n: Node): (r: Option<string>)
    ensures r.Some? <==> n.Literal?
  {
    if n.Literal? then Some(n.value) else None
  }

  /** `node.directive`: present on directive prologue statements only. */
  function DirectiveOf(n: Node): Option<string> {
    if n.ExpressionStatement? then n.directive else None
  }

  predicate IsExportDeclaration(n: Node) {
    TypeName(n) == "ExportDeclaration" || TypeName(n) == "ExportDefaultDeclaration"
  }

  /** The fix applied after parsing (analyseJs.py:45-53): a file stays a module
      only when one of its top-level statements is an export declaration. */
  predicate HasExportDeclaration(body: seq<Node>) {
    exists i :: 0 <= i < |body| && IsExportDeclaration(body[i])
  }

  /** `_parseJsFile` after parsing: the loop over the top-level statements that
      decides whether `sourceType` is overwritten with 'script'. */
  method FixSourceType(p: Program) returns (q: Program)
    ensures q.body == p.body && q.tokens == p.tokens
    ensures HasExportDeclaration(p.body) ==> q.sourceType == p.sourceType
    ensures !HasExportDeclaration(p.body) ==> q.sourceType == "script"
  {
    var isModule := false;
    var i := 0;
    while i < |p.body|
      invariant 0 <= i <= |p.body|
      invariant !isModule ==> forall j :: 0 <= j < i ==> !IsExportDeclaration(p.body[j])
      invariant isModule ==> HasExportDeclaration(p.body)
    {
      if IsExportDeclaration(p.body[i]) {
        isModule := true;
        break;
      }
      i := i + 1;
    }
    q := if isModule then p else p.(sourceType := "script");
  }

  /** The program as the analyser sees it after `_parseJsFile`. */
  function Fixed(p: Program): (q: Program)
    ensures q.body == p.body && q.tokens == p.tokens
    ensures q.sourceType == (if HasExportDeclaration(p.body) then p.sourceType else "script")
  {
    if HasExportDeclaration(p.body) then p else p.(sourceType := "script")
  }
}
