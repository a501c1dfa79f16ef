/** The syntax tree the analyser inspects: the node kinds its rules test
    (declarations, class elements, heritage clauses, calls, property access,
    binary expressions, variable statements, literals and identifiers), with
    every other kind folded into `Other`. Source positions are not kept. */
module Syntax {
  import opened Wrappers
  import opened Strings

  /** A parameter: its name, its type annotation's text, and whether it
      carries a modifier (`public`, `private`, `readonly`, ...). */
  datatype Param = Param(name: string, annotation: Option<string>, hasModifiers: bool)

  /** One declarator of a variable statement. */
  datatype VariableDeclaration = VariableDeclaration(name: string, initializer: Option<Node>)

  datatype HeritageToken = Extends | Implements

  /** One type of a heritage clause: its expression and the text of its
      type arguments (`<T>`, or empty). */
  datatype TypeReference = TypeReference(expression: Node, typeArguments: string)

  datatype HeritageClause = HeritageClause(token: HeritageToken, types: seq<TypeReference>)

  /** A function-like body: absent (an overload signature, a `declare`d
      function) or a block of statements. */
  datatype Body = NoBody | Body(statements: seq<Node>)

  /** A property of an object literal; `name` is the key's source text. */
  datatype ObjectProperty = PropertyAssignment(name: string, initializer: Node)

  /** Function and class declarations may be anonymous (`export default`),
      so their identifiers are optional. */
  datatype Node =
    | Identifier(text: string)
    | ThisKeyword
    | ImportKeyword
    | StringLiteral(text: string)
    | TemplateLiteral(text: string)          // a template literal without substitutions
    | NumericLiteral(text: string)
    | PropertyAccess(expression: Node, name: string)
    | ElementAccess(expression: Node, argument: Node)
    | Call(callee: Node, arguments: seq<Node>)
    | Binary(left: Node, operator: string, right: Node)
    | ArrowFunction(parameters: seq<Param>, returnType: Option<string>, arrowBody: Node)
    | FunctionExpression(parameters: seq<Param>, returnType: Option<string>, statements: seq<Node>)
    | ObjectLiteral(properties: seq<ObjectProperty>)
    | Block(statements: seq<Node>)
    | ExpressionStatement(expression: Node)
    | VariableStatement(declarations: seq<VariableDeclaration>)
    | FunctionDeclaration(id: Option<string>, parameters: seq<Param>, returnType: Option<string>, body: Body)
    | ClassDeclaration(id: Option<string>, heritageClauses: seq<HeritageClause>, members: seq<Node>)
    | MethodDeclaration(name: string, parameters: seq<Param>, returnType: Option<string>, body: Body)
    | GetAccessor(name: string, returnType: Option<string>, body: Body)
    | PropertyDeclaration(name: string, annotation: Option<string>, initializer: Option<Node>)
    | Constructor(parameters: seq<Param>, body: Body)
    | ImportDeclaration(moduleSpecifier: Node)
    | SourceFile(statements: seq<Node>)
    | Other(source: string, children: seq<Node>)

  /** A node's `.text` property: defined on identifiers and literals only. */
  function TextOf(n: Node): Option<string>
  {
    match n
    case Identifier(t) => Some(t)
    case StringLiteral(t) => Some(t)
    case TemplateLiteral(t) => Some(t)
    case NumericLiteral(t) => Some(t)
    case _ => None
  }

  predicate IsStringLike(n: Node)
  {
    n.StringLiteral? || n.TemplateLiteral?
  }

  /** A node's source text (`getText()`), rebuilt for the expression kinds
      whose text the analyser compares; declarations, statements, function
      bodies and object literals render as their `Other` text or as empty. */
  function Text(n: Node): string
  {
    match n
    case Identifier(t) => t
    case ThisKeyword => "this"
    case ImportKeyword => "import"
    case StringLiteral(t) => "'" + t + "'"
    case TemplateLiteral(t) => "`" + t + "`"
    case NumericLiteral(t) => t
    case PropertyAccess(e, name) => Text(e) + "." + name
    case ElementAccess(e, a) => Text(e) + "[" + Text(a) + "]"
    case Call(c, args) => Text(c) + "(" + TextList(args) + ")"
    case Binary(l, op, r) => Text(l) + " " + op + " " + Text(r)
    case Other(source, _) => source
    case _ => ""
  }

  function TextList(ns: seq<Node>): string
  {
    if ns == [] then ""
    else if |ns| == 1 then Text(ns[0])
    else Text(ns[0]) + ", " + TextList(ns[1..])
  }

  /** The text of one heritage type, as `t.getText()` gives it. */
  function TypeText(t: TypeReference): string
  {
    Text(t.expression) + t.typeArguments
  }

  function DeclarationInitializers(ds: seq<VariableDeclaration>): (r: seq<Node>)
    ensures forall c :: c in r ==> exists i :: 0 <= i < |ds| && ds[i].initializer == Some(c)
  {
    if ds == [] then []
    else (if ds[0].initializer.Some? then [ds[0].initializer.value] else []) + DeclarationInitializers(ds[1..])
  }

  function HeritageExpressions(hs: seq<HeritageClause>): (r: seq<Node>)
    ensures forall c :: c in r ==> exists i, j :: 0 <= i < |hs| && 0 <= j < |hs[i].types| && hs[i].types[j].expression == c
  {
    if hs == [] then []
    else
      var first := seq(|hs[0].types|, j requires 0 <= j < |hs[0].types| => hs[0].types[j].expression);
      first + HeritageExpressions(hs[1..])
  }

  function PropertyInitializers(ps: seq<ObjectProperty>): (r: seq<Node>)
    ensures |r| == |ps|
    ensures forall i :: 0 <= i < |ps| ==> r[i] == ps[i].initializer
  {
    seq(|ps|, i requires 0 <= i < |ps| => ps[i].initializer)
  }

  function BodyStatements(b: Body): seq<Node>
  {
    if b.Body? then b.statements else []
  }

  function OptionList(o: Option<Node>): seq<Node>
  {
    if o.Some? then [o.value] else []
  }

  /** The node's child nodes in source order (`getChildren()`), restricted to
      nodes: names held as strings, tokens and type annotations are not nodes. */
  function Children(n: Node): (r: seq<Node>)
    ensures forall c :: c in r ==> c < n
  {
    match n
    case PropertyAccess(e, _) => [e]
    case ElementAccess(e, a) => [e, a]
    case Call(c, args) => [c] + args
    case Binary(l, _, r) => [l, r]
    case ArrowFunction(_, _, body) => [body]
    case FunctionExpression(_, _, stmts) => stmts
    case ObjectLiteral(ps) => PropertyInitializers(ps)
    case Block(stmts) => stmts
    case ExpressionStatement(e) => [e]
    case VariableStatement(ds) => DeclarationInitializers(ds)
    case FunctionDeclaration(_, _, _, body) => BodyStatements(body)
    case ClassDeclaration(_, hs, members) =>
      HeritageExpressions(hs) + members
    case MethodDeclaration(_, _, _, body) => BodyStatements(body)
    case GetAccessor(_, _, body) => BodyStatements(body)
    case PropertyDeclaration(_, _, init) => OptionList(init)
    case Constructor(_, body) => BodyStatements(body)
    case ImportDeclaration(spec) => [spec]
    case SourceFile(stmts) => stmts
    case Other(_, cs) => cs
    case _ => []
  }
}
