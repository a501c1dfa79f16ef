/** Template resolution for a component configuration: a `templateUrl`, an
    inline `template` (a literal, an `import`/`require` call, an identifier
    bound to an `.html` import or to a variable), or the `component`
    shorthand that renders the named component's tag. */
module TemplateParsing {
  import opened Wrappers
  import opened Strings
  import opened Arrays
  import opened Syntax
  import opened Records

  /** What template resolution reads from the file being analysed and from
      the path helpers: the file's path and top-level statements, the
      string value of an expression (`getStringValueFromNode`), `path.join`,
      `path.dirname`, and the conversion of a workspace-relative path to an
      absolute one (`RelativePath.toAbsolute`). */
  datatype TemplateEnv = TemplateEnv(
    path: string,
    statements: seq<Node>,
    stringValue: Node -> Option<string>,
    join: (string, string) -> string,
    dirname: string -> string,
    toAbsolute: string -> string)

  /** A component configuration: the value expression of each field present. */
  type Config = map<string, Node>

  /** `config.get(key)`: the field's value expression, `undefined` when absent. */
  function Get(config: Config, key: string): (r: Option<Node>)
    ensures r.Some? <==> key in config
    ensures r.Some? ==> r.value == config[key]
  {
    if key in config then Some(config[key]) else None
  }

  /** A template read from a file next to the analysed one. */
  function SiblingFile(env: TemplateEnv, relative: string): Template
  {
    Template(env.join(env.dirname(env.path), relative), FileStart, None)
  }

  /** The shapes an inline template can take: a literal of the analysed
      file, at the literal and with a body, or a file next to the analysed
      one, at its top and without a body. */
  ghost predicate InlineShape(env: TemplateEnv, t: Template)
  {
    (t.pos == LiteralStart && t.path == env.path && t.body.Some?)
    || (exists relative :: t == SiblingFile(env, relative))
  }

  // ---------------------------------------------------------------------
  // templateUrl
  // ---------------------------------------------------------------------

  /** `createTemplateFromUrl`: a template at the top of the file the URL
      names, when the URL has a non-empty string value; otherwise
      `undefined`, so that resolution goes on to the next source. */
  function UrlTemplate(env: TemplateEnv, node: Option<Node>): (r: Option<Template>)
    ensures r.Some? <==> node.Some? && Truthy(env.stringValue(node.value))
    ensures r.Some? ==>
      r.value == Template(env.toAbsolute(env.stringValue(node.value).value), FileStart, None)
  {
    if node.None? then None
    else
      var relative := env.stringValue(node.value);
      if Truthy(relative) then Some(Template(env.toAbsolute(relative.value), FileStart, None))
      else None
  }

  // ---------------------------------------------------------------------
  // Inline templates
  // ---------------------------------------------------------------------

  /** `import('./t.html')` or `require('./t.html')`: one argument, and a
      callee that is the `import` keyword or an identifier spelled
      `import` or `require`. */
  predicate IsImportCall(node: Node)
  {
    node.Call? && |node.arguments| == 1
    && (node.callee.Identifier? || node.callee.ImportKeyword?)
    && (Text(node.callee) == "import" || Text(node.callee) == "require")
  }

  /** An import declaration whose module specifier mentions `.html`. */
  predicate IsHtmlImport(statement: Node)
  {
    statement.ImportDeclaration? && Includes(Text(statement.moduleSpecifier), ".html")
  }

  /** The first `.html` import of the file, whatever name it binds (the
      import declarations filtered out of the statements, then searched). */
  function HtmlImport(statements: seq<Node>): (r: Option<Node>)
    ensures r.Some? ==> r.value in statements && IsHtmlImport(r.value)
    ensures r.Some? ==> exists i :: 0 <= i < |statements| && statements[i] == r.value
                          && forall j :: 0 <= j < i ==> !IsHtmlImport(statements[j])
    ensures r.None? ==> forall i :: 0 <= i < |statements| ==> !IsHtmlImport(statements[i])
  {
    Find(statements, IsHtmlImport)
  }

  /** The first variable statement of the file: the only one searched. */
  function FirstVariableStatement(statements: seq<Node>): (r: Option<Node>)
    ensures r.Some? ==> r.value.VariableStatement?
    ensures r.Some? <==> exists i :: 0 <= i < |statements| && statements[i].VariableStatement?
  {
    Find(statements, (s: Node) => s.VariableStatement?)
  }

  /** The names the first variable statement declares. */
  function DeclaredNames(statements: seq<Node>): set<string>
  {
    var first := FirstVariableStatement(statements);
    if first.None? then {}
    else set d | d in first.value.declarations :: d.name
  }

  /** The first declarator of the first variable statement named `name`. */
  function DeclarationNamed(statements: seq<Node>, name: string): (r: Outcome<Option<VariableDeclaration>>)
    ensures r.Threw? <==> FirstVariableStatement(statements).None?
    ensures r.Done? && r.value.Some? ==> r.value.value.name == name && name in DeclaredNames(statements)
    ensures r.Done? && r.value.None? ==> name !in DeclaredNames(statements)
  {
    var first := FirstVariableStatement(statements);
    if first.None? then Threw(TypeError)
    else
      var found := Find(first.value.declarations, (d: VariableDeclaration) => d.name == name);
      if found.None? then
        assert forall d :: d in first.value.declarations ==> d.name != name;
        Done(None)
      else Done(found)
  }

  /** The string value of the file's first `.html` import, `undefined`
      without one. */
  function HtmlImportPath(env: TemplateEnv): (r: Option<string>)
    ensures HtmlImport(env.statements).None? ==> r.None?
    ensures HtmlImport(env.statements).Some? ==> r == env.stringValue(HtmlImport(env.statements).value.moduleSpecifier)
  {
    var htmlImport := HtmlImport(env.statements);
    if htmlImport.Some? then env.stringValue(htmlImport.value.moduleSpecifier) else None
  }

  lemma VisitedShrinks(names: set<string>, visited: set<string>, name: string)
    requires name in names && name !in visited
    ensures |names - (visited + {name})| < |names - visited|
  {
    assert names - (visited + {name}) == (names - visited) - {name};
  }

  /** `createFromInlineTemplate`. A string literal or a template literal is
      the template itself. An `import`/`require` call names a file next to
      the analysed one; an argument without text makes `path.join` throw.
      An identifier is resolved through the file's first `.html` import
      when it has a string value, and otherwise through its declarator in
      the file's first variable statement, whose initializer is resolved in
      turn: a file without a variable statement, or a name it does not
      declare, is a read of `undefined` (a `TypeError`), and a name met a
      second time recurses forever (a `RangeError`). `visited` holds the
      names already chased. Every other kind gives `undefined`. */
  function InlineTemplate(env: TemplateEnv, node: Option<Node>, visited: set<string>): (r: Outcome<Option<Template>>)
    ensures r.Done? && r.value.Some? ==> InlineShape(env, r.value.value)
    ensures r.Threw? ==> node.Some? && (node.value.Identifier? || node.value.Call?)
    ensures node.None? ==> r == Done(None)
    ensures node.Some? && IsStringLike(node.value) ==>
      r == Done(Some(Template(env.path, LiteralStart, TextOf(node.value))))
    ensures node.Some? && IsImportCall(node.value) ==>
      var relative := TextOf(node.value.arguments[0]);
      (relative.None? ==> r == Threw(TypeError))
      && (relative.Some? ==> r == Done(Some(SiblingFile(env, relative.value))))
    ensures node.Some? && node.value.Call? && !IsImportCall(node.value) ==> r == Done(None)
    ensures node.Some? && !IsStringLike(node.value) && !node.value.Call? && !node.value.Identifier? ==> r == Done(None)
    ensures node.Some? && node.value.Identifier? && Truthy(HtmlImportPath(env)) ==>
      r == Done(Some(SiblingFile(env, HtmlImportPath(env).value)))
    ensures node.Some? && node.value.Identifier? && !Truthy(HtmlImportPath(env)) ==>
      var declaration := DeclarationNamed(env.statements, node.value.text);
      (declaration.Threw? || declaration.value.None? ==> r == Threw(TypeError))
    decreases |DeclaredNames(env.statements) - visited|
  {
    if node.None? then Done(None)
    else
      var n := node.value;
      if IsStringLike(n) then Done(Some(Template(env.path, LiteralStart, TextOf(n))))
      else if n.Call? then
        if IsImportCall(n) then
          var relative := TextOf(n.arguments[0]);
          if relative.None? then Threw(TypeError)
          else Done(Some(SiblingFile(env, relative.value)))
        else Done(None)
      else if n.Identifier? then
        var relative := HtmlImportPath(env);
        if Truthy(relative) then Done(Some(SiblingFile(env, relative.value)))
        else
          var declaration := DeclarationNamed(env.statements, n.text);
          if declaration.Threw? || declaration.value.None? then Threw(TypeError)
          else if n.text in visited then Threw(RangeError)
          else
            VisitedShrinks(DeclaredNames(env.statements), visited, n.text);
            InlineTemplate(env, declaration.value.value.initializer, visited + {n.text})
      else Done(None)
  }

  /** An identifier resolves to whatever its declarator's initializer
      resolves to, when no `.html` import supplies a non-empty path (there is
      none, or its string value is empty or `undefined`) and the name has not
      been chased yet; a name chased before recurses forever. */
  lemma IdentifierFollowsDeclaration(env: TemplateEnv, x: string, d: VariableDeclaration, visited: set<string>)
    requires !Truthy(HtmlImportPath(env))
    requires DeclarationNamed(env.statements, x) == Done(Some(d))
    ensures x !in visited ==>
      InlineTemplate(env, Some(Identifier(x)), visited) == InlineTemplate(env, d.initializer, visited + {x})
    ensures x in visited ==> InlineTemplate(env, Some(Identifier(x)), visited) == Threw(RangeError)
  {
  }

  /** Which names were chased matters only for identifiers. */
  lemma VisitedOnlyMattersForIdentifiers(env: TemplateEnv, node: Node, v1: set<string>, v2: set<string>)
    requires !node.Identifier?
    ensures InlineTemplate(env, Some(node), v1) == InlineTemplate(env, Some(node), v2)
  {
  }

  /** With an `.html` import that has a string value, every identifier,
      whatever its name, resolves to that file. */
  lemma HtmlImportWins(env: TemplateEnv, x: string, visited: set<string>)
    requires HtmlImport(env.statements).Some?
    requires Truthy(env.stringValue(HtmlImport(env.statements).value.moduleSpecifier))
    ensures InlineTemplate(env, Some(Identifier(x)), visited)
         == Done(Some(SiblingFile(env, env.stringValue(HtmlImport(env.statements).value.moduleSpecifier).value)))
  {
  }

  // ---------------------------------------------------------------------
  // The component shorthand
  // ---------------------------------------------------------------------

  /** The node after `createFromComponentDef` has overwritten a literal's
      text with the open/close tag pair of the kebab-cased name. Only a
      literal's text is read afterwards, so other kinds are left as they are. */
  function AsComponentTag(node: Node): (r: Node)
    ensures IsStringLike(node) ==> IsStringLike(r) && TextOf(r) == Some(TagPair(KebabCase(node.text)))
    ensures !IsStringLike(node) ==> r == node
  {
    if node.StringLiteral? then StringLiteral(TagPair(KebabCase(node.text)))
    else if node.TemplateLiteral? then TemplateLiteral(TagPair(KebabCase(node.text)))
    else node
  }

  /** `<k></k>`: an open tag and its closing tag, never self-closing. */
  function TagPair(k: string): string
  {
    "<" + k + "></" + k + ">"
  }

  /** `createFromComponentDef`: `undefined` without a `component` field. An
      identifier exposes `text` only through a getter, so writing the tag
      pair to it throws a `TypeError` in strict-mode code. Any other value
      gives the inline template of the rewritten node. */
  function ComponentDefTemplate(env: TemplateEnv, node: Option<Node>): (r: Outcome<Option<Template>>)
    ensures node.None? ==> r == Done(None)
    ensures node.Some? && node.value.Identifier? ==> r == Threw(TypeError)
    ensures node.Some? && IsStringLike(node.value) ==>
      r == Done(Some(Template(env.path, LiteralStart, Some(TagPair(KebabCase(TextOf(node.value).value))))))
    ensures node.Some? && !IsStringLike(node.value) && !node.value.Identifier? ==> r == InlineTemplate(env, node, {})
  {
    if node.None? then Done(None)
    else if node.value.Identifier? then Threw(TypeError)
    else InlineTemplate(env, Some(AsComponentTag(node.value)), {})
  }

  /** For a camel-case component name of ASCII letters the tag pair is built
      from the reference kebab form: `someValue` gives
      `<some-value></some-value>`. */
  lemma ComponentTagOfCamelName(name: string)
    requires IsLetterCamelName(name)
    ensures TagPair(KebabCase(name)) == "<" + SimpleKebab(name, '-') + "></" + SimpleKebab(name, '-') + ">"
  {
    DecamelizeCamelName(name, '-');
  }

  // ---------------------------------------------------------------------
  // The fallback chain
  // ---------------------------------------------------------------------

  /** `a || b`: the first template that is not `undefined`; an error in the
      first operand stops the chain. */
  function OrElse(first: Outcome<Option<Template>>, second: Outcome<Option<Template>>): Outcome<Option<Template>>
  {
    if first.Done? && first.value.None? then second else first
  }

  /** `createTemplate`: `templateUrl`, then `template`, then `component`. */
  function CreateTemplate(env: TemplateEnv, config: Config): (r: Outcome<Option<Template>>)
    ensures UrlTemplate(env, Get(config, "templateUrl")).Some? ==>
      r == Done(UrlTemplate(env, Get(config, "templateUrl")))
    ensures r.Done? && r.value.Some? && r.value.value.pos == LiteralStart ==>
      r.value.value.path == env.path && r.value.value.body.Some?
  {
    OrElse(Done(UrlTemplate(env, Get(config, "templateUrl"))),
      OrElse(InlineTemplate(env, Get(config, "template"), {}),
        ComponentDefTemplate(env, Get(config, "component"))))
  }

  /** A resolvable `templateUrl` decides the template: the other fields are
      not consulted. */
  lemma UrlFirst(env: TemplateEnv, c1: Config, c2: Config)
    requires Get(c1, "templateUrl") == Get(c2, "templateUrl")
    requires UrlTemplate(env, Get(c1, "templateUrl")).Some?
    ensures CreateTemplate(env, c1) == CreateTemplate(env, c2)
  {
  }

  /** Without a URL template, an inline template that resolves (or throws)
      decides the outcome and `component` is not consulted. */
  lemma InlineBeforeComponent(env: TemplateEnv, c1: Config, c2: Config)
    requires Get(c1, "templateUrl") == Get(c2, "templateUrl") && Get(c1, "template") == Get(c2, "template")
    requires UrlTemplate(env, Get(c1, "templateUrl")).None?
    requires InlineTemplate(env, Get(c1, "template"), {}) != Done(None)
    ensures CreateTemplate(env, c1) == CreateTemplate(env, c2) == InlineTemplate(env, Get(c1, "template"), {})
  {
  }

  /** The shorthand is used exactly when neither other source gives a template. */
  lemma ComponentLast(env: TemplateEnv, config: Config)
    requires UrlTemplate(env, Get(config, "templateUrl")).None?
    requires InlineTemplate(env, Get(config, "template"), {}) == Done(None)
    ensures CreateTemplate(env, config) == ComponentDefTemplate(env, Get(config, "component"))
  {
  }
}
