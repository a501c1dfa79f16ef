/** Worked examples: the component registered in
    `component_imported_templateComponent.ts`, template lookups through
    imports and variables, and a binding completion on a typed line. */
module ComponentExamples {
  import opened Wrappers
  import opened Strings
  import opened Syntax
  import opened Records
  import TemplateParsing
  import ComponentParsing
  import BindingCompletion
  import Arrays

  // ---------------------------------------------------------------------
  // The imported-template component
  // ---------------------------------------------------------------------

  /** `import template from './template.html';` */
  const TemplateImport: Node := ImportDeclaration(StringLiteral("./template.html"))

  /** `bindings: { data: '<' }` */
  const DataBinding: ObjectProperty := PropertyAssignment("data", StringLiteral("<"))
  const BindingsProperty: ObjectProperty := PropertyAssignment("bindings", ObjectLiteral([DataBinding]))
  const TemplateProperty: ObjectProperty := PropertyAssignment("template", Identifier("template"))
  const ControllerProperty: ObjectProperty := PropertyAssignment("controller", Identifier("theController"))

  /** The `comp` object: `{ template: template, bindings: {...}, controller: theController }`. */
  const CompObject: Node := ObjectLiteral([TemplateProperty, BindingsProperty, ControllerProperty])

  /** The template finder's view of `comp`: each field's value expression. */
  const CompTemplateConfig: TemplateParsing.Config :=
    map["template" := Identifier("template"), "bindings" := ObjectLiteral([DataBinding]),
        "controller" := Identifier("theController")]

  /** The component finder's view of `comp`: each field's property assignment. */
  const CompFields: map<string, ObjectProperty> :=
    map["template" := TemplateProperty, "bindings" := BindingsProperty, "controller" := ControllerProperty]

  /** `angular.module('moduleName').component('componentNameImported', comp)` */
  const Registration: Node :=
    Call(PropertyAccess(Call(PropertyAccess(Identifier("angular"), "module"), [StringLiteral("moduleName")]), "component"),
         [StringLiteral("componentNameImported"), Identifier("comp")])

  /** The import's specifier mentions `.html`. */
  lemma TemplateImportIsHtml()
    ensures TemplateParsing.IsHtmlImport(TemplateImport)
  {
    var text := Text(StringLiteral("./template.html"));
    assert text[11..16] == ".html";
    IncludesAt(text, ".html", 11);
  }

  /** Through the template finder, the `template` identifier resolves to the
      imported file next to the component's file. */
  lemma ImportedTemplateResolved(env: TemplateParsing.TemplateEnv)
    requires |env.statements| > 0 && env.statements[0] == TemplateImport
    requires env.stringValue(StringLiteral("./template.html")) == Some("./template.html")
    ensures TemplateParsing.CreateTemplate(env, CompTemplateConfig)
         == Done(Some(TemplateParsing.SiblingFile(env, "./template.html")))
  {
    TemplateImportIsHtml();
    assert TemplateParsing.HtmlImport(env.statements) == Some(TemplateImport);
    assert "templateUrl" !in CompTemplateConfig;
  }

  /** `data` has no upper-case letter, so its attribute name is itself. */
  lemma DataHtmlName()
    ensures Decamelize("data", '-') == "data"
  {
    DecamelizeCamelName("data", '-');
    assert SimpleKebab("", '-') == "";
    assert SimpleKebab("a", '-') == "a";
    assert SimpleKebab("ta", '-') == "ta";
    assert SimpleKebab("ata", '-') == "ata";
  }

  /** Through the component finder, whose own template rules know no
      identifiers, the same component has no template; its one binding is
      `data` of type `<`, its alias the default `$ctrl`, and its controller
      the first one declared as `theController`. */
  lemma ImportedComponent(env: ComponentParsing.ComponentEnv, theController: Controller)
    requires env.stringValue(StringLiteral("componentNameImported")) == Some("componentNameImported")
    requires env.translate(Some(CompObject)) == Done(CompFields)
    requires theController.className == "theController"
    ensures ComponentParsing.CreateComponent(env, [theController], StringLiteral("componentNameImported"), Some(CompObject))
         == Done(Some(Component("componentNameImported", [Binding("data", Some("<"), "data")], None, Some("$ctrl"), Some(theController))))
  {
    DataHtmlName();
    assert "templateUrl" !in CompFields && "controllerAs" !in CompFields;
    assert ComponentParsing.Field(CompFields, "bindings") == Some(BindingsProperty);
    assert ComponentParsing.CreateBinding(DataBinding) == Binding("data", Some("<"), "data");
    var bindings := ComponentParsing.BindingsOf(Some(BindingsProperty));
    assert BindingsProperty.initializer.properties == [DataBinding];
    assert bindings.Done? && |bindings.value| == 1 && bindings.value[0] == Binding("data", Some("<"), "data");
    assert bindings.value == [Binding("data", Some("<"), "data")];
  }

  /** The registration call appends that component to the results and is
      not walked into. */
  lemma ImportedComponentRegistered(env: ComponentParsing.ComponentEnv, theController: Controller, scan: ComponentParsing.Scan)
    requires env.stringValue(StringLiteral("componentNameImported")) == Some("componentNameImported")
    requires env.objectLiteralOf(scan.identifiers, Identifier("comp")) == Some(CompObject)
    requires env.translate(Some(CompObject)) == Done(CompFields)
    requires theController.className == "theController"
    ensures ComponentParsing.Walk(env, [theController], Registration, scan)
         == Done(scan.(results := scan.results
              + [Component("componentNameImported", [Binding("data", Some("<"), "data")], None, Some("$ctrl"), Some(theController))]))
  {
    ImportedComponent(env, theController);
  }

  /** A component name without a string value registers nothing. */
  lemma UnnamedComponentIgnored(env: ComponentParsing.ComponentEnv, controllers: seq<Controller>, name: Node, scan: ComponentParsing.Scan)
    requires !Truthy(env.stringValue(name))
    ensures ComponentParsing.Walk(env, controllers, Call(PropertyAccess(Identifier("app"), "component"), [name, CompObject]), scan)
         == Done(scan)
  {
  }

  // ---------------------------------------------------------------------
  // Template lookups through variables
  // ---------------------------------------------------------------------

  function Declare(name: string, init: Node): VariableDeclaration
  {
    VariableDeclaration(name, Some(init))
  }

  /** `const t = t;` recurses until the stack is exhausted. */
  lemma SelfReferenceOverflows(env: TemplateParsing.TemplateEnv)
    requires env.statements == [VariableStatement([Declare("t", Identifier("t"))])]
    ensures TemplateParsing.InlineTemplate(env, Some(Identifier("t")), {}) == Threw(RangeError)
  {
    assert TemplateParsing.HtmlImport(env.statements).None?;
    assert TemplateParsing.DeclarationNamed(env.statements, "t") == Done(Some(Declare("t", Identifier("t"))));
    assert {} + {"t"} == {"t"};
  }

  const ChainedStatements: seq<Node> :=
    [VariableStatement([Declare("a", Identifier("b")), Declare("b", Call(Identifier("require"), [StringLiteral("./x.html")]))])]

  /** The file has no import, and its one variable statement declares `a`
      and then `b`. */
  lemma ChainedLookups(statements: seq<Node>)
    requires statements == ChainedStatements
    ensures TemplateParsing.HtmlImport(statements).None?
    ensures TemplateParsing.DeclarationNamed(statements, "a") == Done(Some(Declare("a", Identifier("b"))))
    ensures TemplateParsing.DeclarationNamed(statements, "b")
         == Done(Some(Declare("b", Call(Identifier("require"), [StringLiteral("./x.html")]))))
  {
  }

  /** `const a = b, b = require('./x.html');`: `a` resolves through `b`. */
  lemma ChainedDeclarations(env: TemplateParsing.TemplateEnv)
    requires env.statements == ChainedStatements
    ensures TemplateParsing.InlineTemplate(env, Some(Identifier("a")), {})
         == Done(Some(TemplateParsing.SiblingFile(env, "./x.html")))
  {
    var call := Call(Identifier("require"), [StringLiteral("./x.html")]);
    ChainedLookups(env.statements);
    TemplateParsing.IdentifierFollowsDeclaration(env, "a", Declare("a", Identifier("b")), {});
    assert {} + {"a"} == {"a"};
    TemplateParsing.IdentifierFollowsDeclaration(env, "b", Declare("b", call), {"a"});
    assert TemplateParsing.IsImportCall(call);
    assert TemplateParsing.InlineTemplate(env, Some(call), {"a"} + {"b"}) == Done(Some(TemplateParsing.SiblingFile(env, "./x.html")));
  }

  /** Only the first variable statement is searched: a name declared in the
      second one is a read of `undefined`. */
  lemma SecondStatementNotSearched(env: TemplateParsing.TemplateEnv)
    requires env.statements == [VariableStatement([Declare("x", StringLiteral("1"))]),
                                VariableStatement([Declare("t", StringLiteral("<p></p>"))])]
    ensures TemplateParsing.InlineTemplate(env, Some(Identifier("t")), {}) == Threw(TypeError)
  {
    assert TemplateParsing.HtmlImport(env.statements).None?;
    assert TemplateParsing.FirstVariableStatement(env.statements) == Some(env.statements[0]);
  }

  // ---------------------------------------------------------------------
  // A binding completion
  // ---------------------------------------------------------------------

  /** The commas of `ab,x=,` and the name before the first. */
  lemma ExampleLine()
    ensures BindingCompletion.NameStart("ab,x=,") == 0
    ensures IndexOfFrom("ab,x=,", ',', 0) == 2 && LastIndexOf("ab,x=,", ',') == 5
    ensures Substring("ab,x=,", 0, 2) == "ab"
    ensures BindingCompletion.WrittenSegments("ab,x=,", 2, 5) == ["x="]
  {
    var line := "ab,x=,";
    assert IndexOf(line, ',') == 2;
    assert BindingCompletion.RunStart(line, 2) == 0;
    assert Substring(line, 3, 5) == "x=";
    assert IndexOf("x=", ',') == -1;
  }

  /** `x=` is the attribute `x` with an empty value. */
  lemma ExampleSegment()
    ensures Split("x=", '=') == ["x", ""]
  {
    assert IndexOf("x=", '=') == 1;
    assert "x="[2..] == "" && "x="[..1] == "x";
    assert IndexOf("", '=') == -1;
  }

  /** The segment `x=` of a component whose binding `x` has the attribute
      `x` fills in `$ctrl.x`. */
  lemma ExampleAttributes(component: Component)
    requires component.controllerAs == Some("$ctrl")
    requires component.bindings == [Binding("x", Some("<"), "x"), Binding("y", Some("@"), "y")]
    ensures BindingCompletion.Collected(component, ["x="]) == [BindingCompletion.Attribute("x", "$ctrl.x")]
  {
    ExampleSegment();
    assert BindingCompletion.SegmentKey("x=") == "x";
    assert BindingCompletion.SegmentValue(component, "x=") == "$ctrl.x";
    assert ["x="][..0] == [];
  }

  /** With `x` written, the items are `y`'s and the tag item. */
  lemma ExampleItems(component: Component, position: BindingCompletion.Position)
    requires component.bindings == [Binding("x", Some("<"), "x"), Binding("y", Some("@"), "y")]
    ensures var attributes := [BindingCompletion.Attribute("x", "$ctrl.x")];
      BindingCompletion.BindingCompletions(component, attributes, position, 0)
        == [BindingCompletion.BindingItem(component.bindings[1]), BindingCompletion.CommandItem(component, attributes, position, 0)]
  {
    var attributes := [BindingCompletion.Attribute("x", "$ctrl.x")];
    assert BindingCompletion.Keys(attributes) == ["x"];
    assert BindingCompletion.Unused(component, attributes) == [component.bindings[1]];
  }

  /** On the line `ab,x=,` for a component `ab` with bindings `x` and `y`,
      only `y` is offered, and the tag item fills `x` from the alias. */
  lemma CompletionExample(component: Component, position: BindingCompletion.Position)
    requires component.HtmlName() == "ab" && component.controllerAs == Some("$ctrl")
    requires component.bindings == [Binding("x", Some("<"), "x"), Binding("y", Some("@"), "y")]
    ensures BindingCompletion.CompletionItems(Some([component]), "ab,x=,", position)
         == Done([BindingCompletion.BindingItem(component.bindings[1]),
                  BindingCompletion.CommandItem(component, [BindingCompletion.Attribute("x", "$ctrl.x")], position, 0)])
  {
    ExampleLine();
    ExampleAttributes(component);
    ExampleItems(component, position);
    assert Arrays.Find([component], (c: Component) => c.HtmlName() == "ab") == Some(component);
  }
}
