/** The component finder. It walks a source file, turns every
    `X.component(name, config)` call into a component record (bindings,
    template, controller alias, controller), and records every identifier it
    meets for the later lookup of configuration objects held in variables. */
module ComponentParsing {
  import opened Wrappers
  import opened Strings
  import opened Arrays
  import opened Syntax
  import opened Records

  /** What the component finder reads from outside the walked tree: the
      file's path, the workspace root, the string value of an expression
      (`getStringValueFromNode`), the object literal a variable holds given
      the identifiers recorded so far (`getObjectLiteralVariableValue`), the
      fields of a configuration object by name (`translateObjectLiteral`),
      `path.join` and `path.dirname`. */
  datatype ComponentEnv = ComponentEnv(
    path: string,
    workspaceRoot: string,
    stringValue: Node -> Option<string>,
    objectLiteralOf: (seq<Node>, Node) -> Option<Node>,
    translate: Option<Node> -> Outcome<map<string, ObjectProperty>>,
    join: (string, string) -> string,
    dirname: string -> string)

  /** `config[key]`: the property assignment of a field, `undefined` when absent. */
  function Field(config: map<string, ObjectProperty>, key: string): (r: Option<ObjectProperty>)
    ensures r.Some? <==> key in config
    ensures r.Some? ==> r.value == config[key]
  {
    if key in config then Some(config[key]) else None
  }

  /** `getComponentConfig`: an object literal is the configuration itself,
      an identifier names a variable holding it, anything else gives none. */
  function ComponentConfig(env: ComponentEnv, identifiers: seq<Node>, node: Node): (r: Option<Node>)
    ensures node.ObjectLiteral? ==> r == Some(node)
    ensures node.Identifier? ==> r == env.objectLiteralOf(identifiers, node)
    ensures !node.ObjectLiteral? && !node.Identifier? ==> r.None?
  {
    if node.ObjectLiteral? then Some(node)
    else if node.Identifier? then env.objectLiteralOf(identifiers, node)
    else None
  }

  // ---------------------------------------------------------------------
  // Bindings
  // ---------------------------------------------------------------------

  /** `createBinding`: the property's name, the whole text of its value as
      the binding type (no name override is parsed out of `'<myName'`),
      and the decamelized name as the attribute name. */
  function CreateBinding(p: ObjectProperty): (b: Binding)
    ensures b.name == p.name && b.typeName == TextOf(p.initializer)
    ensures b.htmlName == Decamelize(p.name, '-')
  {
    Binding(p.name, TextOf(p.initializer), Decamelize(p.name, '-'))
  }

  /** The component's bindings: one per property of the `bindings` object,
      in order; none without the field; a value that is not an object
      literal has no `properties` to map over, a `TypeError`. */
  function BindingsOf(field: Option<ObjectProperty>): (r: Outcome<seq<Binding>>)
    ensures field.None? ==> r == Done([])
    ensures r.Threw? <==> field.Some? && !field.value.initializer.ObjectLiteral?
    ensures r.Done? && field.Some? ==>
      var ps := field.value.initializer.properties;
      |r.value| == |ps| && forall i :: 0 <= i < |ps| ==> r.value[i] == CreateBinding(ps[i])
  {
    if field.None? then Done([])
    else if !field.value.initializer.ObjectLiteral? then Threw(TypeError)
    else
      var ps := field.value.initializer.properties;
      Done(seq(|ps|, i requires 0 <= i < |ps| => CreateBinding(ps[i])))
  }

  /** Attribute names are written in lower case. */
  lemma BindingHtmlNamesLowerCase(field: Option<ObjectProperty>)
    ensures var r := BindingsOf(field);
      r.Done? ==> forall i, j :: 0 <= i < |r.value| && 0 <= j < |r.value[i].htmlName| ==> !IsUpper(r.value[i].htmlName[j])
  {
  }

  // ---------------------------------------------------------------------
  // Template
  // ---------------------------------------------------------------------

  /** `createTemplateFromUrl`: the workspace file the `templateUrl` names,
      when its value is a non-empty string; `undefined` otherwise. */
  function UrlTemplate(env: ComponentEnv, field: Option<ObjectProperty>): (r: Option<Template>)
    ensures r.Some? <==> field.Some? && Truthy(env.stringValue(field.value.initializer))
    ensures r.Some? ==>
      r.value == Template(env.join(env.workspaceRoot, env.stringValue(field.value.initializer).value), FileStart, None)
  {
    if field.None? then None
    else
      var value := env.stringValue(field.value.initializer);
      if Truthy(value) then Some(Template(env.join(env.workspaceRoot, value.value), FileStart, None)) else None
  }

  /** `require('./t.html')`: one argument and an identifier callee spelled `require`. */
  predicate IsRequireCall(node: Node)
  {
    node.Call? && |node.arguments| == 1 && node.callee.Identifier? && Text(node.callee) == "require"
  }

  /** `createTemplate`: a string or template literal is the template, read
      from the analysed file with the literal's text as body; a `require`
      call names a file next to the analysed one (an argument without text
      makes `path.join` throw); every other value, an identifier included,
      gives `undefined`. */
  function InlineTemplate(env: ComponentEnv, field: Option<ObjectProperty>): (r: Outcome<Option<Template>>)
    ensures field.None? ==> r == Done(None)
    ensures field.Some? && IsStringLike(field.value.initializer) ==>
      r == Done(Some(Template(env.path, LiteralStart, TextOf(field.value.initializer))))
    ensures field.Some? && IsRequireCall(field.value.initializer) ==>
      var argument := TextOf(field.value.initializer.arguments[0]);
      (argument.None? ==> r == Threw(TypeError))
      && (argument.Some? ==> r == Done(Some(Template(env.join(env.dirname(env.path), argument.value), FileStart, None))))
    ensures field.Some? && !IsStringLike(field.value.initializer) && !IsRequireCall(field.value.initializer) ==>
      r == Done(None)
  {
    if field.None? then Done(None)
    else
      var init := field.value.initializer;
      if IsStringLike(init) then Done(Some(Template(env.path, LiteralStart, TextOf(init))))
      else if init.Call? then
        if IsRequireCall(init) then
          var relative := TextOf(init.arguments[0]);
          if relative.None? then Threw(TypeError)
          else Done(Some(Template(env.join(env.dirname(env.path), relative.value), FileStart, None)))
        else Done(None)
      else Done(None)
  }

  /** The component's template: the URL's when there is one, else the inline one. */
  function TemplateOf(env: ComponentEnv, config: map<string, ObjectProperty>): (r: Outcome<Option<Template>>)
    ensures UrlTemplate(env, Field(config, "templateUrl")).Some? ==>
      r == Done(UrlTemplate(env, Field(config, "templateUrl")))
    ensures UrlTemplate(env, Field(config, "templateUrl")).None? ==>
      r == InlineTemplate(env, Field(config, "template"))
  {
    var url := UrlTemplate(env, Field(config, "templateUrl"));
    if url.Some? then Done(url) else InlineTemplate(env, Field(config, "template"))
  }

  /** A URL template ignores the `template` field altogether. */
  lemma UrlTemplateFirst(env: ComponentEnv, c1: map<string, ObjectProperty>, c2: map<string, ObjectProperty>)
    requires Field(c1, "templateUrl") == Field(c2, "templateUrl")
    requires UrlTemplate(env, Field(c1, "templateUrl")).Some?
    ensures TemplateOf(env, c1) == TemplateOf(env, c2)
  {
  }

  // ---------------------------------------------------------------------
  // Controller alias and controller
  // ---------------------------------------------------------------------

  /** `createControllerAlias`: `$ctrl` when the field is absent, otherwise
      the text of its value (`undefined` for a value without text). */
  function ControllerAlias(field: Option<ObjectProperty>): (r: Option<string>)
    ensures field.None? ==> r == Some("$ctrl")
    ensures field.Some? ==> r == TextOf(field.value.initializer)
  {
    if field.None? then Some("$ctrl") else TextOf(field.value.initializer)
  }

  /** `createController`: a string names the controller by its registered
      name, an identifier by its class name; the first match wins, and any
      other value links nothing. */
  function ControllerFor(controllers: seq<Controller>, field: Option<ObjectProperty>): (r: Option<Controller>)
    ensures r.Some? ==> field.Some? && r.value in controllers
    ensures field.Some? && field.value.initializer.StringLiteral? ==>
      r == Find(controllers, (c: Controller) => c.name == Some(field.value.initializer.text))
    ensures field.Some? && field.value.initializer.Identifier? ==>
      r == Find(controllers, (c: Controller) => c.className == field.value.initializer.text)
    ensures field.Some? && !field.value.initializer.StringLiteral? && !field.value.initializer.Identifier? ==> r.None?
  {
    if field.None? then None
    else
      var init := field.value.initializer;
      if init.StringLiteral? then Find(controllers, (c: Controller) => c.name == Some(init.text))
      else if init.Identifier? then Find(controllers, (c: Controller) => c.className == init.text)
      else None
  }

  /** A string value links a controller exactly when one is registered under
      that name, and then the first such. */
  lemma ControllerByName(controllers: seq<Controller>, p: ObjectProperty, t: string)
    requires p.initializer == StringLiteral(t)
    ensures var r := ControllerFor(controllers, Some(p));
      (r.Some? <==> exists i :: 0 <= i < |controllers| && controllers[i].name == Some(t))
      && (r.Some? ==> exists i :: 0 <= i < |controllers| && controllers[i] == r.value && r.value.name == Some(t)
                        && forall j :: 0 <= j < i ==> controllers[j].name != Some(t))
  {
    var r := ControllerFor(controllers, Some(p));
    if r.Some? {
      var i :| 0 <= i < |controllers| && controllers[i] == r.value && controllers[i].name == Some(t)
               && forall k :: 0 <= k < i ==> controllers[k].name != Some(t);
    }
  }

  /** An identifier value links a controller exactly when one is declared
      under that class name, and then the first such. */
  lemma ControllerByClassName(controllers: seq<Controller>, p: ObjectProperty, t: string)
    requires p.initializer == Identifier(t)
    ensures var r := ControllerFor(controllers, Some(p));
      (r.Some? <==> exists i :: 0 <= i < |controllers| && controllers[i].className == t)
      && (r.Some? ==> exists i :: 0 <= i < |controllers| && controllers[i] == r.value && r.value.className == t
                        && forall j :: 0 <= j < i ==> controllers[j].className != t)
  {
    var r := ControllerFor(controllers, Some(p));
    if r.Some? {
      var i :| 0 <= i < |controllers| && controllers[i] == r.value && controllers[i].className == t
               && forall k :: 0 <= k < i ==> controllers[k].className != t;
    }
  }

  // ---------------------------------------------------------------------
  // The component
  // ---------------------------------------------------------------------

  /** `createComponent`: no component unless the name has a non-empty string
      value; otherwise the component built from the configuration's fields.
      The controller is looked up only when there are controllers to link. */
  function CreateComponent(env: ComponentEnv, controllers: seq<Controller>, nameNode: Node, configObj: Option<Node>): (r: Outcome<Option<Component>>)
    ensures !Truthy(env.stringValue(nameNode)) ==> r == Done(None)
    ensures Truthy(env.stringValue(nameNode)) ==>
      (env.translate(configObj).Threw? ==> r == Threw(env.translate(configObj).error))
      && (r.Done? ==> r.value.Some?)
    ensures r.Done? && r.value.Some? ==> Truthy(env.stringValue(nameNode)) && r.value.value.name == env.stringValue(nameNode).value
    ensures Truthy(env.stringValue(nameNode)) && env.translate(configObj).Done? ==>
      var config := env.translate(configObj).value;
      r.Threw? <==> BindingsOf(Field(config, "bindings")).Threw? || TemplateOf(env, config).Threw?
    ensures r.Done? && r.value.Some? ==>
      env.translate(configObj).Done? &&
      var c := r.value.value;
      var config := env.translate(configObj).value;
      c.bindings == BindingsOf(Field(config, "bindings")).value
      && c.template == TemplateOf(env, config).value
      && c.controllerAs == ControllerAlias(Field(config, "controllerAs"))
      && (controllers == [] ==> c.controller.None?)
      && (controllers != [] ==> c.controller == ControllerFor(controllers, Field(config, "controller")))
  {
    var name := env.stringValue(nameNode);
    if !Truthy(name) then Done(None)
    else
      var translated := env.translate(configObj);
      if translated.Threw? then Threw(translated.error)
      else
        var config := translated.value;
        var bindings := BindingsOf(Field(config, "bindings"));
        if bindings.Threw? then Threw(bindings.error)
        else
          var template := TemplateOf(env, config);
          if template.Threw? then Threw(template.error)
          else
            var controller := if |controllers| > 0 then ControllerFor(controllers, Field(config, "controller")) else None;
            Done(Some(Component(name.value, bindings.value, template.value,
                                ControllerAlias(Field(config, "controllerAs")), controller)))
  }

  // ---------------------------------------------------------------------
  // The walk
  // ---------------------------------------------------------------------

  /** `X.component(name, config)`: a call of a member named `component`
      with exactly two arguments. */
  predicate IsComponentRegistration(node: Node)
  {
    node.Call? && node.callee.PropertyAccess? && node.callee.name == "component" && |node.arguments| == 2
  }

  /** What the walk has gathered: the components, and the identifiers handed
      to the file's parser. */
  datatype Scan = Scan(results: seq<Component>, identifiers: seq<Node>)

  /** `parseChildren`: a registration adds its component and is not walked
      into; an identifier is recorded; every other node, other calls
      included, has its children walked in order. */
  function Walk(env: ComponentEnv, controllers: seq<Controller>, node: Node, scan: Scan): Outcome<Scan>
    decreases node, 1
  {
    if IsComponentRegistration(node) then
      var config := ComponentConfig(env, scan.identifiers, node.arguments[1]);
      var component := CreateComponent(env, controllers, node.arguments[0], config);
      if component.Threw? then Threw(component.error)
      else if component.value.None? then Done(scan)
      else Done(scan.(results := scan.results + [component.value.value]))
    else if node.Identifier? then
      Done(scan.(identifiers := scan.identifiers + [node]))
    else
      WalkSeq(env, controllers, Children(node), node, scan)
  }

  /** `getChildren().forEach(parseChildren)`: the first error ends the walk. */
  function WalkSeq(env: ComponentEnv, controllers: seq<Controller>, siblings: seq<Node>, parent: Node, scan: Scan): Outcome<Scan>
    requires forall c :: c in siblings ==> c < parent
    decreases parent, 0, |siblings|
  {
    if siblings == [] then Done(scan)
    else
      assert siblings[0] in siblings;
      var first := Walk(env, controllers, siblings[0], scan);
      if first.Threw? then first
      else
        assert forall c :: c in siblings[1..] ==> c in siblings;
        WalkSeq(env, controllers, siblings[1..], parent, first.value)
  }

  /** A registration whose component is built is appended to the results,
      and nothing else changes; one whose name has no non-empty string value
      leaves the scan as it is. */
  lemma WalkRegistration(env: ComponentEnv, controllers: seq<Controller>, node: Node, scan: Scan)
    requires IsComponentRegistration(node)
    ensures var component := CreateComponent(env, controllers, node.arguments[0],
                                             ComponentConfig(env, scan.identifiers, node.arguments[1]));
      (component == Done(None) ==> Walk(env, controllers, node, scan) == Done(scan))
      && (component.Done? && component.value.Some? ==>
            Walk(env, controllers, node, scan) == Done(scan.(results := scan.results + [component.value.value])))
      && (component.Threw? ==> Walk(env, controllers, node, scan) == Threw(component.error))
  {
  }

  /** What a walk keeps: earlier components and identifiers stay as they
      were, and every new component has a non-empty name. */
  predicate Keeps(before: Scan, after: Scan)
  {
    before.results <= after.results
    && before.identifiers <= after.identifiers
    && forall i :: |before.results| <= i < |after.results| ==> after.results[i].name != ""
  }

  lemma KeepsTransitive(a: Scan, b: Scan, c: Scan)
    requires Keeps(a, b) && Keeps(b, c)
    ensures Keeps(a, c)
  {
    forall i | |a.results| <= i < |c.results| ensures c.results[i].name != "" {
      if i < |b.results| {
        assert c.results[i] == b.results[i];
      }
    }
  }

  lemma {:induction false} WalkKeeps(env: ComponentEnv, controllers: seq<Controller>, node: Node, scan: Scan)
    ensures var r := Walk(env, controllers, node, scan); r.Done? ==> Keeps(scan, r.value)
    decreases node, 1
  {
    if !IsComponentRegistration(node) && !node.Identifier? {
      WalkSeqKeeps(env, controllers, Children(node), node, scan);
    }
  }

  lemma {:induction false} WalkSeqKeeps(env: ComponentEnv, controllers: seq<Controller>, siblings: seq<Node>, parent: Node, scan: Scan)
    requires forall c :: c in siblings ==> c < parent
    ensures var r := WalkSeq(env, controllers, siblings, parent, scan); r.Done? ==> Keeps(scan, r.value)
    decreases parent, 0, |siblings|
  {
    if siblings != [] {
      assert siblings[0] in siblings;
      WalkKeeps(env, controllers, siblings[0], scan);
      var first := Walk(env, controllers, siblings[0], scan);
      if first.Done? {
        assert forall c :: c in siblings[1..] ==> c in siblings;
        WalkSeqKeeps(env, controllers, siblings[1..], parent, first.value);
        var r := WalkSeq(env, controllers, siblings[1..], parent, first.value);
        if r.Done? {
          KeepsTransitive(scan, first.value, r.value);
        }
      }
    }
  }

  /** A registration is not walked into: it adds at most its own component
      and records none of the identifiers inside it. */
  lemma RegistrationNotDescended(env: ComponentEnv, controllers: seq<Controller>, node: Node, scan: Scan)
    requires IsComponentRegistration(node)
    ensures var r := Walk(env, controllers, node, scan);
      r.Done? ==> r.value.identifiers == scan.identifiers && |scan.results| <= |r.value.results| <= |scan.results| + 1
  {
  }

  /** The outcome of `parseChildren` as the walker object reports it. */
  function Finish(scan: Scan, thrown: Option<JsError>): Outcome<Scan>
  {
    if thrown.None? then Done(scan) else Threw(thrown.value)
  }

  class ComponentParser {
    const env: ComponentEnv
    const controllers: seq<Controller>
    var results: seq<Component>
    var identifiers: seq<Node>

    constructor(env: ComponentEnv, controllers: seq<Controller>)
      ensures this.env == env && this.controllers == controllers
      ensures results == [] && identifiers == []
    {
      this.env := env;
      this.controllers := controllers;
      results := [];
      identifiers := [];
    }

    function State(): Scan
      reads this
    {
      Scan(results, identifiers)
    }

    /** `parse`: walk the whole file and return the components found. */
    method Parse(root: Node) returns (r: Outcome<seq<Component>>)
      modifies this
      ensures var w := Walk(env, controllers, root, old(State()));
        (r.Done? <==> w.Done?) && (r.Done? ==> r.value == w.value.results == results)
      ensures r.Done? ==> Keeps(old(State()), State())
    {
      var thrown := ParseChildren(root);
      if thrown.Some? {
        return Threw(thrown.value);
      }
      r := Done(results);
      WalkKeeps(env, controllers, root, old(State()));
    }

    method ParseChildren(node: Node) returns (thrown: Option<JsError>)
      modifies this
      ensures Walk(env, controllers, node, old(State())) == Finish(State(), thrown)
      decreases node, 1
    {
      thrown := None;
      if IsComponentRegistration(node) {
        var config := ComponentConfig(env, identifiers, node.arguments[1]);
        var component := CreateComponent(env, controllers, node.arguments[0], config);
        if component.Threw? {
          return Some(component.error);
        }
        if component.value.Some? {
          results := results + [component.value.value];
        }
      } else if node.Identifier? {
        identifiers := identifiers + [node];
      } else {
        thrown := ParseSiblings(Children(node), node);
      }
    }

    method ParseSiblings(siblings: seq<Node>, parent: Node) returns (thrown: Option<JsError>)
      requires forall c :: c in siblings ==> c < parent
      modifies this
      ensures WalkSeq(env, controllers, siblings, parent, old(State())) == Finish(State(), thrown)
      decreases parent, 0
    {
      thrown := None;
      assert siblings[0..] == siblings;
      for i := 0 to |siblings|
        invariant forall c :: c in siblings[i..] ==> c in siblings
        invariant WalkSeq(env, controllers, siblings, parent, old(State()))
               == WalkSeq(env, controllers, siblings[i..], parent, State())
        invariant thrown.None?
      {
        assert siblings[i] in siblings;
        assert siblings[i..][1..] == siblings[i + 1..];
        thrown := ParseChildren(siblings[i]);
        if thrown.Some? {
          return;
        }
      }
      assert siblings[|siblings|..] == [];
    }
  }
}
