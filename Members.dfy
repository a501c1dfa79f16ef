/** Controller members: how class methods and class properties are built
    from syntax, and the completion items they offer in a template. */
module Members {
  import opened Wrappers
  import opened Strings
  import opened Syntax
  import opened Records

  /** What the type checker reports about an expression: its `TypeFlags`
      and its rendering by `typeToString`. */
  datatype CheckedType = CheckedType(flags: nat, rendering: string)

  /** The `TypeFlags` values the property builder recognises. */
  const StringFlag: nat := 4
  const NumberFlag: nat := 8
  const BooleanFlag: nat := 16

  // ---------------------------------------------------------------------
  // Methods
  // ---------------------------------------------------------------------

  /** A parameter's record: its name, and its annotation's text or `any`. */
  function CreateParameter(p: Param): (r: Parameter)
    ensures r.name == p.name
    ensures p.annotation.Some? && p.annotation.value != "" ==> r.typeName == p.annotation.value
    ensures p.annotation.None? ==> r.typeName == "any"
    ensures r.typeName != ""
  {
    Parameter(p.name, if p.annotation.Some? && p.annotation.value != "" then p.annotation.value else "any")
  }

  /** `parameters.map(createParameter)`: one record per parameter, in order. */
  function CreateParameters(ps: seq<Param>): (r: seq<Parameter>)
    ensures |r| == |ps|
    ensures forall i :: 0 <= i < |ps| ==> r[i] == CreateParameter(ps[i])
  {
    seq(|ps|, i requires 0 <= i < |ps| => CreateParameter(ps[i]))
  }

  /** `setReturnType`: an annotation replaces the current type, its absence keeps it. */
  function SetReturnType(current: Option<string>, annotation: Option<string>): Option<string>
  {
    if annotation.Some? then annotation else current
  }

  /** `isProperty`: the declaration has an initializer. */
  predicate IsProperty(node: Node)
  {
    node.PropertyDeclaration? && node.initializer.Some?
  }

  /** The class elements `ClassMethod.fromNode` is given: method declarations
      and properties initialised with an arrow function. */
  predicate IsMethodNode(node: Node)
  {
    node.MethodDeclaration?
    || (node.PropertyDeclaration? && node.initializer.Some? && node.initializer.value.ArrowFunction?)
  }

  /** `ClassMethod.fromNode`. A method declaration gives its own parameters
      and return annotation; an arrow-initialised property gives the arrow's
      parameters, and the arrow's return annotation when it has one, else
      the property's own annotation. */
  function FromNode(node: Node): (m: Member)
    requires IsMethodNode(node)
    ensures m.Kind() == Method && m.name == node.name
    ensures node.MethodDeclaration? ==>
      m.parameters == CreateParameters(node.parameters) && m.returnType == node.returnType
    ensures node.PropertyDeclaration? ==>
      var arrow := node.initializer.value;
      m.parameters == CreateParameters(arrow.parameters)
      && (arrow.returnType.Some? ==> m.returnType == arrow.returnType)
      && (arrow.returnType.None? ==> m.returnType == node.annotation)
  {
    if IsProperty(node) then
      var arrow := node.initializer.value;
      ClassMethod(node.name, CreateParameters(arrow.parameters), SetReturnType(node.annotation, arrow.returnType))
    else
      ClassMethod(node.name, CreateParameters(node.parameters), node.returnType)
  }

  /** The assignments `this.x = <right>` (or `alias.x = <right>`) the legacy
      function-controller scan turns into members. */
  predicate IsMemberAssignment(node: Node)
  {
    node.Binary? && node.left.PropertyAccess?
  }

  /** `ClassMethod.fromFNode` for `this.x = (params) => ...`: the name is the
      accessed member's, the parameters are the arrow's, and the return type
      stays `undefined` whatever the arrow declares. */
  function FromFNode(node: Node): (m: Member)
    requires IsMemberAssignment(node) && node.right.ArrowFunction?
    ensures m.Kind() == Method && m.name == node.left.name
    ensures m.parameters == CreateParameters(node.right.parameters)
    ensures m.returnType == None
  {
    ClassMethod(node.left.name, CreateParameters(node.right.parameters), None)
  }

  /** The parameters as `p1: t1, p2: t2`, in order. */
  function ParameterList(ps: seq<Parameter>): string
  {
    Join(seq(|ps|, i requires 0 <= i < |ps| => ps[i].name + ": " + ps[i].typeName), ", ")
  }

  /** The method's documentation: its signature `name(p1: t1, ...): returnType`,
      with `undefined` for a missing return type. */
  function MethodDocumentation(m: Member): (doc: string)
    requires m.ClassMethod?
    ensures StartsWith(doc, m.name + "(")
    ensures doc == m.name + "(" + ParameterList(m.parameters) + "): " + Show(m.returnType)
  {
    var prefix := m.name + "(";
    var doc := prefix + ParameterList(m.parameters) + "): " + Show(m.returnType);
    assert doc[..|prefix|] == prefix;
    doc
  }

  /** `ClassMethod.buildCompletionItem`: the base item marked as a function
      and documented with the signature; bindings play no part. */
  function MethodCompletionItem(m: Member, base: CompletionItem): (item: CompletionItem)
    requires m.ClassMethod?
    ensures item.kind == Function
    ensures item.documentation == Some(MethodDocumentation(m))
    ensures item.labelText == base.labelText && item.insertText == base.insertText
    ensures item.detail == base.detail && item.additionalTextEdits == base.additionalTextEdits
  {
    base.(kind := Function, documentation := Some(MethodDocumentation(m)))
  }

  /** A method without parameters documents as `name(): returnType`. */
  lemma MethodDocumentationNoParameters(name: string, returnType: Option<string>)
    ensures MethodDocumentation(ClassMethod(name, [], returnType)) == name + "(): " + Show(returnType)
  {
  }

  /** `testMethod(p1: string): number` documents its one parameter and its type. */
  lemma MethodDocumentationOneParameter(name: string, p: Param, returnType: string)
    requires p.annotation.Some? && p.annotation.value != ""
    ensures MethodDocumentation(ClassMethod(name, CreateParameters([p]), Some(returnType)))
         == name + "(" + p.name + ": " + p.annotation.value + "): " + returnType
  {
  }

  /** Several parameters are separated by `, `, in declaration order. */
  lemma {:induction false} ParameterListCons(p: Parameter, ps: seq<Parameter>)
    requires ps != []
    ensures ParameterList([p] + ps) == p.name + ": " + p.typeName + ", " + ParameterList(ps)
  {
    var all := [p] + ps;
    var items := seq(|all|, i requires 0 <= i < |all| => all[i].name + ": " + all[i].typeName);
    var rest := seq(|ps|, i requires 0 <= i < |ps| => ps[i].name + ": " + ps[i].typeName);
    assert items[1..] == rest;
  }

  // ---------------------------------------------------------------------
  // Properties
  // ---------------------------------------------------------------------

  /** The property's type text chosen from what the checker reports: the
      three primitive flags by name, every other type by its rendering. */
  function TypeName(t: CheckedType): (r: string)
    ensures t.flags == StringFlag ==> r == "string"
    ensures t.flags == NumberFlag ==> r == "number"
    ensures t.flags == BooleanFlag ==> r == "boolean"
    ensures t.flags !in {StringFlag, NumberFlag, BooleanFlag} ==> r == t.rendering
  {
    if t.flags == StringFlag then "string"
    else if t.flags == NumberFlag then "number"
    else if t.flags == BooleanFlag then "boolean"
    else t.rendering
  }

  /** `ClassProperty.fromProperty` for a property declaration or a getter:
      its name and its declared type. */
  function FromProperty(node: Node): (m: Member)
    requires node.PropertyDeclaration? || node.GetAccessor?
    ensures m.Kind() == Property && m.name == node.name
    ensures node.PropertyDeclaration? ==> m.returnType == node.annotation
    ensures node.GetAccessor? ==> m.returnType == node.returnType
  {
    if node.PropertyDeclaration? then ClassProperty(node.name, node.annotation)
    else ClassProperty(node.name, node.returnType)
  }

  /** `ClassProperty.fromFProperty` for `this.x = <value>`: the name is the
      accessed member's and the type is the one the checker infers for the
      value, so it is never `undefined`. */
  function FromFProperty(node: Node, checker: Node -> CheckedType): (m: Member)
    requires IsMemberAssignment(node)
    ensures m.Kind() == Property && m.name == node.left.name
    ensures m.returnType == Some(TypeName(checker(node.right)))
  {
    ClassProperty(node.left.name, Some(TypeName(checker(node.right))))
  }

  /** `ClassProperty.fromConstructorParameter`: a parameter property. */
  function FromConstructorParameter(p: Param): (m: Member)
    ensures m.Kind() == Property && m.name == p.name && m.returnType == p.annotation
  {
    ClassProperty(p.name, p.annotation)
  }

  /** The binding a property is matched with: the first one of the same name. */
  function BindingNamed(bindings: seq<Binding>, name: string): (r: Option<Binding>)
    ensures r.Some? <==> exists i :: 0 <= i < |bindings| && bindings[i].name == name
    ensures r.Some? ==> r.value in bindings && r.value.name == name
    ensures r.Some? ==> exists i :: 0 <= i < |bindings| && bindings[i] == r.value
                         && forall j :: 0 <= j < i ==> bindings[j].name != name
  {
    if bindings == [] then None
    else if bindings[0].name == name then Some(bindings[0])
    else BindingNamed(bindings[1..], name)
  }

  /** `ClassProperty.buildCompletionItem`. The documentation is always
      `Type: ` and the type, `undefined` included (the `|| 'any'` fallback
      applies to the concatenation, which is never empty). A property that
      shares its name with a binding becomes a reference, and its detail
      gains the binding's type. */
  function PropertyCompletionItem(m: Member, base: CompletionItem, bindings: seq<Binding>): (item: CompletionItem)
    requires m.ClassProperty?
    ensures item.documentation == Some("Type: " + Show(m.returnType))
    ensures item.kind == Reference <==> exists i :: 0 <= i < |bindings| && bindings[i].name == m.name
    ensures item.kind != Reference ==> item.kind == Field && item.detail == base.detail
    ensures item.kind == Reference ==>
      exists i :: 0 <= i < |bindings| && bindings[i].name == m.name
        && (forall j :: 0 <= j < i ==> bindings[j].name != m.name)
        && item.detail == Some(Show(base.detail) + "\r\nBinding: " + Show(bindings[i].typeName))
    ensures item.labelText == base.labelText && item.insertText == base.insertText
    ensures item.additionalTextEdits == base.additionalTextEdits
  {
    var item := base.(kind := Field, documentation := Some("Type: " + Show(m.returnType)));
    var binding := BindingNamed(bindings, m.name);
    if binding.Some? then
      item.(detail := Some(Show(item.detail) + "\r\nBinding: " + Show(binding.value.typeName)), kind := Reference)
    else
      item
  }

  /** The documentation never falls back to the bare word `any`. */
  lemma PropertyDocumentationNeverAny(m: Member, base: CompletionItem, bindings: seq<Binding>)
    requires m.ClassProperty?
    ensures PropertyCompletionItem(m, base, bindings).documentation != Some("any")
  {
    var doc := "Type: " + Show(m.returnType);
    assert doc[0] == 'T';
  }
}
