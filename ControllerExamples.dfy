/** The controller finder on the repository's own test controllers, and on
    the cases that show how its rules read: the `this` alias, and the order
    of a registration and its class. */
module ControllerExamples {
  import opened Wrappers
  import opened Strings
  import opened Syntax
  import opened Records
  import opened Members
  import opened ControllerParsing

  // ---------------------------------------------------------------------
  // `theController`, a function-declared controller
  // ---------------------------------------------------------------------

  function This(name: string): Node { PropertyAccess(ThisKeyword, name) }
  function Assign(left: Node, right: Node): Node { ExpressionStatement(Binary(left, "=", right)) }
  function Declare(name: string, init: Node): Node { VariableStatement([VariableDeclaration(name, Some(init))]) }
  function Log(message: string): Node
  {
    Call(PropertyAccess(Identifier("console"), "log"), [StringLiteral(message)])
  }

  /** `{ country: 1, age: 5 }` */
  const PersonValue: Node := ObjectLiteral([PropertyAssignment("country", NumericLiteral("1")),
                                            PropertyAssignment("age", NumericLiteral("5"))])

  /** The statements of `theController` after `const vm = this`: a local
      object, a function-expression member, a nested function, a local
      arrow function, and three assignments through the alias and through
      other objects. */
  const TheControllerTail: seq<Node> := [
    Declare("ship", ObjectLiteral([PropertyAssignment("name", StringLiteral(""))])),
    Assign(This("getCaptilizedName"), FunctionExpression([], None, [
      Assign(PropertyAccess(Identifier("vm"), "captilized"), Other("true", [])),
      Other("return vm.name.toUpperCase();", [])])),
    FunctionDeclaration(Some("privateFunc"), [], None, Body([ExpressionStatement(Log("privateFunc declaration"))])),
    Declare("constPriveFunction", ArrowFunction([], None, Log("constPrivFunction"))),
    Assign(PropertyAccess(Identifier("vm"), "pubSing"), ArrowFunction([], None, Block([ExpressionStatement(Log("singing"))]))),
    Assign(ElementAccess(Identifier("vm"), StringLiteral("pubElmAccess")),
           FunctionExpression([], None, [ExpressionStatement(Log("all"))])),
    Assign(ElementAccess(Identifier("ship"), StringLiteral("pubId")),
           ArrowFunction([], None, Block([ExpressionStatement(Log("id"))])))
  ]

  /** `theController`: four members of `this`, the alias `vm`, then the tail. */
  const TheControllerStatements: seq<Node> :=
    [Assign(This("name"), StringLiteral("namee"))] + ([Assign(This("age"), StringLiteral("age"))]
    + ([Assign(This("person"), PersonValue)] + ([Assign(This("getName"), ArrowFunction([], None, This("name")))]
    + ([Declare("vm", ThisKeyword)] + TheControllerTail))))

  /** After `const vm = this`, the rest of `theController` declares nothing:
      local declarations, a nested function, a function-expression member,
      and assignments through `vm` or to element accesses. */
  lemma TheControllerTailQuiet(checker: Node -> CheckedType)
    ensures LegacyScan(TheControllerTail, Some("vm"), checker) == Done([])
  {
    var quiet := TheControllerTail;
    var vm := Some("vm");
    forall k | 0 <= k < |quiet|
      ensures (quiet[k].VariableStatement? ==> quiet[k].declarations != [])
        && AliasAfter(quiet[k], vm) == vm && StatementMembers(quiet[k], vm, checker) == []
    {
      assert k in {0, 1, 2, 3, 4, 5, 6};
    }
    LegacyScanQuiet(quiet, vm, checker);
  }

  /** `const vm = this` declares nothing and makes `vm` the alias. */
  lemma AliasStep(rest: seq<Node>, checker: Node -> CheckedType)
    requires LegacyScan(rest, Some("vm"), checker) == Done([])
    ensures LegacyScan([Declare("vm", ThisKeyword)] + rest, None, checker) == Done([])
  {
    var statement := Declare("vm", ThisKeyword);
    LegacyScanStep(statement, rest, None, checker);
    assert AliasAfter(statement, None) == Some("vm");
    assert StatementMembers(statement, Some("vm"), checker) == [];
    PrependNothing(LegacyScan(rest, Some("vm"), checker));
  }

  /** `this.getName = () => this.name` is a method without parameters. */
  lemma GetNameStep(rest: seq<Node>, checker: Node -> CheckedType)
    requires LegacyScan(rest, None, checker) == Done([])
    ensures LegacyScan([Assign(This("getName"), ArrowFunction([], None, This("name")))] + rest, None, checker)
         == Done([ClassMethod("getName", [], None)])
  {
    var statement := Assign(This("getName"), ArrowFunction([], None, This("name")));
    var getName := ClassMethod("getName", [], None);
    LegacyScanStep(statement, rest, None, checker);
    assert AliasAfter(statement, None) == None;
    assert CreateParameters([]) == [];
    assert StatementMembers(statement, None, checker) == [getName];
    assert [getName] + [] == [getName];
  }

  /** `this.x = value`, for a value that is no function, is a property
      typed by the checker, in front of the members after it. */
  lemma PropertyStep(x: string, value: Node, rest: seq<Node>, members: seq<Member>, checker: Node -> CheckedType)
    requires !value.ArrowFunction? && !value.FunctionExpression?
    requires LegacyScan(rest, None, checker) == Done(members)
    ensures LegacyScan([Assign(This(x), value)] + rest, None, checker)
         == Done([ClassProperty(x, Some(TypeName(checker(value))))] + members)
  {
    var statement := Assign(This(x), value);
    LegacyScanStep(statement, rest, None, checker);
    assert AliasAfter(statement, None) == None;
    assert StatementMembers(statement, None, checker) == [ClassProperty(x, Some(TypeName(checker(value))))];
  }

  /** `theController` from `this.getName = ...` on, in front of a quiet tail. */
  lemma FromGetName(tail: seq<Node>, checker: Node -> CheckedType)
    requires LegacyScan(tail, Some("vm"), checker) == Done([])
    ensures LegacyScan([Assign(This("getName"), ArrowFunction([], None, This("name")))]
              + ([Declare("vm", ThisKeyword)] + tail), None, checker)
         == Done([ClassMethod("getName", [], None)])
  {
    AliasStep(tail, checker);
    GetNameStep([Declare("vm", ThisKeyword)] + tail, checker);
  }

  /** `theController` from `this.person = ...` on. */
  lemma FromPerson(tail: seq<Node>, checker: Node -> CheckedType)
    requires LegacyScan(tail, Some("vm"), checker) == Done([])
    ensures LegacyScan([Assign(This("person"), PersonValue)] + ([Assign(This("getName"), ArrowFunction([], None, This("name")))]
              + ([Declare("vm", ThisKeyword)] + tail)), None, checker)
         == Done([ClassProperty("person", Some(TypeName(checker(PersonValue)))), ClassMethod("getName", [], None)])
  {
    var rest := [Assign(This("getName"), ArrowFunction([], None, This("name")))] + ([Declare("vm", ThisKeyword)] + tail);
    FromGetName(tail, checker);
    var getName := ClassMethod("getName", [], None);
    PropertyStep("person", PersonValue, rest, [getName], checker);
    var person := ClassProperty("person", Some(TypeName(checker(PersonValue))));
    assert [person] + [getName] == [person, getName];
  }

  /** `theController` from `this.age = 'age'` on. */
  lemma FromAge(tail: seq<Node>, checker: Node -> CheckedType)
    requires LegacyScan(tail, Some("vm"), checker) == Done([])
    ensures LegacyScan([Assign(This("age"), StringLiteral("age"))] + ([Assign(This("person"), PersonValue)]
              + ([Assign(This("getName"), ArrowFunction([], None, This("name")))]
              + ([Declare("vm", ThisKeyword)] + tail))), None, checker)
         == Done([ClassProperty("age", Some(TypeName(checker(StringLiteral("age"))))),
                  ClassProperty("person", Some(TypeName(checker(PersonValue)))), ClassMethod("getName", [], None)])
  {
    var rest := [Assign(This("person"), PersonValue)] + ([Assign(This("getName"), ArrowFunction([], None, This("name")))]
              + ([Declare("vm", ThisKeyword)] + tail));
    var members := [ClassProperty("person", Some(TypeName(checker(PersonValue)))), ClassMethod("getName", [], None)];
    FromPerson(tail, checker);
    PropertyStep("age", StringLiteral("age"), rest, members, checker);
    var age := ClassProperty("age", Some(TypeName(checker(StringLiteral("age")))));
    assert [age] + members == [age, members[0], members[1]];
  }

  /** The four `this` members and the alias, in front of any quiet tail. */
  lemma MembersBeforeQuietTail(tail: seq<Node>, checker: Node -> CheckedType)
    requires LegacyScan(tail, Some("vm"), checker) == Done([])
    ensures LegacyScan([Assign(This("name"), StringLiteral("namee"))] + ([Assign(This("age"), StringLiteral("age"))]
              + ([Assign(This("person"), PersonValue)] + ([Assign(This("getName"), ArrowFunction([], None, This("name")))]
              + ([Declare("vm", ThisKeyword)] + tail)))), None, checker)
         == Done([
              ClassProperty("name", Some(TypeName(checker(StringLiteral("namee"))))),
              ClassProperty("age", Some(TypeName(checker(StringLiteral("age"))))),
              ClassProperty("person", Some(TypeName(checker(PersonValue)))),
              ClassMethod("getName", [], None)])
  {
    var rest := [Assign(This("age"), StringLiteral("age"))] + ([Assign(This("person"), PersonValue)]
              + ([Assign(This("getName"), ArrowFunction([], None, This("name")))]
              + ([Declare("vm", ThisKeyword)] + tail)));
    var members := [ClassProperty("age", Some(TypeName(checker(StringLiteral("age"))))),
                    ClassProperty("person", Some(TypeName(checker(PersonValue)))), ClassMethod("getName", [], None)];
    FromAge(tail, checker);
    PropertyStep("name", StringLiteral("namee"), rest, members, checker);
    var name := ClassProperty("name", Some(TypeName(checker(StringLiteral("namee")))));
    assert [name] + members == [name, members[0], members[1], members[2]];
  }

  /** `theController` has the members `name`, `age` and `person` (typed by
      the checker) and the method `getName`. The function-expression member
      is skipped, and so is `vm.pubSing`, because the alias test compares
      the member's name, not its receiver, with `vm`. */
  lemma TheControllerMembers(checker: Node -> CheckedType)
    ensures LegacyMembers(Body(TheControllerStatements), checker) == Done([
      ClassProperty("name", Some(TypeName(checker(StringLiteral("namee"))))),
      ClassProperty("age", Some(TypeName(checker(StringLiteral("age"))))),
      ClassProperty("person", Some(TypeName(checker(PersonValue)))),
      ClassMethod("getName", [], None)])
  {
    TheControllerTailQuiet(checker);
    MembersBeforeQuietTail(TheControllerTail, checker);
  }

  /** An assignment through the alias of `this` is not a member, but an
      assignment to a member that happens to be NAMED like the alias is. */
  lemma AliasComparesMemberName(checker: Node -> CheckedType)
    ensures LegacyScan([Declare("vm", ThisKeyword), Assign(PropertyAccess(Identifier("vm"), "x"), NumericLiteral("1"))], None, checker)
         == Done([])
    ensures LegacyScan([Declare("vm", ThisKeyword), Assign(PropertyAccess(Identifier("other"), "vm"), NumericLiteral("1"))], None, checker)
         == Done([ClassProperty("vm", Some(TypeName(checker(NumericLiteral("1")))))])
  {
    var vm := Some("vm");
    var first := [Declare("vm", ThisKeyword), Assign(PropertyAccess(Identifier("vm"), "x"), NumericLiteral("1"))];
    assert first[1..][1..] == [] && first[1..] == [first[1]];
    assert AliasAfter(first[0], None) == vm;
    assert StatementMembers(first[1], vm, checker) == [];
    PrependNothing(LegacyScan(first[1..][1..], vm, checker));
    assert LegacyScan(first[1..], vm, checker) == Done([]);
    PrependNothing(LegacyScan(first[1..], vm, checker));

    var second := [Declare("vm", ThisKeyword), Assign(PropertyAccess(Identifier("other"), "vm"), NumericLiteral("1"))];
    var member := ClassProperty("vm", Some(TypeName(checker(NumericLiteral("1")))));
    assert second[1..][1..] == [] && second[1..] == [second[1]];
    assert AliasAfter(second[0], None) == vm;
    assert StatementMembers(second[1], vm, checker) == [member];
    assert [member] + [] == [member];
    assert LegacyScan(second[1..], vm, checker) == Done([member]);
    PrependNothing(LegacyScan(second[1..], vm, checker));
  }

  /** A body holding `var;` (no declarators) makes the scan throw. */
  lemma EmptyDeclarationListThrows(checker: Node -> CheckedType)
    ensures LegacyMembers(Body([Assign(This("a"), NumericLiteral("1")), VariableStatement([])]), checker) == Threw(TypeError)
  {
    var s := [Assign(This("a"), NumericLiteral("1")), VariableStatement([])];
    assert s[1..] == [VariableStatement([])];
    assert LegacyScan(s[1..], None, checker) == Threw(TypeError);
  }

  // ---------------------------------------------------------------------
  // `TestController`, a class controller
  // ---------------------------------------------------------------------

  /** The four fields of `TestController`. */
  const TestControllerFields: seq<Node> := [
    PropertyDeclaration("privateField", Some("string"), None),
    PropertyDeclaration("publicField", Some("string"), None),
    PropertyDeclaration("implicitlyPublicField", Some("string"), None),
    PropertyDeclaration("customType", Some("IReturnType"), None)
  ]

  /** `testMethod(p1: string): number` and `arrowFunction = (p1: string, p2: number): number => ...`. */
  const TestControllerMethods: seq<Node> := [
    MethodDeclaration("testMethod", [Param("p1", Some("string"), false)], Some("number"),
                      Body([Other("return 0;", [])])),
    PropertyDeclaration("arrowFunction", None, Some(ArrowFunction(
      [Param("p1", Some("string"), false), Param("p2", Some("number"), false)], Some("number"),
      Block([Other("return 1;", [])]))))
  ]

  const TestControllerClass: Node :=
    ClassDeclaration(Some("TestController"), [], TestControllerFields + TestControllerMethods)

  lemma TestControllerFieldMembers()
    ensures ElementMembers(TestControllerFields) == [
      ClassProperty("privateField", Some("string")),
      ClassProperty("publicField", Some("string")),
      ClassProperty("implicitlyPublicField", Some("string")),
      ClassProperty("customType", Some("IReturnType"))]
  {
    var fs := TestControllerFields;
    assert fs[1..] == fs[1..4] && fs[1..4][1..] == fs[2..4] && fs[2..4][1..] == [fs[3]] && [fs[3]][1..] == [];
  }

  lemma TestControllerMethodMembers()
    ensures ElementMembers(TestControllerMethods) == [
      ClassMethod("testMethod", [Parameter("p1", "string")], Some("number")),
      ClassMethod("arrowFunction", [Parameter("p1", "string"), Parameter("p2", "number")], Some("number"))]
  {
    var ms := TestControllerMethods;
    var p1 := Param("p1", Some("string"), false);
    var p2 := Param("p2", Some("number"), false);
    assert CreateParameters([p1]) == [Parameter("p1", "string")];
    assert CreateParameters([p1, p2]) == [Parameter("p1", "string"), Parameter("p2", "number")];
    assert ms[1..][1..] == [];
  }

  /** `TestController` has four properties with their declared types, then
      `testMethod(p1: string): number` and the arrow-function property
      `arrowFunction(p1: string, p2: number): number`. */
  lemma TestControllerMembers(path: string)
    ensures ParseControllerClass(path, TestControllerClass) == Controller(path, Some("TestController"), "TestController", None, [
      ClassProperty("privateField", Some("string")),
      ClassProperty("publicField", Some("string")),
      ClassProperty("implicitlyPublicField", Some("string")),
      ClassProperty("customType", Some("IReturnType")),
      ClassMethod("testMethod", [Parameter("p1", "string")], Some("number")),
      ClassMethod("arrowFunction", [Parameter("p1", "string"), Parameter("p2", "number")], Some("number"))])
  {
    var ms := TestControllerClass.members;
    ElementMembersAppend(TestControllerFields, TestControllerMethods);
    TestControllerFieldMembers();
    TestControllerMethodMembers();
    assert ConstructorMembers(ms) == [] by {
      assert forall j :: 0 <= j < |ms| ==> !ms[j].Constructor?;
    }
  }

  /** A class implementing `ng.IComponentOptions` is not a controller. */
  lemma ComponentOptionsClassExcluded()
    ensures !IsControllerClass(ClassDeclaration(Some("Options"), [HeritageClause(Implements,
              [TypeReference(PropertyAccess(Identifier("ng"), "IComponentOptions"), "")])], []))
  {
    var t := TypeReference(PropertyAccess(Identifier("ng"), "IComponentOptions"), "");
    var sub := "IComponentOptions";
    assert TypeText(t) == "ng." + sub;
    IncludesAt(TypeText(t), sub, 3);
    var clauses := [HeritageClause(Implements, [t])];
    assert TypeText(clauses[0].types[0]) in HeritageTypeTexts(clauses);
  }

  /** The test reads the whole text of each heritage type, so a class
      mentioning `IComponentOptions` only in a type argument is excluded too. */
  lemma ComponentOptionsTypeArgumentExcluded()
    ensures !IsControllerClass(ClassDeclaration(Some("Holder"), [HeritageClause(Implements,
              [TypeReference(Identifier("Box"), "<IComponentOptions>")])], []))
  {
    var t := TypeReference(Identifier("Box"), "<IComponentOptions>");
    var sub := "IComponentOptions";
    assert TypeText(t) == "Box<" + sub + ">";
    IncludesAt(TypeText(t), sub, 4);
    var clauses := [HeritageClause(Implements, [t])];
    assert TypeText(clauses[0].types[0]) in HeritageTypeTexts(clauses);
  }

  /** `extends ns.Base<T>` names the base class `Base`. */
  lemma QualifiedBaseClass()
    ensures BaseClassName([HeritageClause(Implements, [TypeReference(Identifier("I"), "")]),
                           HeritageClause(Extends, [TypeReference(PropertyAccess(Identifier("ns"), "Base"), "<T>")])])
         == Some("Base")
  {
  }

  // ---------------------------------------------------------------------
  // Registrations apply to controllers found earlier in the file
  // ---------------------------------------------------------------------

  const AngularModule: Node := PropertyAccess(Identifier("angular"), "module")

  /** `angular.module('app').controller('Renamed', X);` */
  const Registration: Node :=
    ExpressionStatement(Call(PropertyAccess(Call(AngularModule, [StringLiteral("app")]), "controller"),
                             [StringLiteral("Renamed"), Identifier("X")]))

  const ClassX: Node := ClassDeclaration(Some("X"), [], [])

  /** An environment in which only `angular.module` is a module accessor. */
  predicate RecognisesModule(env: ControllerEnv)
  {
    env.isAngularModule(AngularModule) && !env.isAngularModule(Registration.expression.callee)
  }

  /** A node without children that declares nothing leaves the results alone. */
  lemma WalkLeaf(env: ControllerEnv, node: Node, ancestors: seq<Node>, results: seq<Controller>)
    requires node.StringLiteral? || node.Identifier?
    ensures Walk(env, node, ancestors, results) == Done(results)
  {
    assert Children(node) == [];
  }

  /** A node that is walked into and has one child is walked as that child. */
  lemma WalkOnlyChild(env: ControllerEnv, node: Node, child: Node, ancestors: seq<Node>, results: seq<Controller>)
    requires Children(node) == [child]
    requires !node.FunctionDeclaration? && !IsControllerClass(node) && !(node.Call? && env.isAngularModule(node.callee))
    ensures Walk(env, node, ancestors, results) == Walk(env, child, ancestors + [node], results)
  {
    var inner := ancestors + [node];
    assert child in Children(node);
    assert [child][1..] == [];
    var first := Walk(env, child, inner, results);
    if first.Done? {
      assert WalkSeq(env, [child][1..], inner, first.value) == Done(first.value);
    }
  }

  /** The `angular.module('app')` call inside the registration finds the
      enclosing `.controller('Renamed', X)` call and applies it. */
  lemma WalkModuleCall(env: ControllerEnv, root: Node, results: seq<Controller>)
    requires RecognisesModule(env)
    ensures var outer := Registration.expression;
      Walk(env, outer.callee.expression, [root, Registration, outer, outer.callee], results)
        == Done(Register(results, Some("Renamed"), Some("X")))
  {
    var outer := Registration.expression;
    var ancestors := [root, Registration, outer, outer.callee];
    assert IsRegistrationAt(ancestors, 3);
    assert FindRegistration(ancestors) == Some(outer);
  }

  /** The access `angular.module('app').controller`. */
  lemma WalkControllerAccess(env: ControllerEnv, root: Node, results: seq<Controller>)
    requires RecognisesModule(env)
    ensures var outer := Registration.expression;
      Walk(env, outer.callee, [root, Registration, outer], results)
        == Done(Register(results, Some("Renamed"), Some("X")))
  {
    var outer := Registration.expression;
    var access := outer.callee;
    WalkModuleCall(env, root, results);
    WalkOnlyChild(env, access, access.expression, [root, Registration, outer], results);
    assert [root, Registration, outer] + [access] == [root, Registration, outer, access];
  }

  /** The call `angular.module('app').controller('Renamed', X)` itself. */
  lemma WalkControllerCall(env: ControllerEnv, root: Node, results: seq<Controller>, renamed: seq<Controller>)
    requires RecognisesModule(env)
    requires renamed == Register(results, Some("Renamed"), Some("X"))
    ensures Walk(env, Registration.expression, [root, Registration], results) == Done(renamed)
  {
    var outer := Registration.expression;
    var access := outer.callee;
    var ancestors := [root, Registration, outer];
    assert [root, Registration] + [outer] == ancestors;
    WalkControllerAccess(env, root, results);
    var args := outer.arguments;
    WalkLeaf(env, args[0], ancestors, renamed);
    WalkLeaf(env, args[1], ancestors, renamed);
    var cs := Children(outer);
    assert cs == [access, args[0], args[1]];
    assert cs[1..] == [args[0], args[1]] && cs[1..][1..] == [args[1]] && [args[1]][1..] == [];
    assert WalkSeq(env, cs[1..][1..], ancestors, renamed) == Done(renamed);
    assert WalkSeq(env, cs[1..], ancestors, renamed) == Done(renamed);
    assert WalkSeq(env, cs, ancestors, results) == Done(renamed);
  }

  /** The walk of the registration statement below the file `root`. */
  lemma WalkRegistration(env: ControllerEnv, root: Node, results: seq<Controller>)
    requires RecognisesModule(env)
    ensures Walk(env, Registration, [root], results)
         == Done(Register(results, Some("Renamed"), Some("X")))
  {
    WalkControllerCall(env, root, results, Register(results, Some("Renamed"), Some("X")));
    WalkOnlyChild(env, Registration, Registration.expression, [root], results);
    assert [root] + [Registration] == [root, Registration];
  }

  /** The class `X` is a controller named `X` without members. */
  lemma WalkClassX(env: ControllerEnv, ancestors: seq<Node>, results: seq<Controller>)
    ensures Walk(env, ClassX, ancestors, results) == Done(results + [Controller(env.path, Some("X"), "X", None, [])])
  {
    assert HeritageTypeTexts([]) == [];
    assert !ImplementsComponentOptions([]);
    assert BaseClassName([]) == None;
    assert ElementMembers([]) == [] && ConstructorMembers([]) == [];
  }

  /** A file is walked statement by statement. */
  lemma WalkFile(env: ControllerEnv, statements: seq<Node>, results: seq<Controller>)
    ensures var root := SourceFile(statements);
      Walk(env, root, [], results) == WalkSeq(env, statements, [root], results)
  {
    assert [] + [SourceFile(statements)] == [SourceFile(statements)];
  }

  /** Two siblings are walked one after the other. */
  lemma WalkTwo(env: ControllerEnv, a: Node, b: Node, ancestors: seq<Node>, results: seq<Controller>, mid: seq<Controller>)
    requires ancestors != [] && a < ancestors[|ancestors| - 1] && b < ancestors[|ancestors| - 1]
    requires Walk(env, a, ancestors, results) == Done(mid)
    ensures WalkSeq(env, [a, b], ancestors, results) == Walk(env, b, ancestors, mid)
  {
    assert [a, b][1..] == [b] && [b][1..] == [];
    var r := Walk(env, b, ancestors, mid);
    if r.Done? {
      assert WalkSeq(env, [b], ancestors, mid) == r;
    }
  }

  /** A registration after its class renames the controller. */
  lemma RegistrationAfterClassRenames(env: ControllerEnv)
    requires RecognisesModule(env)
    ensures Walk(env, SourceFile([ClassX, Registration]), [], [])
         == Done([Controller(env.path, Some("Renamed"), "X", None, [])])
  {
    var root := SourceFile([ClassX, Registration]);
    var found := [Controller(env.path, Some("X"), "X", None, [])];
    WalkFile(env, [ClassX, Registration], []);
    WalkClassX(env, [root], []);
    assert [] + found == found;
    WalkTwo(env, ClassX, Registration, [root], [], found);
    WalkRegistration(env, root, found);
    assert Register(found, Some("Renamed"), Some("X")) == [Controller(env.path, Some("Renamed"), "X", None, [])];
  }

  /** A registration before its class leaves the controller's name alone. */
  lemma RegistrationBeforeClassIgnored(env: ControllerEnv)
    requires RecognisesModule(env)
    ensures Walk(env, SourceFile([Registration, ClassX]), [], [])
         == Done([Controller(env.path, Some("X"), "X", None, [])])
  {
    var root := SourceFile([Registration, ClassX]);
    WalkFile(env, [Registration, ClassX], []);
    WalkRegistration(env, root, []);
    assert Register([], Some("Renamed"), Some("X")) == [];
    WalkTwo(env, Registration, ClassX, [root], [], []);
    WalkClassX(env, [root], []);
    assert [] + [Controller(env.path, Some("X"), "X", None, [])] == [Controller(env.path, Some("X"), "X", None, [])];
  }
}
