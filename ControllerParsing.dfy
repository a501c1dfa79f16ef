/** The controller finder. It walks a source file and records every function
    declaration and every class that does not implement `IComponentOptions`
    as a controller. A registration
    `angular.module(...).controller('Name', Identifier)` renames the
    controller already found for `Identifier`. */
module ControllerParsing {
  import opened Wrappers
  import opened Strings
  import opened Arrays
  import opened Syntax
  import opened Records
  import opened Members

  /** What the walk relies on beyond the tree: the file's path, the test
      that recognises an `angular.module(...)` callee, and the type checker
      that the legacy member scan consults. */
  datatype ControllerEnv = ControllerEnv(
    path: string,
    isAngularModule: Node -> bool,
    checker: Node -> CheckedType)

  // ---------------------------------------------------------------------
  // Class controllers
  // ---------------------------------------------------------------------

  /** `createMember`: methods, getters and properties become members. An
      arrow-initialised property becomes a method. Every other class element
      gives `undefined`. */
  function CreateMember(element: Node): (r: Option<Member>)
    ensures r.Some? <==> element.MethodDeclaration? || element.GetAccessor? || element.PropertyDeclaration?
    ensures r.Some? ==> r.value.name == element.name
    ensures r.Some? ==>
      (r.value.Kind() == Method <==>
        element.MethodDeclaration?
        || (element.PropertyDeclaration? && element.initializer.Some? && element.initializer.value.ArrowFunction?))
  {
    if element.MethodDeclaration? then Some(FromNode(element))
    else if element.GetAccessor? then Some(FromProperty(element))
    else if element.PropertyDeclaration? then
      if element.initializer.Some? && element.initializer.value.ArrowFunction? then Some(FromNode(element))
      else Some(FromProperty(element))
    else None
  }

  /** `members.map(createMember).filter(item => item)`. */
  function ElementMembers(elements: seq<Node>): seq<Member>
  {
    if elements == [] then []
    else
      var head := CreateMember(elements[0]);
      (if head.Some? then [head.value] else []) + ElementMembers(elements[1..])
  }

  /** Every class member comes from a class element, and every method,
      getter and property element gives one. */
  lemma {:induction false} ElementMembersComplete(elements: seq<Node>)
    ensures var r := ElementMembers(elements);
      |r| <= |elements|
      && (forall k :: 0 <= k < |r| ==> exists j :: 0 <= j < |elements| && CreateMember(elements[j]) == Some(r[k]))
      && (forall j :: 0 <= j < |elements| && CreateMember(elements[j]).Some? ==> CreateMember(elements[j]).value in r)
  {
    if elements != [] {
      ElementMembersComplete(elements[1..]);
      var head := CreateMember(elements[0]);
      var rest := ElementMembers(elements[1..]);
      var r := ElementMembers(elements);
      var h := if head.Some? then [head.value] else [];
      assert r == h + rest;
      forall k | 0 <= k < |r|
        ensures exists j :: 0 <= j < |elements| && CreateMember(elements[j]) == Some(r[k])
      {
        if k >= |h| {
          var j :| 0 <= j < |elements[1..]| && CreateMember(elements[1..][j]) == Some(rest[k - |h|]);
          assert elements[j + 1] == elements[1..][j];
        }
      }
      forall j | 0 <= j < |elements| && CreateMember(elements[j]).Some?
        ensures CreateMember(elements[j]).value in r
      {
        if j > 0 {
          assert elements[j] == elements[1..][j - 1];
        }
      }
    }
  }

  /** The members of consecutive runs of class elements are concatenated. */
  lemma {:induction false} ElementMembersAppend(a: seq<Node>, b: seq<Node>)
    ensures ElementMembers(a + b) == ElementMembers(a) + ElementMembers(b)
  {
    if a != [] {
      var head := CreateMember(a[0]);
      var h := if head.Some? then [head.value] else [];
      assert (a + b)[0] == a[0];
      assert (a + b)[1..] == a[1..] + b;
      assert ElementMembers(a + b) == h + ElementMembers(a[1..] + b);
      assert ElementMembers(a) == h + ElementMembers(a[1..]);
      ElementMembersAppend(a[1..], b);
      assert h + (ElementMembers(a[1..]) + ElementMembers(b)) == (h + ElementMembers(a[1..])) + ElementMembers(b);
    } else {
      assert a + b == b;
    }
  }

  predicate IsConstructor(element: Node)
  {
    element.Constructor?
  }

  /** A constructor parameter that carries a modifier (`public x: T`), which
      makes it a parameter property. */
  predicate IsParameterProperty(p: Param)
  {
    p.hasModifiers
  }

  /** `getConstructorMembers`: the parameter properties of the first
      constructor, one property each, in parameter order; nothing without a
      constructor. */
  function ConstructorMembers(elements: seq<Node>): (r: seq<Member>)
    ensures (forall j :: 0 <= j < |elements| ==> !elements[j].Constructor?) ==> r == []
    ensures forall i :: 0 <= i < |elements| && elements[i].Constructor?
                        && (forall j :: 0 <= j < i ==> !elements[j].Constructor?) ==>
      var ps := Filter(elements[i].parameters, IsParameterProperty);
      |r| == |ps|
      && forall k :: 0 <= k < |r| ==>
           r[k].Kind() == Property && r[k].name == ps[k].name && r[k].returnType == ps[k].annotation
  {
    var ctor := FindIndex(elements, IsConstructor);
    if ctor.None? then []
    else
      var ps := Filter(elements[ctor.value].parameters, IsParameterProperty);
      seq(|ps|, k requires 0 <= k < |ps| => FromConstructorParameter(ps[k]))
  }

  /** `getBaseClassName`: the sole type of the first `extends` clause, by the
      accessed name when qualified (`ns.Base` gives `Base`), otherwise by its
      expression's text. Type arguments are not part of it. */
  function BaseClassName(clauses: seq<HeritageClause>): (r: Option<string>)
    ensures r.Some? <==>
      exists i :: 0 <= i < |clauses| && clauses[i].token == Extends && |clauses[i].types| == 1
        && forall j :: 0 <= j < i ==> clauses[j].token != Extends
    ensures forall i :: 0 <= i < |clauses| && clauses[i].token == Extends && |clauses[i].types| == 1
                        && (forall j :: 0 <= j < i ==> clauses[j].token != Extends) ==>
      var e := clauses[i].types[0].expression;
      r == Some(if e.PropertyAccess? then e.name else Text(e))
  {
    var ext := FindIndex(clauses, (h: HeritageClause) => h.token == Extends);
    if ext.Some? && |clauses[ext.value].types| == 1 then
      var e := clauses[ext.value].types[0].expression;
      Some(if e.PropertyAccess? then e.name else Text(e))
    else None
  }

  /** The text of every heritage type, clause by clause (`flatMap`). */
  function HeritageTypeTexts(clauses: seq<HeritageClause>): (r: seq<string>)
    ensures forall i, j :: 0 <= i < |clauses| && 0 <= j < |clauses[i].types| ==> TypeText(clauses[i].types[j]) in r
    ensures forall t :: t in r ==> exists i, j :: 0 <= i < |clauses| && 0 <= j < |clauses[i].types| && TypeText(clauses[i].types[j]) == t
  {
    if clauses == [] then []
    else
      var types := clauses[0].types;
      var first := seq(|types|, j requires 0 <= j < |types| => TypeText(types[j]));
      var rest := HeritageTypeTexts(clauses[1..]);
      assert forall i :: 0 < i < |clauses| ==> clauses[i] == clauses[1..][i - 1];
      var r := first + rest;
      forall i, j | 0 <= i < |clauses| && 0 <= j < |clauses[i].types|
        ensures TypeText(clauses[i].types[j]) in r
      {
        if i == 0 {
          assert TypeText(clauses[i].types[j]) == first[j];
        } else {
          assert clauses[i] == clauses[1..][i - 1];
        }
      }
      forall t | t in r
        ensures exists i, j :: 0 <= i < |clauses| && 0 <= j < |clauses[i].types| && TypeText(clauses[i].types[j]) == t
      {
        if t !in first {
          var i, j :| 0 <= i < |clauses[1..]| && 0 <= j < |clauses[1..][i].types| && TypeText(clauses[1..][i].types[j]) == t;
          assert clauses[i + 1] == clauses[1..][i];
        }
      }
      r
  }

  /** `implementsComponentOptions`: some heritage type's text contains `IComponentOptions`. */
  predicate ImplementsComponentOptions(clauses: seq<HeritageClause>)
  {
    exists t :: t in HeritageTypeTexts(clauses) && Includes(t, "IComponentOptions")
  }

  /** `isControllerClass`. */
  predicate IsControllerClass(node: Node)
  {
    node.ClassDeclaration? && !ImplementsComponentOptions(node.heritageClauses)
  }

  /** `parseControllerClass` for a named class: the class members first, then
      the constructor's parameter properties. */
  function ParseControllerClass(path: string, node: Node): (c: Controller)
    requires node.ClassDeclaration? && node.id.Some?
    ensures c.path == path && c.name == Some(c.className) && c.className == node.id.value
    ensures c.baseClassName == BaseClassName(node.heritageClauses)
    ensures c.members == ElementMembers(node.members) + ConstructorMembers(node.members)
  {
    Controller(path, node.id, node.id.value, BaseClassName(node.heritageClauses),
               ElementMembers(node.members) + ConstructorMembers(node.members))
  }

  // ---------------------------------------------------------------------
  // Function controllers (the legacy `this.x = ...` scan)
  // ---------------------------------------------------------------------

  /** A statement the scan turns into a member: an expression statement
      holding a binary expression (an assignment or any other operator)
      whose left side accesses a member of `this`, or a member whose NAME
      equals the alias `this` was stored under. */
  predicate IsMemberStatement(statement: Node, alias: Option<string>)
  {
    statement.ExpressionStatement? && statement.expression.Binary?
    && statement.expression.left.PropertyAccess?
    && (statement.expression.left.expression.ThisKeyword? || Some(statement.expression.left.name) == alias)
  }

  /** The alias of `this` after a statement: a variable statement whose first
      declarator is initialised with `this` sets it. */
  function AliasAfter(statement: Node, alias: Option<string>): Option<string>
    requires statement.VariableStatement? ==> statement.declarations != []
  {
    if statement.VariableStatement?
       && statement.declarations[0].initializer.Some?
       && statement.declarations[0].initializer.value.ThisKeyword?
    then Some(statement.declarations[0].name)
    else alias
  }

  /** What one statement declares: nothing unless it is a member statement;
      then a method for an arrow function, nothing for a function
      expression, and a property for any other value. */
  function StatementMembers(statement: Node, alias: Option<string>, checker: Node -> CheckedType): (r: seq<Member>)
    ensures |r| <= 1
    ensures !IsMemberStatement(statement, alias) ==> r == []
    ensures IsMemberStatement(statement, alias) ==> (r == [] <==> statement.expression.right.FunctionExpression?)
    ensures r != [] ==>
      IsMemberStatement(statement, alias) && r[0].name == statement.expression.left.name
      && (r[0].Kind() == Method <==> statement.expression.right.ArrowFunction?)
  {
    if !IsMemberStatement(statement, alias) then []
    else
      var assignment := statement.expression;
      if assignment.right.ArrowFunction? then [FromFNode(assignment)]
      else if assignment.right.FunctionExpression? then []
      else [FromFProperty(assignment, checker)]
  }

  /** `ms` followed by the members of a scan that has not failed. */
  function Prepend(ms: seq<Member>, o: Outcome<seq<Member>>): Outcome<seq<Member>>
  {
    if o.Done? then Done(ms + o.value) else o
  }

  /** The members declared by `statements`, scanned in order with `this`
      stored under `alias`. A variable statement with no declarators throws
      a TypeError (its first declarator is `undefined`). */
  function LegacyScan(statements: seq<Node>, alias: Option<string>, checker: Node -> CheckedType): Outcome<seq<Member>>
    decreases |statements|
  {
    if statements == [] then Done([])
    else
      var s := statements[0];
      if s.VariableStatement? && s.declarations == [] then Threw(TypeError)
      else
        var alias' := AliasAfter(s, alias);
        Prepend(StatementMembers(s, alias', checker), LegacyScan(statements[1..], alias', checker))
  }

  /** The members of a function-declared controller: none without a body. */
  function LegacyMembers(body: Body, checker: Node -> CheckedType): Outcome<seq<Member>>
  {
    if body.NoBody? then Done([]) else LegacyScan(body.statements, None, checker)
  }

  /** One step of the scan: the first statement's members, then the rest
      scanned with the alias it leaves. */
  lemma LegacyScanStep(statement: Node, rest: seq<Node>, alias: Option<string>, checker: Node -> CheckedType)
    requires !(statement.VariableStatement? && statement.declarations == [])
    ensures var alias' := AliasAfter(statement, alias);
      LegacyScan([statement] + rest, alias, checker)
        == Prepend(StatementMembers(statement, alias', checker), LegacyScan(rest, alias', checker))
  {
    assert ([statement] + rest)[0] == statement;
    assert ([statement] + rest)[1..] == rest;
  }

  lemma PrependNothing(o: Outcome<seq<Member>>)
    ensures Prepend([], o) == o
  {
    if o.Done? {
      assert [] + o.value == o.value;
    }
  }

  lemma PrependPrepend(a: seq<Member>, b: seq<Member>, o: Outcome<seq<Member>>)
    ensures Prepend(a, Prepend(b, o)) == Prepend(a + b, o)
  {
    if o.Done? {
      assert a + (b + o.value) == (a + b) + o.value;
    }
  }

  /** Statements that leave the alias as it is and declare nothing add no members. */
  lemma {:induction false} LegacyScanQuiet(statements: seq<Node>, alias: Option<string>, checker: Node -> CheckedType)
    requires forall k :: 0 <= k < |statements| ==>
      (statements[k].VariableStatement? ==> statements[k].declarations != [])
      && AliasAfter(statements[k], alias) == alias
      && StatementMembers(statements[k], alias, checker) == []
    ensures LegacyScan(statements, alias, checker) == Done([])
    decreases |statements|
  {
    if statements != [] {
      LegacyScanQuiet(statements[1..], alias, checker);
      PrependNothing(LegacyScan(statements[1..], alias, checker));
    }
  }

  /** An expression statement assigning (or otherwise combining) the member `name` of some object. */
  predicate AssignsMember(statement: Node, name: string)
  {
    statement.ExpressionStatement? && statement.expression.Binary?
    && statement.expression.left.PropertyAccess? && statement.expression.left.name == name
  }

  /** Every member the scan reports comes from a statement of the body that
      accesses a member of that name; there are no more members than statements. */
  lemma {:induction false} LegacyScanNames(statements: seq<Node>, alias: Option<string>, checker: Node -> CheckedType)
    ensures var r := LegacyScan(statements, alias, checker);
      r.Done? ==>
        |r.value| <= |statements|
        && forall k :: 0 <= k < |r.value| ==> exists j :: 0 <= j < |statements| && AssignsMember(statements[j], r.value[k].name)
    decreases |statements|
  {
    if statements != [] {
      var s := statements[0];
      if !(s.VariableStatement? && s.declarations == []) {
        var alias' := AliasAfter(s, alias);
        var head := StatementMembers(s, alias', checker);
        var tail := LegacyScan(statements[1..], alias', checker);
        LegacyScanNames(statements[1..], alias', checker);
        if tail.Done? {
          var r := head + tail.value;
          forall k | 0 <= k < |r|
            ensures exists j :: 0 <= j < |statements| && AssignsMember(statements[j], r[k].name)
          {
            if k < |head| {
              assert AssignsMember(statements[0], r[k].name);
            } else {
              var j :| 0 <= j < |statements[1..]| && AssignsMember(statements[1..][j], tail.value[k - |head|].name);
              assert statements[j + 1] == statements[1..][j];
            }
          }
        }
      }
    }
  }

  /** A statement the scan can read: a variable statement has a first declarator. */
  predicate Readable(statement: Node)
  {
    statement.VariableStatement? ==> statement.declarations != []
  }

  /** The alias in force once the first `j` statements have run, starting from `alias`. */
  function AliasAt(statements: seq<Node>, alias: Option<string>, j: nat): Option<string>
    requires j <= |statements|
    requires forall k :: 0 <= k < j ==> Readable(statements[k])
  {
    if j == 0 then alias
    else
      assert Readable(statements[j - 1]);
      AliasAfter(statements[j - 1], AliasAt(statements, alias, j - 1))
  }

  /** Whether statement `j` declares a member: it assigns a member through
      `this` or the alias in force once it has run, and the value is not a
      function expression. */
  predicate Declares(statements: seq<Node>, alias: Option<string>, j: nat)
    requires j < |statements|
    requires forall k :: 0 <= k <= j ==> Readable(statements[k])
  {
    IsMemberStatement(statements[j], AliasAt(statements, alias, j + 1))
    && !statements[j].expression.right.FunctionExpression?
  }

  /** The indices of the statements before `n` that declare a member, ascending. */
  function DeclaringIndices(statements: seq<Node>, alias: Option<string>, n: nat): (r: seq<nat>)
    requires n <= |statements|
    requires forall k :: 0 <= k < n ==> Readable(statements[k])
    ensures forall k :: 0 <= k < |r| ==> r[k] < n && Declares(statements, alias, r[k])
    ensures forall j :: 0 <= j < n && Declares(statements, alias, j) ==> j in r
    ensures forall k, l :: 0 <= k < l < |r| ==> r[k] < r[l]
  {
    if n == 0 then []
    else DeclaringIndices(statements, alias, n - 1) + (if Declares(statements, alias, n - 1) then [n - 1] else [])
  }

  /** The members the first `n` statements declare, statement by statement. */
  function MembersUpTo(statements: seq<Node>, alias: Option<string>, checker: Node -> CheckedType, n: nat): seq<Member>
    requires n <= |statements|
    requires forall k :: 0 <= k < n ==> Readable(statements[k])
  {
    if n == 0 then []
    else MembersUpTo(statements, alias, checker, n - 1)
         + StatementMembers(statements[n - 1], AliasAt(statements, alias, n), checker)
  }

  /** After `n` statements the scan has reported their members, and goes on
      with the rest under the alias then in force. */
  lemma {:induction false} LegacyScanPrefix(statements: seq<Node>, alias: Option<string>, checker: Node -> CheckedType, n: nat)
    requires n <= |statements|
    requires forall k :: 0 <= k < n ==> Readable(statements[k])
    ensures LegacyScan(statements, alias, checker)
         == Prepend(MembersUpTo(statements, alias, checker, n),
                    LegacyScan(statements[n..], AliasAt(statements, alias, n), checker))
  {
    if n == 0 {
      assert statements[0..] == statements;
      PrependNothing(LegacyScan(statements, alias, checker));
    } else {
      LegacyScanPrefix(statements, alias, checker, n - 1);
      var s := statements[n - 1];
      var before := AliasAt(statements, alias, n - 1);
      assert statements[n - 1..] == [s] + statements[n..];
      LegacyScanStep(s, statements[n..], before, checker);
      PrependPrepend(MembersUpTo(statements, alias, checker, n - 1),
                     StatementMembers(s, AliasAt(statements, alias, n), checker),
                     LegacyScan(statements[n..], AliasAt(statements, alias, n), checker));
    }
  }

  /** A member reports the member statement `s`: it is named after the
      assigned member, and it is a method exactly when the value is an arrow
      function. */
  predicate Reports(m: Member, s: Node)
  {
    s.ExpressionStatement? && s.expression.Binary? && s.expression.left.PropertyAccess?
    && m.name == s.expression.left.name
    && (m.Kind() == Method <==> s.expression.right.ArrowFunction?)
  }

  /** Statement `j` adds one member reporting it when it declares one, and
      none otherwise. */
  lemma StatementReported(statements: seq<Node>, alias: Option<string>, checker: Node -> CheckedType, j: nat)
    requires j < |statements|
    requires forall k :: 0 <= k <= j ==> Readable(statements[k])
    ensures var added := StatementMembers(statements[j], AliasAt(statements, alias, j + 1), checker);
      if Declares(statements, alias, j) then |added| == 1 && Reports(added[0], statements[j]) else added == []
  {
  }

  /** The members `ms` report the statements at `idx`, one for one. */
  predicate AllReport(ms: seq<Member>, idx: seq<nat>, statements: seq<Node>)
  {
    |ms| == |idx|
    && forall k :: 0 <= k < |idx| ==> idx[k] < |statements| && Reports(ms[k], statements[idx[k]])
  }

  lemma AllReportAppend(ms: seq<Member>, idx: seq<nat>, added: seq<Member>, extra: seq<nat>, statements: seq<Node>)
    requires AllReport(ms, idx, statements) && AllReport(added, extra, statements)
    ensures AllReport(ms + added, idx + extra, statements)
  {
    forall k | 0 <= k < |idx + extra|
      ensures (idx + extra)[k] < |statements| && Reports((ms + added)[k], statements[(idx + extra)[k]])
    {
      if k >= |idx| {
        assert (ms + added)[k] == added[k - |idx|] && (idx + extra)[k] == extra[k - |idx|];
      }
    }
  }

  /** The members of the first `n` statements match the declaring indices
      one for one. */
  lemma {:induction false} MembersUpToIndices(statements: seq<Node>, alias: Option<string>, checker: Node -> CheckedType, n: nat)
    requires n <= |statements|
    requires forall k :: 0 <= k < n ==> Readable(statements[k])
    ensures AllReport(MembersUpTo(statements, alias, checker, n), DeclaringIndices(statements, alias, n), statements)
  {
    if n > 0 {
      MembersUpToIndices(statements, alias, checker, n - 1);
      StatementReported(statements, alias, checker, n - 1);
      var added := StatementMembers(statements[n - 1], AliasAt(statements, alias, n), checker);
      var extra: seq<nat> := if Declares(statements, alias, n - 1) then [n - 1] else [];
      assert AllReport(added, extra, statements);
      AllReportAppend(MembersUpTo(statements, alias, checker, n - 1), DeclaringIndices(statements, alias, n - 1),
                      added, extra, statements);
    }
  }

  /** The scan of readable statements succeeds and reports exactly one member
      per declaring statement, in statement order: named after the assigned
      member, and a method exactly when the value is an arrow function. */
  lemma LegacyScanComplete(statements: seq<Node>, alias: Option<string>, checker: Node -> CheckedType)
    requires forall k :: 0 <= k < |statements| ==> Readable(statements[k])
    ensures var r := LegacyScan(statements, alias, checker);
      var idx := DeclaringIndices(statements, alias, |statements|);
      r.Done? && |r.value| == |idx|
      && forall k :: 0 <= k < |idx| ==> Reports(r.value[k], statements[idx[k]])
  {
    var n := |statements|;
    LegacyScanPrefix(statements, alias, checker, n);
    assert statements[n..] == [];
    var ms := MembersUpTo(statements, alias, checker, n);
    assert ms + [] == ms;
    MembersUpToIndices(statements, alias, checker, n);
  }

  /** A variable statement without declarators anywhere in the body makes
      the scan throw a `TypeError`. */
  lemma {:induction false} LegacyScanThrows(statements: seq<Node>, alias: Option<string>, checker: Node -> CheckedType)
    requires exists k :: 0 <= k < |statements| && !Readable(statements[k])
    ensures LegacyScan(statements, alias, checker) == Threw(TypeError)
    decreases |statements|
  {
    if Readable(statements[0]) {
      var k :| 0 <= k < |statements| && !Readable(statements[k]);
      assert statements[1..][k - 1] == statements[k];
      LegacyScanThrows(statements[1..], AliasAfter(statements[0], alias), checker);
    }
  }

  // ---------------------------------------------------------------------
  // Registrations
  // ---------------------------------------------------------------------

  /** Whether `ancestors[i]` is a `.controller` access whose parent is a call
      with two arguments (ancestors run from the root to the nearest parent). */
  predicate IsRegistrationAt(ancestors: seq<Node>, i: int)
  {
    0 < i < |ancestors| && ancestors[i].PropertyAccess? && ancestors[i].name == "controller"
    && ancestors[i - 1].Call? && |ancestors[i - 1].arguments| == 2
  }

  /** `findControllerRegistration`, started at the nearest parent and moving
      up: the call of the nearest qualifying `.controller` access. */
  function FindRegistration(ancestors: seq<Node>): (r: Option<Node>)
    ensures r.Some? <==> exists i :: 0 <= i < |ancestors| && IsRegistrationAt(ancestors, i)
    ensures r.Some? ==>
      exists i :: (0 <= i < |ancestors| && IsRegistrationAt(ancestors, i) && r.value == ancestors[i - 1]
                   && forall j :: i < j < |ancestors| ==> !IsRegistrationAt(ancestors, j))
    ensures r.Some? ==> r.value.Call? && |r.value.arguments| == 2
    decreases |ancestors|
  {
    if ancestors == [] then None
    else
      var i := |ancestors| - 1;
      if IsRegistrationAt(ancestors, i) then Some(ancestors[i - 1])
      else
        var r := FindRegistration(ancestors[..i]);
        assert forall j :: 0 <= j < i ==> (IsRegistrationAt(ancestors[..i], j) <==> IsRegistrationAt(ancestors, j));
        r
  }

  /** A registration `controller(nameText, identifier)`: when the two texts
      differ, the first controller whose class name is the identifier's text
      takes `nameText` (possibly `undefined`) as its name. */
  function Register(results: seq<Controller>, nameText: Option<string>, identText: Option<string>): (r: seq<Controller>)
    ensures |r| == |results|
    ensures nameText == identText ==> r == results
    ensures forall i :: 0 <= i < |r| ==> r[i].(name := results[i].name) == results[i]
    ensures forall i :: 0 <= i < |r| && r[i] != results[i] ==>
      r[i].name == nameText && identText == Some(results[i].className)
      && forall j :: 0 <= j < i ==> identText != Some(results[j].className)
    ensures nameText != identText ==>
      forall i :: 0 <= i < |r| && identText == Some(results[i].className)
                  && (forall j :: 0 <= j < i ==> identText != Some(results[j].className))
                  ==> r[i].name == nameText
  {
    if nameText == identText then results
    else
      var i := FindIndex(results, (c: Controller) => Some(c.className) == identText);
      if i.Some? then results[i.value := results[i.value].(name := nameText)] else results
  }

  /** The registration branch for an `angular.module(...)` call. A call with
      no parent throws, because the search reads the `kind` of `undefined`. */
  function Registration(results: seq<Controller>, ancestors: seq<Node>): Outcome<seq<Controller>>
  {
    if ancestors == [] then Threw(TypeError)
    else
      var call := FindRegistration(ancestors);
      if call.None? then Done(results)
      else Done(Register(results, TextOf(call.value.arguments[0]), TextOf(call.value.arguments[1])))
  }

  // ---------------------------------------------------------------------
  // The walk
  // ---------------------------------------------------------------------

  /** `parseChildren` on `node`, whose ancestors (root first) are
      `ancestors`, appending to `results`. Function controllers and class
      controllers are not walked into, nor are `angular.module(...)` calls. */
  function Walk(env: ControllerEnv, node: Node, ancestors: seq<Node>, results: seq<Controller>): Outcome<seq<Controller>>
    decreases node, 1
  {
    if node.FunctionDeclaration? then
      if node.id.None? then Threw(TypeError)
      else
        var members := LegacyMembers(node.body, env.checker);
        if members.Threw? then Threw(members.error)
        else Done(results + [Controller(env.path, node.id, node.id.value, None, members.value)])
    else if IsControllerClass(node) then
      if node.id.None? then Threw(TypeError)
      else Done(results + [ParseControllerClass(env.path, node)])
    else if node.Call? && env.isAngularModule(node.callee) then
      Registration(results, ancestors)
    else
      var inner := ancestors + [node];
      assert inner[|inner| - 1] == node;
      WalkSeq(env, Children(node), inner, results)
  }

  /** `forEach(parseChildren)` over siblings whose parent ends `ancestors`;
      the first exception stops the walk. */
  function WalkSeq(env: ControllerEnv, siblings: seq<Node>, ancestors: seq<Node>, results: seq<Controller>): Outcome<seq<Controller>>
    requires ancestors != []
    requires forall c :: c in siblings ==> c < ancestors[|ancestors| - 1]
    decreases ancestors[|ancestors| - 1], 0, |siblings|
  {
    if siblings == [] then Done(results)
    else
      assert siblings[0] in siblings;
      var first := Walk(env, siblings[0], ancestors, results);
      if first.Threw? then first
      else
        assert forall c :: c in siblings[1..] ==> c in siblings;
        WalkSeq(env, siblings[1..], ancestors, first.value)
  }

  /** The results only grow. Controllers found earlier keep everything but
      their names, and every new controller belongs to the walked file. */
  predicate Grows(env: ControllerEnv, before: seq<Controller>, after: seq<Controller>)
  {
    |before| <= |after|
    && (forall i :: 0 <= i < |before| ==> after[i].(name := before[i].name) == before[i])
    && (forall i :: |before| <= i < |after| ==> after[i].path == env.path)
  }

  lemma GrowsTransitive(env: ControllerEnv, a: seq<Controller>, b: seq<Controller>, c: seq<Controller>)
    requires Grows(env, a, b) && Grows(env, b, c)
    ensures Grows(env, a, c)
  {
    forall i | 0 <= i < |a| ensures c[i].(name := a[i].name) == a[i] {
      assert c[i].(name := b[i].name) == b[i];
    }
  }

  lemma {:induction false} WalkGrows(env: ControllerEnv, node: Node, ancestors: seq<Node>, results: seq<Controller>)
    ensures var r := Walk(env, node, ancestors, results); r.Done? ==> Grows(env, results, r.value)
    decreases node, 1
  {
    if !node.FunctionDeclaration? && !IsControllerClass(node) && !(node.Call? && env.isAngularModule(node.callee)) {
      var inner := ancestors + [node];
      assert inner[|inner| - 1] == node;
      WalkSeqGrows(env, Children(node), inner, results);
    }
  }

  lemma {:induction false} WalkSeqGrows(env: ControllerEnv, siblings: seq<Node>, ancestors: seq<Node>, results: seq<Controller>)
    requires ancestors != []
    requires forall c :: c in siblings ==> c < ancestors[|ancestors| - 1]
    ensures var r := WalkSeq(env, siblings, ancestors, results); r.Done? ==> Grows(env, results, r.value)
    decreases ancestors[|ancestors| - 1], 0, |siblings|
  {
    if siblings != [] {
      assert siblings[0] in siblings;
      WalkGrows(env, siblings[0], ancestors, results);
      var first := Walk(env, siblings[0], ancestors, results);
      if first.Done? {
        assert forall c :: c in siblings[1..] ==> c in siblings;
        WalkSeqGrows(env, siblings[1..], ancestors, first.value);
        var r := WalkSeq(env, siblings[1..], ancestors, first.value);
        if r.Done? {
          GrowsTransitive(env, results, first.value, r.value);
        }
      }
    }
  }

  /** A function declaration is one controller, named after the function,
      whose members are those the legacy scan finds in its body. The body is
      not walked, so functions nested in it are never controllers. */
  lemma WalkFunctionDeclaration(env: ControllerEnv, node: Node, ancestors: seq<Node>, results: seq<Controller>)
    requires node.FunctionDeclaration?
    ensures node.id.None? ==> Walk(env, node, ancestors, results) == Threw(TypeError)
    ensures node.id.Some? ==>
      var members := LegacyMembers(node.body, env.checker);
      Walk(env, node, ancestors, results)
        == if members.Threw? then Threw(members.error)
           else Done(results + [Controller(env.path, Some(node.id.value), node.id.value, None, members.value)])
  {
  }

  /** A named class is one controller, built by `ParseControllerClass`,
      exactly when it does not implement `IComponentOptions`; otherwise it
      is walked into like any other node. */
  lemma WalkClassDeclaration(env: ControllerEnv, node: Node, ancestors: seq<Node>, results: seq<Controller>)
    requires node.ClassDeclaration? && node.id.Some?
    ensures IsControllerClass(node) ==>
      Walk(env, node, ancestors, results) == Done(results + [ParseControllerClass(env.path, node)])
    ensures !IsControllerClass(node) ==>
      var inner := ancestors + [node];
      assert inner[|inner| - 1] == node;
      Walk(env, node, ancestors, results) == WalkSeq(env, Children(node), inner, results)
  {
  }

  /** The outcome of `parseChildren` as the walker object reports it. */
  function Finish(results: seq<Controller>, thrown: Option<JsError>): Outcome<seq<Controller>>
  {
    if thrown.None? then Done(results) else Threw(thrown.value)
  }

  /** The walker: the file it reads and the controllers found so far. */
  class ControllerParser {
    const env: ControllerEnv
    var results: seq<Controller>

    constructor(env: ControllerEnv)
      ensures this.env == env && results == []
    {
      this.env := env;
      results := [];
    }

    /** `parse`: walk the whole file and return the controllers found. */
    method Parse(root: Node) returns (r: Outcome<seq<Controller>>)
      modifies this
      ensures r == Walk(env, root, [], old(results))
      ensures r.Done? ==> r.value == results && Grows(env, old(results), results)
    {
      var thrown := ParseChildren(root, []);
      r := Finish(results, thrown);
      WalkGrows(env, root, [], old(results));
    }

    /** `parseChildren`: add what `node` declares to `results`. */
    method ParseChildren(node: Node, ancestors: seq<Node>) returns (thrown: Option<JsError>)
      modifies this
      ensures Walk(env, node, ancestors, old(results)) == Finish(results, thrown)
      decreases node, 1
    {
      thrown := None;
      if node.FunctionDeclaration? {
        if node.id.None? {
          return Some(TypeError);
        }
        var members := RetrieveFunctionDeclarationMembers(node);
        if members.Threw? {
          return Some(members.error);
        }
        results := results + [Controller(env.path, node.id, node.id.value, None, members.value)];
      } else if IsControllerClass(node) {
        if node.id.None? {
          return Some(TypeError);
        }
        results := results + [ParseControllerClass(env.path, node)];
      } else if node.Call? && env.isAngularModule(node.callee) {
        thrown := RegisterController(ancestors);
      } else {
        var inner := ancestors + [node];
        assert inner[|inner| - 1] == node;
        thrown := ParseSiblings(Children(node), inner);
      }
    }

    /** The registration branch of `parseChildren`: find the enclosing
        `.controller(name, identifier)` call and rename the controller. */
    method RegisterController(ancestors: seq<Node>) returns (thrown: Option<JsError>)
      modifies this
      ensures Registration(old(results), ancestors) == Finish(results, thrown)
    {
      if ancestors == [] {
        return Some(TypeError);
      }
      thrown := None;
      var call := FindRegistration(ancestors);
      if call.Some? {
        var nameText, identText := TextOf(call.value.arguments[0]), TextOf(call.value.arguments[1]);
        if nameText != identText {
          var i := FindIndex(results, (c: Controller) => Some(c.className) == identText);
          if i.Some? {
            results := results[i.value := results[i.value].(name := nameText)];
          }
        }
      }
    }

    /** `getChildren().forEach(parseChildren)`. */
    method ParseSiblings(siblings: seq<Node>, ancestors: seq<Node>) returns (thrown: Option<JsError>)
      requires ancestors != []
      requires forall c :: c in siblings ==> c < ancestors[|ancestors| - 1]
      modifies this
      ensures WalkSeq(env, siblings, ancestors, old(results)) == Finish(results, thrown)
      decreases ancestors[|ancestors| - 1], 0
    {
      thrown := None;
      assert siblings[0..] == siblings;
      for i := 0 to |siblings|
        invariant forall c :: c in siblings[i..] ==> c in siblings
        invariant WalkSeq(env, siblings, ancestors, old(results)) == WalkSeq(env, siblings[i..], ancestors, results)
        invariant thrown.None?
      {
        assert siblings[i] in siblings;
        assert siblings[i..][1..] == siblings[i + 1..];
        thrown := ParseChildren(siblings[i], ancestors);
        if thrown.Some? {
          return;
        }
      }
      assert siblings[|siblings|..] == [];
    }

    /** `retrieveFunctionDeclarationMembers`: scan the body's statements in
        order, tracking the variable `this` was stored in. */
    method RetrieveFunctionDeclarationMembers(declaration: Node) returns (r: Outcome<seq<Member>>)
      requires declaration.FunctionDeclaration?
      ensures r == LegacyMembers(declaration.body, env.checker)
    {
      if declaration.body.NoBody? {
        return Done([]);
      }
      var statements := declaration.body.statements;
      var members: seq<Member> := [];
      var alias: Option<string> := None;
      assert statements[0..] == statements;
      PrependNothing(LegacyScan(statements, alias, env.checker));
      for i := 0 to |statements|
        invariant LegacyScan(statements, None, env.checker)
               == Prepend(members, LegacyScan(statements[i..], alias, env.checker))
      {
        var statement := statements[i];
        assert statements[i..][0] == statement && statements[i..][1..] == statements[i + 1..];
        ghost var aliasBefore := alias;
        if statement.VariableStatement? {
          if statement.declarations == [] {
            return Threw(TypeError);
          }
          var first := statement.declarations[0];
          if first.initializer.Some? && first.initializer.value.ThisKeyword? {
            alias := Some(first.name);
          }
        }
        assert alias == AliasAfter(statement, aliasBefore);
        ghost var added := StatementMembers(statement, alias, env.checker);
        ghost var rest := LegacyScan(statements[i + 1..], alias, env.checker);
        assert LegacyScan(statements[i..], aliasBefore, env.checker) == Prepend(added, rest);
        PrependPrepend(members, added, rest);
        if !(statement.ExpressionStatement? && statement.expression.Binary? && statement.expression.left.PropertyAccess?) {
          assert members + added == members;
          continue;
        }
        var assignment := statement.expression;
        if !assignment.left.expression.ThisKeyword? && Some(assignment.left.name) != alias {
          assert members + added == members;
          continue;
        }
        if assignment.right.ArrowFunction? {
          members := members + [FromFNode(assignment)];
        }
        if !assignment.right.ArrowFunction? && !assignment.right.FunctionExpression? {
          members := members + [FromFProperty(assignment, env.checker)];
        }
      }
      assert statements[|statements|..] == [];
      assert members + [] == members;
      return Done(members);
    }
  }
}
