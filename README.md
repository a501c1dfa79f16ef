# ngComponentUtility core, modelled in Dafny

ngComponentUtility is a VS Code extension for AngularJS 1.5+ components. It
reads the TypeScript and JavaScript files of a workspace, finds

- **controllers**: classes, plus plain functions registered with
  `angular.module(...).controller(name, fn)`, together with their members;
- **components**: calls to `.component(name, config)`, with each one's
  bindings, template, controller alias and controller;

and offers completions inside HTML.

This project models that core. It covers:

- the controller finder (`controllerParser.ts`);
- the members it records (`method.ts`, `property.ts`);
- the template finder (`templateParser.ts`);
- the component finder (`componentParser.ts`);
- the completion provider for component bindings (`bindingProvider.ts`).

The parsed TypeScript tree is a Dafny datatype (`Syntax.Node`). The
controller, member, binding, component, template and completion-item records
are datatypes too (`Records`). Pure logic is written as functions and lemmas:
the members' constructors, template lookup and the binding completion items.

The three classes that update their own fields step by step are Dafny
classes:

- `ControllerParser`, whose results list is extended and renamed in place;
- `ComponentParser`, whose results and identifiers lists grow during the
  walk;
- `BindingProvider`, whose component list is loaded and whose loops scan the
  typed line.

Each method of these classes is proved equal to a specification function of
the old state (`Walk`, `WalkSeq`, `Registration`, `NameStart`, `Collected`,
`CompletionItems`). The properties are proved about those functions.

Several helpers are not part of this model:

- the TypeScript type checker;
- `TypescriptParser`'s string-value and object-literal helpers;
- the `path` module;
- the workspace root;
- the module recogniser `isAngularModule`.

Each of them is a function-valued field of an environment datatype
(`ControllerEnv`, `TemplateEnv`, `ComponentEnv`). A JavaScript exception is
the `Threw` case of `Wrappers.Outcome`, and `undefined` is `None`.

Where the code and the extension's documentation disagree, the
model follows the code:

- Templates are resolved only within the file. Imports and re-exports in
  other files are not followed.
- The `component:` shorthand becomes the pair `<kebab-name></kebab-name>`,
  not a self-closing element.
- A binding's type is the whole initializer text, for example `<?` or `@`.
- A binding's attribute name is always the decamelized property name. An
  explicit name inside the binding string is not split off.
- In `componentParser.ts`:
  - `templateUrl` is joined to the workspace root;
  - an inline `template` is a string literal or `require('...')`;
  - an identifier is not chased to its declaration, even though
    `templateParser.ts` does chase it.
- A component configuration written as `new X()` is not recognised.
- Malformed input does not produce an "unsupported configuration" result.
  It either produces nothing or throws a `TypeError` or `RangeError`, as the
  code does.
- The function-controller scan compares the alias with the assigned member's
  name, not with its receiver (`ControllerExamples.AliasComparesMemberName`).

## Model

| member | source | states |
|---|---|---|
| Members.CreateParameter | src/utils/controller/method.ts:54-59 | a parameter keeps its name; its type is its annotation's text, or `any` without an annotation |
| Members.CreateParameters | src/utils/controller/method.ts:23-25 | parameters are converted one for one, in order |
| Members.FromNode | src/utils/controller/method.ts:16-29 | a method declaration gives a method with its parameters and return type; an arrow-function property gives the arrow's parameters, and its return type, falling back to the property's annotation |
| Members.FromFNode | src/utils/controller/method.ts:35-52 | a `this.x = (...) => ...` assignment gives method `x` with the arrow's parameters and no return type |
| Members.MethodDocumentation | src/utils/controller/method.ts:61-67 | a method's documentation is its signature `name(p1: t1, p2: t2): returnType`, parameters in order, with `undefined` for a missing return type |
| Members.MethodCompletionItem | src/utils/controller/method.ts:61-67 | a method's completion item is a Function item whose documentation is the signature; label, insert text, detail and edits come from the common fields |
| Members.MethodDocumentationNoParameters | src/utils/controller/method.ts:64 | without parameters the signature reads `name(): type`, with `undefined` for a missing return type |
| Members.MethodDocumentationOneParameter | src/utils/controller/method.ts:54-64 | one annotated parameter reads `name(p: T): R` |
| Members.ParameterListCons | src/utils/controller/method.ts:64 | parameters are joined as `name: type` pairs separated by `, ` |
| Members.TypeName | src/utils/controller/property.ts:32-44 | the checker's string, number and boolean flags give `string`, `number` and `boolean`; any other type gives the checker's rendering |
| Members.FromProperty | src/utils/controller/property.ts:15-20 | a property declaration keeps its annotation as its type; a getter uses its return type |
| Members.FromFProperty | src/utils/controller/property.ts:26-46 | a `this.x = value` assignment gives property `x` typed by the checker's view of the value |
| Members.FromConstructorParameter | src/utils/controller/property.ts:48-53 | a constructor parameter gives a property with the parameter's annotation |
| Members.BindingNamed | src/utils/controller/property.ts:60 | finds a binding with the property's name iff one exists, and returns the first one |
| Members.PropertyCompletionItem | src/utils/controller/property.ts:55-67 | a property is a Reference item iff a binding has its name, and its detail then names the first such binding's type; otherwise it is a Field item; its documentation is `Type: ` followed by the type |
| Members.PropertyDocumentationNeverAny | src/utils/controller/property.ts:58 | the fallback to `any` never applies, because it binds after the concatenation with `Type: `: the documentation is never the bare `any` |
| ControllerParsing.CreateMember | src/utils/controller/controllerParser.ts:92-104 | exactly methods, getters and properties become members, under their own names; the member is a method iff it is a method declaration or an arrow-function property |
| ControllerParsing.ElementMembersComplete | src/utils/controller/controllerParser.ts:66-69 | the class members are exactly the members created from the class elements |
| ControllerParsing.ElementMembersAppend | src/utils/controller/controllerParser.ts:66-69 | member creation distributes over concatenated element lists |
| ControllerParsing.ConstructorMembers | src/utils/controller/controllerParser.ts:106-114 | without a constructor there are none; otherwise the parameters of the first constructor that carry a modifier give one property each, in parameter order, with the parameter's name and annotation |
| ControllerParsing.BaseClassName | src/utils/controller/controllerParser.ts:116-130 | a base class is reported iff the first `extends` clause names exactly one type; it is that type's accessed name when qualified (`ns.Base` gives `Base`), otherwise its expression's text |
| ControllerParsing.HeritageTypeTexts | src/utils/controller/controllerParser.ts:136-144 | the texts checked for `IComponentOptions` are exactly those of every type in every heritage clause |
| ControllerParsing.ParseControllerClass | src/utils/controller/controllerParser.ts:62-74 | a class controller has the file's path, the class name as both name and class name, its base class, and its element members followed by its constructor-parameter members |
| ControllerParsing.StatementMembers | src/utils/controller/controllerParser.ts:169-200 | a statement that does not assign a member through `this` or the alias gives nothing; one that does gives nothing for a function expression and otherwise exactly one member, named after the assigned member, a method iff the value is an arrow function |
| ControllerParsing.DeclaringIndices | src/utils/controller/controllerParser.ts:157-200 | the statements that declare a member, in ascending order: exactly those that assign a member through `this` or the alias in force, with a value other than a function expression |
| ControllerParsing.LegacyScanComplete | src/utils/controller/controllerParser.ts:157-200 | a readable body yields one member per declaring statement, in statement order, named after the assigned member and a method iff the value is an arrow function |
| ControllerParsing.LegacyScanThrows | src/utils/controller/controllerParser.ts:160-161 | a variable statement without declarators anywhere in the body makes the scan throw a TypeError |
| ControllerParsing.LegacyScanQuiet | src/utils/controller/controllerParser.ts:157-200 | statements that neither set the alias nor assign a member contribute nothing |
| ControllerParsing.LegacyScanNames | src/utils/controller/controllerParser.ts:157-200 | every member found in a function body is named by an assignment in that body, and there are no more members than statements |
| ControllerParsing.FindRegistration | src/utils/controller/controllerParser.ts:76-90 | finds the innermost `.controller(...)` call among the ancestors iff one exists; it has two arguments |
| ControllerParsing.Register | src/utils/controller/controllerParser.ts:47-52 | nothing changes when the name and identifier texts are equal; otherwise only the first controller whose class name matches the identifier is renamed, to the registered name; no other field and no other controller changes |
| ControllerParsing.WalkGrows | src/utils/controller/controllerParser.ts:22-60 | walking a node keeps every earlier controller's path, class and members, and may only add controllers of this file |
| ControllerParsing.WalkSeqGrows | src/utils/controller/controllerParser.ts:54-59 | walking children in order keeps the same invariant |
| ControllerParsing.WalkFunctionDeclaration | src/utils/controller/controllerParser.ts:23-33 | a function declaration appends exactly one controller, with the function's name as name and class name and the legacy scan's members, and its body is not walked; a missing name or a throwing scan throws |
| ControllerParsing.WalkClassDeclaration | src/utils/controller/controllerParser.ts:34-37 | a named class appends `ParseControllerClass` of it exactly when it does not implement `IComponentOptions`, and is otherwise walked into |
| ControllerParsing.ControllerParser.constructor | src/utils/controller/controllerParser.ts:11-14 | a new controller finder starts with no results |
| ControllerParsing.ControllerParser.Parse | src/utils/controller/controllerParser.ts:16-20 | parsing the file gives the walk's results and keeps the earlier results |
| ControllerParsing.ControllerParser.ParseChildren | src/utils/controller/controllerParser.ts:22-60 | each step updates the results exactly as the walk specifies, or throws where the walk throws |
| ControllerParsing.ControllerParser.RegisterController | src/utils/controller/controllerParser.ts:38-53 | a registration renames in place as `Registration` specifies |
| ControllerParsing.ControllerParser.ParseSiblings | src/utils/controller/controllerParser.ts:54-59 | the loop over children leaves the results of the sequential walk |
| ControllerParsing.ControllerParser.RetrieveFunctionDeclarationMembers | src/utils/controller/controllerParser.ts:146-213 | the loop over a function body's statements returns the members of the legacy scan |
| ControllerExamples.TheControllerMembers | test/test_files/components/component_imported_templateComponent.ts:11-48 | `theController` yields properties name, age and person and method getName, all assigned through `this`; the assignments through `vm` give nothing |
| ControllerExamples.AliasComparesMemberName | src/utils/controller/controllerParser.ts:177-184 | `vm.x = 1` after `var vm = this` is skipped, while `other.vm = 1` is recorded |
| ControllerExamples.EmptyDeclarationListThrows | src/utils/controller/controllerParser.ts:160-162 | a variable statement without declarations throws a TypeError |
| ControllerExamples.TestControllerMembers | test/test_files/controllers/controller_membersController.ts:4-17 | TestController has four typed fields, then testMethod and arrowFunction with their parameters |
| ControllerExamples.ComponentOptionsClassExcluded | src/utils/controller/controllerParser.ts:132-144 | a class implementing `ng.IComponentOptions` is not a controller |
| ControllerExamples.ComponentOptionsTypeArgumentExcluded | src/utils/controller/controllerParser.ts:136-144 | mentioning `IComponentOptions` only in a type argument also excludes the class |
| ControllerExamples.QualifiedBaseClass | src/utils/controller/controllerParser.ts:116-130 | a qualified base class `ns.Base<T>` is reported as `Base` |
| ControllerExamples.RegistrationAfterClassRenames | src/utils/controller/controllerParser.ts:34-53 | a `.controller('Renamed', X)` after class X renames X |
| ControllerExamples.RegistrationBeforeClassIgnored | src/utils/controller/controllerParser.ts:34-53 | the same registration before the class leaves X under its own name |
| TemplateParsing.UrlTemplate | src/utils/templateParser.ts:76-87 | a `templateUrl` with a truthy string value is the file template at its absolute path, read from the start; any other value gives none |
| TemplateParsing.HtmlImport | src/utils/templateParser.ts:52-53 | returns the first import whose module specifier contains `.html`, iff there is one |
| TemplateParsing.FirstVariableStatement | src/utils/templateParser.ts:65-67 | only the first variable statement of the file is considered |
| TemplateParsing.DeclarationNamed | src/utils/templateParser.ts:65-70 | throws when the file has no variable statement; otherwise finds the declaration of the name in that statement |
| TemplateParsing.InlineTemplate | src/utils/templateParser.ts:29-74 | nothing gives none; a string or template literal is the file's own template with the literal's text as body; an `import`/`require` call with one argument is the file its argument names next to the source, or a TypeError when the argument has no text; any other call gives none; an identifier is the file of the first `.html` import when that has a non-empty string value, and otherwise a TypeError when the file has no variable statement or its first one does not declare the name; any other kind gives none |
| TemplateParsing.IdentifierFollowsDeclaration | src/utils/templateParser.ts:65-72 | when no `.html` import has a non-empty string value (none exists, or its value is empty or undefined), an identifier not chased yet resolves to whatever its declaration's initializer resolves to, and one chased before throws a RangeError |
| TemplateParsing.VisitedOnlyMattersForIdentifiers | src/utils/templateParser.ts:29-48 | the names already chased affect only identifier lookups |
| TemplateParsing.HtmlImportWins | src/utils/templateParser.ts:49-63 | an identifier in a file with an `.html` import resolves to that imported file |
| TemplateParsing.AsComponentTag | src/utils/templateParser.ts:21-24 | the literal's text becomes the open and close tag of its kebab-cased name |
| TemplateParsing.ComponentDefTemplate | src/utils/templateParser.ts:16-27 | a literal `component:` value gives the file's literal template holding that tag pair; an identifier throws a TypeError because its `text` cannot be written; absent gives none |
| TemplateParsing.ComponentTagOfCamelName | src/utils/templateParser.ts:22-24 | for a camel-case name made of ASCII letters the tag is the name with hyphens before capitals, lower-cased |
| TemplateParsing.CreateTemplate | src/utils/templateParser.ts:10-14 | the template comes from `templateUrl`, else `template`, else `component` |
| TemplateParsing.UrlFirst | src/utils/templateParser.ts:11 | a URL template wins over the others |
| TemplateParsing.InlineBeforeComponent | src/utils/templateParser.ts:12 | without a URL, an inline template wins over the component shorthand |
| TemplateParsing.ComponentLast | src/utils/templateParser.ts:13 | the component shorthand is used only when the others give nothing |
| ComponentParsing.ComponentConfig | src/utils/component/componentParser.ts:47-53 | an object literal is the configuration itself; an identifier gives the object literal the file's parser finds for it among the identifiers recorded so far; anything else gives none |
| ComponentParsing.CreateBinding | src/utils/component/componentParser.ts:138-146 | a binding keeps the property name, takes the initializer text as its type, and the decamelized name as its attribute |
| ComponentParsing.BindingsOf | src/utils/component/componentParser.ts:67-71 | no `bindings` gives none; a non-object throws a TypeError; otherwise there is one binding per property, in order |
| ComponentParsing.BindingHtmlNamesLowerCase | src/utils/component/componentParser.ts:142 | attribute names of camel-case bindings have no upper-case letter |
| ComponentParsing.UrlTemplate | src/utils/component/componentParser.ts:125-136 | a truthy `templateUrl` is a file template under the workspace root |
| ComponentParsing.InlineTemplate | src/utils/component/componentParser.ts:103-123 | a literal is the file's own template; `require('x')` is file x next to the source, or a TypeError without an argument text; anything else gives none |
| ComponentParsing.TemplateOf | src/utils/component/componentParser.ts:73-76 | a URL template is preferred over an inline one |
| ComponentParsing.UrlTemplateFirst | src/utils/component/componentParser.ts:73-76 | with a URL template present, the inline template is not consulted |
| ComponentParsing.ControllerAlias | src/utils/component/componentParser.ts:148-155 | the alias is `$ctrl` without `controllerAs`, otherwise that property's text |
| ComponentParsing.ControllerFor | src/utils/component/componentParser.ts:91-101 | a string controller matches by registered name, an identifier by class name; the first match is taken |
| ComponentParsing.ControllerByName | src/utils/component/componentParser.ts:96-97 | a string controller is found iff some controller has that name, and the first one is returned |
| ComponentParsing.ControllerByClassName | src/utils/component/componentParser.ts:98-99 | an identifier controller is found iff some controller has that class name, and the first one is returned |
| ComponentParsing.CreateComponent | src/utils/component/componentParser.ts:55-89 | a component without a truthy name is skipped; with a truthy name a failing configuration lookup throws, and every run that does not throw gives a component, with the name, the bindings, the template and the alias, plus a linked controller only when controllers are known; errors propagate |
| ComponentParsing.WalkRegistration | src/utils/component/componentParser.ts:27-36 | a registration appends the component it builds and changes nothing else, leaves the scan alone when the name is not truthy, and throws when building throws |
| ComponentParsing.WalkKeeps | src/utils/component/componentParser.ts:23-45 | the walk keeps earlier results and identifiers as prefixes, and every added component has a non-empty name |
| ComponentParsing.WalkSeqKeeps | src/utils/component/componentParser.ts:43 | walking children in order keeps the same invariant |
| ComponentParsing.RegistrationNotDescended | src/utils/component/componentParser.ts:24-39 | a registration call adds at most its own component and is not walked into |
| ComponentParsing.ComponentParser.constructor | src/utils/component/componentParser.ts:10-16 | a new component finder holds the given controllers and starts with no results |
| ComponentParsing.ComponentParser.Parse | src/utils/component/componentParser.ts:17-21 | parsing gives the walk's results |
| ComponentParsing.ComponentParser.ParseChildren | src/utils/component/componentParser.ts:23-45 | each step updates results and identifiers exactly as the walk specifies |
| ComponentParsing.ComponentParser.ParseSiblings | src/utils/component/componentParser.ts:43 | the loop over children leaves the state of the sequential walk |
| ComponentExamples.ImportedTemplateResolved | test/test_files/components/component_imported_templateComponent.ts:2-62 | `template: template` with `import template from './template.html'` resolves to `./template.html` next to the file |
| ComponentExamples.ImportedComponent | test/test_files/components/component_imported_templateComponent.ts:49-62 | the component finder gives binding `data` of type `<`, alias `$ctrl` and controller `theController`, but no template |
| ComponentExamples.ImportedComponentRegistered | test/test_files/components/component_imported_templateComponent.ts:63-66 | the registration appends exactly that component |
| ComponentExamples.UnnamedComponentIgnored | src/utils/component/componentParser.ts:56-59 | a registration whose name has no string value adds nothing |
| ComponentExamples.SelfReferenceOverflows | src/utils/templateParser.ts:65-72 | `const t = t` used as a template exhausts the stack (RangeError) |
| ComponentExamples.ChainedDeclarations | src/utils/templateParser.ts:65-72 | `a = b, b = require('./x.html')` resolves `a` to `./x.html` |
| ComponentExamples.SecondStatementNotSearched | src/utils/templateParser.ts:65-70 | a name declared only in the second variable statement throws a TypeError |
| ComponentExamples.CompletionExample | src/providers/bindingProvider.ts:11-81 | on `ab,x=,` only binding `y` is offered, and the tag item fills `x="$ctrl.x"` |
| BindingCompletion.RunStart | src/providers/bindingProvider.ts:16-22 | the name starts after the last non-name character before the comma: the run of letters and hyphens is maximal |
| BindingCompletion.ComponentNameIsRun | src/providers/bindingProvider.ts:24-26 | the component name is the run of name characters ending at the first comma, empty when there is no comma |
| BindingCompletion.Put | src/providers/bindingProvider.ts:50 | assigning an attribute replaces the first entry with the same key, or appends a new key at the end |
| BindingCompletion.LookupPut | src/providers/bindingProvider.ts:50 | after an assignment the key reads the new value, and every other key is unchanged |
| BindingCompletion.PutDistinct | src/providers/bindingProvider.ts:50 | assigning keeps keys distinct |
| BindingCompletion.PutKeys | src/providers/bindingProvider.ts:50 | the keys after an assignment are the old keys plus the assigned one |
| BindingCompletion.SegmentValue | src/providers/bindingProvider.ts:38-48 | an empty value becomes `alias.binding` for a known attribute, or empty for an unknown one; a value is prefixed with `alias.` unless it already starts with the alias |
| BindingCompletion.LastValue | src/providers/bindingProvider.ts:37-51 | a key has a value iff some written segment names it |
| BindingCompletion.CollectedAttributes | src/providers/bindingProvider.ts:37-51 | the collected attributes have distinct keys, and each key holds the value of its last segment |
| BindingCompletion.OfferedIffNotWritten | src/providers/bindingProvider.ts:58-61 | a binding is offered iff no written segment names its attribute |
| BindingCompletion.WrittenSegments | src/providers/bindingProvider.ts:35-36 | with a single comma no attribute has been written |
| BindingCompletion.BindingItem | src/providers/bindingProvider.ts:62-70 | a binding item is a Field labelled with the attribute name, inserting `name=`, documented with the binding type |
| BindingCompletion.CommandItem | src/providers/bindingProvider.ts:72-76 | the last item is a Function item `Resolve component`, inserting the tag with the collected attributes and deleting the typed text |
| BindingCompletion.Unused | src/providers/bindingProvider.ts:58-61 | the offered bindings are exactly the component's bindings whose attribute is not written |
| BindingCompletion.UnusedInOrder | src/providers/bindingProvider.ts:58-61 | the unused bindings keep binding order and multiplicity: split bindings give the unused of each part in turn, and a single binding is kept iff its attribute is not written |
| BindingCompletion.BindingCompletions | src/providers/bindingProvider.ts:57-81 | one item per unused binding, in order, followed by the command item |
| BindingCompletion.CompletionItems | src/providers/bindingProvider.ts:11-55 | throws iff no components were loaded |
| BindingCompletion.UnknownComponentNoItems | src/providers/bindingProvider.ts:28-32 | a line naming no known component gives no items |
| BindingCompletion.KnownComponentItems | src/providers/bindingProvider.ts:28-81 | a line naming a known component gives exactly that component's completions for the attributes collected from the written segments: binding items of that component followed by the command item |
| BindingCompletion.TextAfterLastCommaIgnored | src/providers/bindingProvider.ts:12-36 | text typed after the last comma changes neither the component found, nor the written attributes, nor the items |
| BindingCompletion.SingleCommaBareTag | src/providers/bindingProvider.ts:34-76 | with one comma every binding is offered and the tag has no attributes |
| BindingCompletion.BindingProvider.constructor | src/providers/bindingProvider.ts:6 | a new provider has no components loaded |
| BindingCompletion.BindingProvider.LoadComponents | src/providers/bindingProvider.ts:8-10 | loading replaces the component list |
| BindingCompletion.BindingProvider.ComponentNameStart | src/providers/bindingProvider.ts:13-22 | the backward scan stops where the name starts |
| BindingCompletion.BindingProvider.CollectExisting | src/providers/bindingProvider.ts:37-51 | the loop over written segments builds the collected attributes |
| BindingCompletion.BindingProvider.ProvideCompletionItems | src/providers/bindingProvider.ts:11-55 | the provider returns the specified completion items for the line |
| Strings.DecamelizeCamelName | src/utils/component/componentParser.ts:142 | decamelizing a camel-case name puts the separator before each capital and lower-cases it |

## Left out

- Source positions, text ranges and `console.log` output are not modelled.
- VS Code's document API becomes a line of text and a position. `lineAt` is
  not modelled, and neither is the validation that `Range` does on a
  negative start.
- `existingBindings` is modelled as an insertion-ordered key list. JavaScript
  lists integer-like keys first; that ordering is not modelled.
- BindingCompletion.Put: records every key, `__proto__` included. In the code
  `existingBindings` is a plain object, so assigning a string to its
  `__proto__` goes to the inherited setter, which ignores it, and
  `Object.keys` never lists that key. On a line such as `ab,__proto__=x,` the
  model puts `__proto__="$ctrl.x"` into the tag where the code puts nothing.
- KebabCase: lodash's `kebabCase` is approximated by hyphenating decamelize.
  They agree on camel-case names made of ASCII letters, which is all
  `ComponentTagOfCamelName` states. Not modelled: lodash's word splitting
  on digits (`comp2` gives `comp-2`), on `_`, spaces and other punctuation,
  and its accent stripping (`deburr`, so `café` gives `cafe`).
- Decamelize: only ASCII letters are treated as cased.
- `retrieveFunctionDeclarationMembersX` is not called anywhere and is not
  modelled.
- `configurationChangeListener.ts` and `glob.ts` are not part of this model.
  They handle settings and file system search.
- Looking up imported templates or configurations in other files is not
  modelled. The code does not do it either.
- Every parser works on an immutable tree, so the model does not capture
  aliasing. In particular, `createFromComponentDef` overwrites the literal's
  `text` in place; the model passes a rewritten copy.
- These oracles are parameters of the environment datatypes and are not
  specified further:
  - `TypescriptParser.getStringValueFromNode` and
    `getObjectLiteralVariableValue`;
  - `translateObjectLiteral` and `ConfigParser`;
  - the type checker;
  - `path.join`, `path.dirname` and `toAbsolutePath`;
  - `workspaceRoot`;
  - `isAngularModule`.
- `fillCommonFields` and `setReturnType` are not part of this model. The
  completion-item base that `fillCommonFields` builds is a parameter. A
  member's name is assumed to be the declared name. `setReturnType` is
  assumed to take the given type annotation and to keep the type already set
  when there is none; that assumption is what makes `FromNode` fall back to
  the property's annotation for an arrow without one.
- `Component.htmlName` is modelled as the decamelized component name.
- Shorthand and spread object members, and other property kinds, are not
  distinguished from assignments.
- Names held as strings are not nodes, so the component finder's identifier
  list, which `getChildren` fills with every identifier node, lacks them:
  variable-declaration names, property-access names (`module` in
  `angular.module`), object-literal keys, and function, class, parameter and
  import-clause names. It holds only the identifier nodes the model's tree keeps.
- ControllerParsing.StatementMembers: states the member's name and kind but
  not its parameters or type, which `FromFNode` and `FromFProperty` state (the
  type comes from the unmodelled type checker).
- Character offsets are counted in Unicode scalar values. JavaScript's
  `indexOf`, `substring` and VS Code's `position.character` count UTF-16 code
  units, so `NameStart` and the delete range of `CommandItem` differ from the
  code on a line with a character outside the Basic Multilingual Plane before
  the component name.
- TemplateParsing.ComponentDefTemplate: the TypeError for an identifier
  rests on the compiled module running in strict mode and on the TypeScript
  compiler's identifier nodes exposing `text` through a getter only.
- ComponentParsing.CreateComponent: step-by-step assignment to a `Component`
  object is modelled as building one value.
