/** The records the analyser produces: controller members, controllers,
    component bindings, templates and components, and the completion items
    the editor is offered. Source positions are not kept, except whether a
    template sits at the top of its file or at the literal it came from. */
module Records {
  import opened Wrappers
  import opened Strings

  datatype MemberKind = Method | Property

  /** One method parameter: its name and its type's text (`any` when unannotated). */
  datatype Parameter = Parameter(name: string, typeName: string)

  /** A controller member. `returnType` is `undefined` when nothing supplied it. */
  datatype Member =
    | ClassMethod(name: string, parameters: seq<Parameter>, returnType: Option<string>)
    | ClassProperty(name: string, returnType: Option<string>)
  {
    /** The member's `type` field. */
    function Kind(): MemberKind
    {
      if ClassMethod? then Method else Property
    }
  }

  /** A controller: its registered `name` (which a registration may set to
      `undefined`), its declaring `className`, its base class and members. */
  datatype Controller = Controller(
    path: string,
    name: Option<string>,
    className: string,
    baseClassName: Option<string>,
    members: seq<Member>)

  /** A component binding; `typeName` is the initializer's `.text`, `undefined`
      when the initializer has none. */
  datatype Binding = Binding(name: string, typeName: Option<string>, htmlName: string)

  /** Where a template is declared: the top of its file, or the start of the
      literal it was read from. */
  datatype TemplatePosition = FileStart | LiteralStart

  /** A template: its file, its position, and its body when given inline. */
  datatype Template = Template(path: string, pos: TemplatePosition, body: Option<string>)

  datatype Component = Component(
    name: string,
    bindings: seq<Binding>,
    template: Option<Template>,
    controllerAs: Option<string>,
    controller: Option<Controller>)
  {
    /** The tag name a component is used under. */
    function HtmlName(): string
    {
      Decamelize(name, '-')
    }
  }

  datatype ItemKind = Field | Function | Reference

  datatype Range = Range(startLine: int, startCharacter: int, endLine: int, endCharacter: int)

  /** A `TextEdit.delete` of a range. */
  datatype TextEdit = Delete(range: Range)

  datatype CompletionItem = CompletionItem(
    labelText: string,
    kind: ItemKind,
    insertText: Option<string>,
    detail: Option<string>,
    documentation: Option<string>,
    additionalTextEdits: seq<TextEdit>)
}
