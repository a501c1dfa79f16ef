/** Completion of component bindings in a template. The line being typed
    holds a component's html name followed by a comma and the bindings
    already written (`my-comp,data=vm.x,`); the provider offers every
    binding not yet written, then one item that replaces the typed text by
    the component's tag with its attributes. */
module BindingCompletion {
  import opened Wrappers
  import opened Strings
  import opened Arrays
  import opened Records

  /** A cursor position: line and character. */
  datatype Position = Position(line: int, character: int)

  /** A binding already written on the line, as the attribute it becomes. */
  datatype Attribute = Attribute(key: string, value: string)

  // ---------------------------------------------------------------------
  // The component name
  // ---------------------------------------------------------------------

  /** The characters a component's html name is made of (`/[a-z-]/i`). */
  predicate IsNameChar(c: char)
  {
    IsUpper(c) || IsLower(c) || c == '-'
  }

  /** The start of the longest run of name characters ending just before `j`. */
  function RunStart(line: string, j: nat): (r: nat)
    requires j <= |line|
    ensures r <= j
    ensures forall k :: r <= k < j ==> IsNameChar(line[k])
    ensures r == 0 || !IsNameChar(line[r - 1])
  {
    if j == 0 then 0
    else if IsNameChar(line[j - 1]) then RunStart(line, j - 1)
    else j
  }

  /** Where the typed component name starts: at the run of name characters
      before the first comma; one before that comma when the line has it at
      its very start, and -2 when the line has no comma. */
  function NameStart(line: string): int
  {
    var comma := IndexOf(line, ',');
    if comma <= 0 then comma - 1 else RunStart(line, comma)
  }

  /** The typed component name: from its start to the first comma after it. */
  function ComponentName(line: string): string
  {
    var start := NameStart(line);
    Substring(line, start, IndexOfFrom(line, ',', start))
  }

  /** The name is the longest run of name characters ending right before
      the first comma; it is empty when the line has no comma or a
      character other than a letter or `-` stands before it. */
  lemma ComponentNameIsRun(line: string)
    ensures var comma := IndexOf(line, ',');
      (comma < 0 ==> ComponentName(line) == "")
      && (comma >= 0 ==>
            var start := NameStart(line);
            0 <= comma <= |line| && (comma == 0 || 0 <= start <= comma)
            && ComponentName(line) == line[if comma == 0 then 0 else start..comma]
            && (forall k :: 0 <= k < |ComponentName(line)| ==> IsNameChar(ComponentName(line)[k]))
            && (comma > 0 && !IsNameChar(line[comma - 1]) ==> ComponentName(line) == ""))
  {
    var comma := IndexOf(line, ',');
    if comma >= 0 {
      var start := NameStart(line);
      var s := if start < 0 then 0 else start;
      assert IndexOfFrom(line, ',', start) == IndexFrom(line, ',', s);
      assert IndexFrom(line, ',', s) == comma;
    }
  }

  // ---------------------------------------------------------------------
  // The bindings already written
  // ---------------------------------------------------------------------

  /** `existingBindings[key] = value`: a key already present keeps its
      place and takes the new value; a new key goes last. */
  function Put(attributes: seq<Attribute>, a: Attribute): (r: seq<Attribute>)
    ensures (forall i :: 0 <= i < |attributes| ==> attributes[i].key != a.key) ==> r == attributes + [a]
    ensures forall i :: (0 <= i < |attributes| && attributes[i].key == a.key
                         && forall j :: 0 <= j < i ==> attributes[j].key != a.key) ==> r == attributes[i := a]
  {
    if attributes == [] then [a]
    else if attributes[0].key == a.key then [a] + attributes[1..]
    else [attributes[0]] + Put(attributes[1..], a)
  }

  /** `existingBindings[key]`: the value recorded under `key`, if any. */
  function Lookup(attributes: seq<Attribute>, key: string): Option<string>
  {
    if attributes == [] then None
    else if attributes[0].key == key then Some(attributes[0].value)
    else Lookup(attributes[1..], key)
  }

  /** Reading a key after `Put` gives the value just put, or the value it
      had before for any other key. */
  lemma {:induction false} LookupPut(attributes: seq<Attribute>, a: Attribute, key: string)
    ensures Lookup(Put(attributes, a), key) == if key == a.key then Some(a.value) else Lookup(attributes, key)
  {
    if attributes != [] && attributes[0].key != a.key {
      LookupPut(attributes[1..], a, key);
      assert ([attributes[0]] + Put(attributes[1..], a))[1..] == Put(attributes[1..], a);
    } else if attributes != [] {
      assert ([a] + attributes[1..])[1..] == attributes[1..];
    }
  }

  /** `Put` never records a key twice. */
  lemma {:induction false} PutDistinct(attributes: seq<Attribute>, a: Attribute)
    requires DistinctKeys(attributes)
    ensures DistinctKeys(Put(attributes, a))
  {
    if attributes != [] && attributes[0].key != a.key {
      PutDistinct(attributes[1..], a);
      PutKeys(attributes[1..], a);
      var rest := Put(attributes[1..], a);
      forall k | 0 <= k < |rest| ensures rest[k].key != attributes[0].key {
        assert rest[k].key in Keys(rest);
      }
    }
  }

  /** The keys after `Put`: the keys before and the key put. */
  lemma PutKeys(attributes: seq<Attribute>, a: Attribute)
    ensures forall key :: key in Keys(Put(attributes, a)) <==> key in Keys(attributes) || key == a.key
  {
    forall key ensures key in Keys(Put(attributes, a)) <==> key in Keys(attributes) || key == a.key {
      LookupPut(attributes, a, key);
      LookupKeys(Put(attributes, a), key);
      LookupKeys(attributes, key);
    }
  }

  /** The keys of an attribute list, in order. */
  function Keys(attributes: seq<Attribute>): (r: seq<string>)
    ensures |r| == |attributes|
    ensures forall i :: 0 <= i < |attributes| ==> r[i] == attributes[i].key
  {
    seq(|attributes|, i requires 0 <= i < |attributes| => attributes[i].key)
  }

  predicate DistinctKeys(attributes: seq<Attribute>)
  {
    forall i, j :: 0 <= i < j < |attributes| ==> attributes[i].key != attributes[j].key
  }

  /** The attribute name of a written binding: the text before its first `=`. */
  function SegmentKey(segment: string): string
  {
    Split(segment, '=')[0]
  }

  /** The value a written binding gets (`split[1] || ''`, then completed):
      an empty value becomes `controllerAs.name` of the binding with that
      attribute name, and stays empty when there is none; a value not
      starting with the controller alias gets `controllerAs.` in front; an
      already prefixed value is kept. */
  function SegmentValue(component: Component, segment: string): (r: string)
    ensures var parts := Split(segment, '=');
      var alias := Show(component.controllerAs);
      var value := if |parts| >= 2 then parts[1] else "";
      var binding := Find(component.bindings, (b: Binding) => b.htmlName == parts[0]);
      (value == "" && binding.Some? ==> r == alias + "." + binding.value.name)
      && (value == "" && binding.None? ==> r == "")
      && (value != "" && !StartsWith(value, alias) ==> r == alias + "." + value)
      && (value != "" && StartsWith(value, alias) ==> r == value)
    ensures r == "" || StartsWith(r, Show(component.controllerAs))
  {
    var parts := Split(segment, '=');
    var alias := Show(component.controllerAs);
    var value := if |parts| >= 2 then parts[1] else "";
    if value == "" then
      var binding := Find(component.bindings, (b: Binding) => b.htmlName == parts[0]);
      if binding.Some? then alias + "." + binding.value.name else ""
    else if !StartsWith(value, alias) then alias + "." + value
    else value
  }

  /** The `forEach` over the written segments, as a fold from the left. */
  function Collected(component: Component, segments: seq<string>): seq<Attribute>
  {
    if segments == [] then []
    else
      var last := segments[|segments| - 1];
      Put(Collected(component, segments[..|segments| - 1]), Attribute(SegmentKey(last), SegmentValue(component, last)))
  }

  /** Reference reading of the written segments: the value of the last
      segment written under `key`, if any. */
  function LastValue(component: Component, segments: seq<string>, key: string): (r: Option<string>)
    ensures r.Some? <==> exists j :: 0 <= j < |segments| && SegmentKey(segments[j]) == key
  {
    if segments == [] then None
    else
      var last := segments[|segments| - 1];
      if SegmentKey(last) == key then Some(SegmentValue(component, last))
      else
        var r := LastValue(component, segments[..|segments| - 1], key);
        assert forall j :: 0 <= j < |segments| - 1 ==> segments[..|segments| - 1][j] == segments[j];
        r
  }

  /** Each attribute name is recorded once, and under each name the value
      of the last segment written with it. */
  lemma {:induction false} CollectedAttributes(component: Component, segments: seq<string>)
    ensures DistinctKeys(Collected(component, segments))
    ensures forall key :: Lookup(Collected(component, segments), key) == LastValue(component, segments, key)
  {
    if segments != [] {
      var n := |segments| - 1;
      var last := segments[n];
      var before := Collected(component, segments[..n]);
      var a := Attribute(SegmentKey(last), SegmentValue(component, last));
      CollectedAttributes(component, segments[..n]);
      PutDistinct(before, a);
      forall key ensures Lookup(Collected(component, segments), key) == LastValue(component, segments, key) {
        LookupPut(before, a, key);
      }
    }
  }

  /** A key is recorded exactly when some segment was written under it. */
  lemma {:induction false} LookupKeys(attributes: seq<Attribute>, key: string)
    ensures Lookup(attributes, key).Some? <==> key in Keys(attributes)
  {
    if attributes != [] {
      LookupKeys(attributes[1..], key);
      assert Keys(attributes) == [attributes[0].key] + Keys(attributes[1..]);
    }
  }

  /** A binding is offered exactly when no segment was written under its
      attribute name. */
  lemma OfferedIffNotWritten(component: Component, segments: seq<string>, b: Binding)
    requires b in component.bindings
    ensures b in Unused(component, Collected(component, segments))
        <==> forall j :: 0 <= j < |segments| ==> SegmentKey(segments[j]) != b.htmlName
  {
    var attributes := Collected(component, segments);
    CollectedAttributes(component, segments);
    LookupKeys(attributes, b.htmlName);
    var i :| 0 <= i < |component.bindings| && component.bindings[i] == b;
  }

  /** The segments written between the first and the last comma; the text
      after the last comma is still being typed and is not read. With a
      single comma nothing has been written. */
  function WrittenSegments(line: string, firstComma: int, lastComma: int): (r: seq<string>)
    ensures firstComma == lastComma ==> r == []
  {
    if firstComma != lastComma then Split(Substring(line, firstComma + 1, lastComma), ',') else []
  }

  // ---------------------------------------------------------------------
  // The items
  // ---------------------------------------------------------------------

  /** The item offering one binding; the leading spaces sort it first. */
  function BindingItem(b: Binding): (item: CompletionItem)
    ensures item.kind == Field && item.insertText == Some(b.htmlName + "=")
    ensures item.labelText == "  " + b.htmlName && item.detail == Some("Component binding")
    ensures item.documentation == Some("Binding type: " + Show(b.typeName))
  {
    CompletionItem("  " + b.htmlName, Field, Some(b.htmlName + "="), Some("Component binding"),
                   Some("Binding type: " + Show(b.typeName)), [])
  }

  /** `key="value"` for each attribute, separated by spaces. */
  function AttributeText(attributes: seq<Attribute>): string
  {
    Join(seq(|attributes|, i requires 0 <= i < |attributes| => attributes[i].key + "=\"" + attributes[i].value + "\""), " ")
  }

  /** The item that writes the component's tag, with its attributes and its
      closing tag, over the text typed since the name's start. */
  function CommandItem(component: Component, attributes: seq<Attribute>, position: Position, startIndex: int): (item: CompletionItem)
    ensures item.kind == Function && item.labelText == " Resolve component"
    ensures item.insertText == Some("<" + component.HtmlName() + " " + AttributeText(attributes) + "></" + component.HtmlName() + ">")
    ensures item.additionalTextEdits == [Delete(Range(position.line, startIndex, position.line, position.character))]
  {
    var h := component.HtmlName();
    CompletionItem(" Resolve component", Function, Some("<" + h + " " + AttributeText(attributes) + "></" + h + ">"),
                   None, None, [Delete(Range(position.line, startIndex, position.line, position.character))])
  }

  /** The test a binding passes while its attribute has not been written. */
  function Unwritten(attributes: seq<Attribute>): Binding -> bool
  {
    var keys := Keys(attributes);
    (b: Binding) => b.htmlName !in keys
  }

  /** The bindings whose attribute has not been written yet, in binding order. */
  function Unused(component: Component, attributes: seq<Attribute>): (r: seq<Binding>)
    ensures forall i :: 0 <= i < |r| ==> r[i] in component.bindings && r[i].htmlName !in Keys(attributes)
    ensures forall i :: 0 <= i < |component.bindings| && component.bindings[i].htmlName !in Keys(attributes) ==>
      component.bindings[i] in r
  {
    Filter(component.bindings, Unwritten(attributes))
  }

  /** The unused bindings keep binding order and multiplicity: a run of
      bindings followed by another gives the unused ones of the first run
      followed by those of the second, and a single binding is unused exactly
      when its attribute is not written. */
  lemma UnusedInOrder(component: Component, attributes: seq<Attribute>, a: seq<Binding>, b: seq<Binding>)
    requires component.bindings == a + b
    ensures Unused(component, attributes)
         == Unused(component.(bindings := a), attributes) + Unused(component.(bindings := b), attributes)
    ensures |b| == 1 ==>
      Unused(component.(bindings := b), attributes) == if b[0].htmlName in Keys(attributes) then [] else b
  {
    FilterAppend(a, b, Unwritten(attributes));
    if |b| == 1 {
      assert b == [b[0]];
      FilterOne(b[0], Unwritten(attributes));
    }
  }

  /** `provideBindingCompletions`. */
  function BindingCompletions(component: Component, attributes: seq<Attribute>, position: Position, startIndex: int): (r: seq<CompletionItem>)
    ensures var unused := Unused(component, attributes);
      |r| == |unused| + 1
      && (forall i :: 0 <= i < |unused| ==> r[i] == BindingItem(unused[i]))
      && r[|unused|] == CommandItem(component, attributes, position, startIndex)
  {
    var unused := Unused(component, attributes);
    seq(|unused|, i requires 0 <= i < |unused| => BindingItem(unused[i])) + [CommandItem(component, attributes, position, startIndex)]
  }

  /** `provideCompletionItems` on the text of the cursor's line: nothing
      unless a loaded component has the typed name as its html name; a
      `TypeError` when no components were loaded. */
  function CompletionItems(components: Option<seq<Component>>, line: string, position: Position): (r: Outcome<seq<CompletionItem>>)
    ensures components.None? <==> r.Threw?
  {
    if components.None? then Threw(TypeError)
    else
      var startIndex := NameStart(line);
      var firstComma := IndexOfFrom(line, ',', startIndex);
      var name := Substring(line, startIndex, firstComma);
      var component := Find(components.value, (c: Component) => c.HtmlName() == name);
      if component.None? then Done([])
      else
        var attributes := Collected(component.value, WrittenSegments(line, firstComma, LastIndexOf(line, ',')));
        Done(BindingCompletions(component.value, attributes, position, startIndex))
  }

  /** No component under the typed name: no items. */
  lemma UnknownComponentNoItems(components: seq<Component>, line: string, position: Position)
    requires forall i :: 0 <= i < |components| ==> components[i].HtmlName() != ComponentName(line)
    ensures CompletionItems(Some(components), line, position) == Done([])
  {
  }

  /** The items for one component: binding items inserting `name=` for
      bindings of that component, then the tag item. */
  lemma ComponentItemsShape(component: Component, attributes: seq<Attribute>, position: Position, startIndex: int)
    ensures var r := BindingCompletions(component, attributes, position, startIndex);
      |r| >= 1 && r[|r| - 1].kind == Function
      && forall k :: 0 <= k < |r| - 1 ==>
           r[k].kind == Field && exists b :: b in component.bindings && r[k].insertText == Some(b.htmlName + "=")
  {
    var r := BindingCompletions(component, attributes, position, startIndex);
    var unused := Unused(component, attributes);
    forall k | 0 <= k < |r| - 1
      ensures r[k].kind == Field && exists b :: b in component.bindings && r[k].insertText == Some(b.htmlName + "=")
    {
      assert r[k] == BindingItem(unused[k]);
      assert unused[k] in component.bindings;
    }
  }

  /** A known component: one item per binding not yet written, each
      inserting `name=`, and the tag item last. */
  lemma KnownComponentItems(components: seq<Component>, line: string, position: Position, i: nat)
    requires i < |components| && components[i].HtmlName() == ComponentName(line)
    requires forall j :: 0 <= j < i ==> components[j].HtmlName() != ComponentName(line)
    ensures var r := CompletionItems(Some(components), line, position);
      r.Done? && |r.value| >= 1
      && r.value[|r.value| - 1].kind == Function
      && forall k :: 0 <= k < |r.value| - 1 ==>
           r.value[k].kind == Field
           && exists b :: b in components[i].bindings && r.value[k].insertText == Some(b.htmlName + "=")
    ensures var startIndex := NameStart(line);
      var firstComma := IndexOfFrom(line, ',', startIndex);
      var attributes := Collected(components[i], WrittenSegments(line, firstComma, LastIndexOf(line, ',')));
      CompletionItems(Some(components), line, position)
        == Done(BindingCompletions(components[i], attributes, position, startIndex))
  {
    var name := ComponentName(line);
    var component := Find(components, (c: Component) => c.HtmlName() == name);
    var j :| 0 <= j < |components| && components[j] == component.value && components[j].HtmlName() == name
             && forall k :: 0 <= k < j ==> components[k].HtmlName() != name;
    assert j == i;
    var startIndex := NameStart(line);
    var firstComma := IndexOfFrom(line, ',', startIndex);
    var attributes := Collected(components[i], WrittenSegments(line, firstComma, LastIndexOf(line, ',')));
    assert CompletionItems(Some(components), line, position) == Done(BindingCompletions(components[i], attributes, position, startIndex));
    ComponentItemsShape(components[i], attributes, position, startIndex);
  }

  /** The name's run does not see text appended after the point it ends. */
  lemma {:induction false} RunStartExtend(line: string, t: string, j: nat)
    requires j <= |line|
    ensures RunStart(line + t, j) == RunStart(line, j)
  {
    if j > 0 {
      assert (line + t)[j - 1] == line[j - 1];
      RunStartExtend(line, t, j - 1);
    }
  }

  /** The name's start and the first comma after it are those of `line`
      when `t` is appended after its final comma. */
  lemma NameStartExtend(line: string, t: string)
    requires line != [] && line[|line| - 1] == ','
    ensures var startIndex := NameStart(line);
      var firstComma := IndexOfFrom(line, ',', startIndex);
      NameStart(line + t) == startIndex && startIndex <= |line| - 1
      && IndexOfFrom(line + t, ',', startIndex) == firstComma && 0 <= firstComma <= |line| - 1
  {
    IndexFromExtend(line, t, ',', 0);
    var comma := IndexOf(line, ',');
    if comma > 0 {
      RunStartExtend(line, t, comma);
    }
    var startIndex := NameStart(line);
    IndexFromExtend(line, t, ',', if startIndex < 0 then 0 else startIndex);
  }

  /** The parts of the line the provider reads (the name's start, the first
      and last commas, the name and the written segments) are those of
      `line` when `t` is appended after its final comma. */
  lemma LinePartsExtend(line: string, t: string)
    requires line != [] && line[|line| - 1] == ','
    requires forall k :: 0 <= k < |t| ==> t[k] != ','
    ensures var startIndex := NameStart(line);
      var firstComma := IndexOfFrom(line, ',', startIndex);
      NameStart(line + t) == startIndex
      && IndexOfFrom(line + t, ',', startIndex) == firstComma
      && Substring(line + t, startIndex, firstComma) == Substring(line, startIndex, firstComma)
      && LastIndexOf(line + t, ',') == LastIndexOf(line, ',')
      && WrittenSegments(line + t, firstComma, LastIndexOf(line + t, ','))
         == WrittenSegments(line, firstComma, LastIndexOf(line, ','))
  {
    NameStartExtend(line, t);
    var startIndex := NameStart(line);
    var firstComma := IndexOfFrom(line, ',', startIndex);
    SubstringExtend(line, t, startIndex, firstComma);
    LastIndexOfExtend(line, t, ',');
    SubstringExtend(line, t, firstComma + 1, |line| - 1);
    WrittenSegmentsOfSameText(line + t, line, firstComma, |line| - 1);
  }

  /** The written segments depend only on the text between the two commas. */
  lemma WrittenSegmentsOfSameText(a: string, b: string, firstComma: int, lastComma: int)
    requires Substring(a, firstComma + 1, lastComma) == Substring(b, firstComma + 1, lastComma)
    ensures WrittenSegments(a, firstComma, lastComma) == WrittenSegments(b, firstComma, lastComma)
  {
  }

  /** Only the text up to the last comma counts: what is typed after it
      (the binding being written) changes neither the component, nor the
      written attributes, nor the items offered. */
  lemma TextAfterLastCommaIgnored(components: seq<Component>, line: string, t: string, position: Position)
    requires line != [] && line[|line| - 1] == ','
    requires forall k :: 0 <= k < |t| ==> t[k] != ','
    ensures CompletionItems(Some(components), line + t, position) == CompletionItems(Some(components), line, position)
  {
    LinePartsExtend(line, t);
  }

  /** Without written attributes every binding is offered and the tag item
      inserts the bare open and close tags. */
  lemma BareTagItems(component: Component, position: Position, startIndex: int)
    ensures var r := BindingCompletions(component, [], position, startIndex);
      var h := component.HtmlName();
      |r| == |component.bindings| + 1
      && r[|component.bindings|].insertText == Some("<" + h + " ></" + h + ">")
  {
    assert Keys([]) == [];
    assert Unused(component, []) == component.bindings by {
      FilterAll(component.bindings, Unwritten([]));
    }
    var h := component.HtmlName();
    assert AttributeText([]) == "";
    assert "<" + h + " " + AttributeText([]) + "></" + h + ">" == "<" + h + " ></" + h + ">";
  }

  /** With a single comma on the line no attribute has been written, and the
      tag item inserts the bare open and close tags. */
  lemma SingleCommaBareTag(component: Component, line: string, position: Position)
    requires IndexOf(line, ',') >= 0 && IndexOf(line, ',') == LastIndexOf(line, ',')
    requires component.HtmlName() == ComponentName(line)
    ensures var r := CompletionItems(Some([component]), line, position);
      var h := component.HtmlName();
      r.Done? && |r.value| == |component.bindings| + 1
      && r.value[|component.bindings|].insertText == Some("<" + h + " ></" + h + ">")
  {
    ComponentNameIsRun(line);
    var startIndex := NameStart(line);
    var firstComma := IndexOfFrom(line, ',', startIndex);
    var s := if startIndex < 0 then 0 else startIndex;
    assert firstComma == IndexFrom(line, ',', s);
    assert firstComma == IndexOf(line, ',');
    assert WrittenSegments(line, firstComma, LastIndexOf(line, ',')) == [];
    assert Collected(component, []) == [];
    assert CompletionItems(Some([component]), line, position) == Done(BindingCompletions(component, [], position, startIndex));
    BareTagItems(component, position, startIndex);
  }

  /** A filter that keeps everything gives the sequence back. */
  lemma {:induction false} FilterAll<T>(s: seq<T>, p: T -> bool)
    requires forall i :: 0 <= i < |s| ==> p(s[i])
    ensures Filter(s, p) == s
  {
    if s != [] {
      FilterAll(s[1..], p);
    }
  }

  // ---------------------------------------------------------------------
  // The provider
  // ---------------------------------------------------------------------

  class BindingProvider {
    var components: Option<seq<Component>>

    constructor()
      ensures components.None?
    {
      components := None;
    }

    /** `loadComponents`: the components later completions look names up in. */
    method LoadComponents(components: seq<Component>)
      modifies this
      ensures this.components == Some(components)
    {
      this.components := Some(components);
    }

    /** The backward scan for the start of the typed name. */
    method ComponentNameStart(line: string) returns (startIndex: int)
      ensures startIndex == NameStart(line)
    {
      var comma := IndexOf(line, ',');
      startIndex := comma - 1;
      var i := startIndex;
      while i >= 0
        invariant comma > 0 ==> -1 <= i < comma && RunStart(line, comma) == RunStart(line, i + 1)
        invariant comma > 0 ==> startIndex == (if i == comma - 1 then comma - 1 else 0)
        invariant comma <= 0 ==> i == startIndex == comma - 1
        decreases i + 2
      {
        if !IsNameChar(line[i]) {
          startIndex := i + 1;
          break;
        }
        startIndex := 0;
        i := i - 1;
      }
    }

    /** The `forEach` that records the bindings already written. */
    method CollectExisting(component: Component, segments: seq<string>) returns (existing: seq<Attribute>)
      ensures existing == Collected(component, segments)
    {
      existing := [];
      for i := 0 to |segments|
        invariant existing == Collected(component, segments[..i])
      {
        assert segments[..i + 1][..i] == segments[..i];
        var split := Split(segments[i], '=');
        var value := if |split| >= 2 then split[1] else "";
        var alias := Show(component.controllerAs);
        if value == "" {
          var binding := Find(component.bindings, (b: Binding) => b.htmlName == split[0]);
          if binding.Some? {
            value := alias + "." + binding.value.name;
          }
        } else if !StartsWith(value, alias) {
          value := alias + "." + value;
        }
        assert value == SegmentValue(component, segments[i]);
        assert Collected(component, segments[..i + 1])
            == Put(Collected(component, segments[..i]), Attribute(SegmentKey(segments[i]), SegmentValue(component, segments[i])));
        existing := Put(existing, Attribute(split[0], value));
      }
      assert segments[..|segments|] == segments;
    }

    /** `provideCompletionItems`. */
    method ProvideCompletionItems(line: string, position: Position) returns (r: Outcome<seq<CompletionItem>>)
      ensures r == CompletionItems(components, line, position)
    {
      if components.None? {
        return Threw(TypeError);
      }
      var startIndex := ComponentNameStart(line);
      var firstComma := IndexOfFrom(line, ',', startIndex);
      var lastComma := LastIndexOf(line, ',');
      var name := Substring(line, startIndex, firstComma);
      var component := Find(components.value, (c: Component) => c.HtmlName() == name);
      if component.None? {
        return Done([]);
      }
      var existing: seq<Attribute> := [];
      if firstComma != lastComma {
        var segments := Split(Substring(line, firstComma + 1, lastComma), ',');
        existing := CollectExisting(component.value, segments);
      }
      assert existing == Collected(component.value, WrittenSegments(line, firstComma, lastComma));
      r := Done(BindingCompletions(component.value, existing, position, startIndex));
    }
  }
}
