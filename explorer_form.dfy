/**
 * The styleguide's explorer form: every discovered component offered in a select,
 * grouped by extension type and provider; for the selected component one required
 * input per required prop; and the submitted values rendered as the component's props.
 */
module ExplorerForm {
  import opened Wrappers
  import opened Assoc
  import opened Values
  import opened Sdc

  /** The group a component is listed under: its extension type and its provider. */
  function GroupName(c: Component): string
  {
    c.extensionType + ": " + c.provider
  }

  /** The select's options: group name to (definition id to name). */
  type Options = seq<(string, seq<(string, Option<string>)>)>

  /** One component of the loop: its group is created when missing, then its id is set to its name. */
  function AddOption(options: Options, c: Component): Options
  {
    var group := Get(options, GroupName(c)).GetOr([]);
    Put(options, GroupName(c), Put(group, c.id, c.name))
  }

  /** The options after the loop over the discovered components. */
  function OptionsOf(registry: seq<Component>): Options
    decreases |registry|
  {
    if registry == [] then []
    else AddOption(OptionsOf(registry[..|registry| - 1]), registry[|registry| - 1])
  }

  /** `$all_components`: the discovered components by definition id, a later one replacing an earlier one. */
  function ById(registry: seq<Component>): (r: seq<(string, Component)>)
    ensures UniqueKeys(r)
    ensures forall id :: Get(r, id).Some? ==> Get(r, id).value in registry && Get(r, id).value.id == id
    ensures forall c :: c in registry ==> Get(r, c.id).Some?
    decreases |registry|
  {
    if registry == [] then []
    else
      var init := registry[..|registry| - 1];
      var c := registry[|registry| - 1];
      assert forall d :: d in registry ==> d in init || d == c;
      Put(ById(init), c.id, c)
  }

  /** A component no later component shares an id with is the one found under its id. */
  lemma {:induction false} ByIdLastWins(registry: seq<Component>, i: nat)
    requires i < |registry|
    requires forall j :: i < j < |registry| ==> registry[j].id != registry[i].id
    ensures Get(ById(registry), registry[i].id) == Some(registry[i])
    decreases |registry|
  {
    if i < |registry| - 1 {
      var init := registry[..|registry| - 1];
      assert init[i] == registry[i];
      ByIdLastWins(init, i);
    }
  }

  /**
   * The options list a group exactly when some component belongs to it, and in it an id
   * exactly when a component of that group has that id, labelled with such a component's name.
   */
  lemma {:induction false} OptionsListing(registry: seq<Component>, g: string, id: string)
    ensures var grp := Get(OptionsOf(registry), g);
      && (grp.Some? <==> exists c :: c in registry && GroupName(c) == g)
      && (grp.Some? && Get(grp.value, id).Some? <==> exists c :: c in registry && GroupName(c) == g && c.id == id)
      && (grp.Some? && Get(grp.value, id).Some? ==>
            exists c :: c in registry && GroupName(c) == g && c.id == id && c.name == Get(grp.value, id).value)
    decreases |registry|
  {
    if registry != [] {
      var init := registry[..|registry| - 1];
      var last := registry[|registry| - 1];
      OptionsListing(init, g, id);
      assert forall d :: d in registry <==> d in init || d == last;
      var before := Get(OptionsOf(init), g);
      var after := Get(OptionsOf(registry), g);
      if GroupName(last) == g {
        var group := before.GetOr([]);
        assert after == Some(Put(group, last.id, last.name));
        if id != last.id {
          assert Get(after.value, id) == Get(group, id);
          assert before.None? ==> Get(group, id).None?;
        }
      } else {
        assert after == before;
      }
    }
  }

  // ---------------------------------------------------------------------------
  // Required fields
  // ---------------------------------------------------------------------------

  /** The form element a prop type maps to; `Illegal` when the type cannot be an array key. */
  datatype Widget = Mapped(fapi: string) | Unmapped | Illegal

  /** `$fapi_map[$type]`: string, number and boolean map to an element type; any other key to `null`. */
  function WidgetOf(t: Value): (w: Widget)
    ensures w == Mapped("textfield") <==> t == Str("string")
    ensures w == Mapped("number") <==> t == Str("number")
    ensures w == Mapped("checkbox") <==> t == Str("boolean")
    ensures w == Illegal <==> t.Arr? || t.Attribute?
  {
    match t
    case Str(s) =>
      if s == "string" then Mapped("textfield")
      else if s == "number" then Mapped("number")
      else if s == "boolean" then Mapped("checkbox")
      else Unmapped
    case Arr(_) => Illegal
    case Attribute(_) => Illegal
    case _ => Unmapped
  }

  /** Decimal digits of an integer key. */
  function IntKey(n: int): string
  {
    if n >= 0 then NatToString(n) else "-" + NatToString(-n)
  }

  /** The array key a value is used as: `null` is "", booleans are 0 and 1; an array or object cannot be one. */
  function KeyOf(v: Value): (k: Option<string>)
    ensures k.None? <==> v.Arr? || v.Attribute?
    ensures v.Str? ==> k == Some(v.s)
  {
    match v
    case Null => Some("")
    case Bool(b) => Some(if b then "1" else "0")
    case Int(n) => Some(IntKey(n))
    case Str(s) => Some(s)
    case Arr(_) => None
    case Attribute(_) => None
  }

  /** The elements of the selected component: the hidden id, then the required props' inputs. */
  datatype Element = Hidden(value: string) | Required(fapi: Option<string>, title: Value)

  /** The input of one required prop: its settings' type mapped, and its title. */
  function ElementFor(properties: Value, key: string): (e: Option<Element>)
    ensures e.None? <==> WidgetOf(Lookup(Lookup(properties, key), "type")) == Illegal
  {
    var settings := Lookup(properties, key);
    match WidgetOf(Lookup(settings, "type"))
    case Illegal => None
    case Mapped(f) => Some(Required(Some(f), Lookup(settings, "title")))
    case Unmapped => Some(Required(None, Lookup(settings, "title")))
  }

  /** A required entry that can be a key whose prop type can be one. */
  predicate Usable(properties: Value, field: Value)
  {
    KeyOf(field).Some? && ElementFor(properties, KeyOf(field).value).Some?
  }

  /** The loop over the required props; `None` is the error an unusable entry raises. */
  function AddFields(acc: seq<(string, Element)>, properties: Value, fields: seq<Value>): Option<seq<(string, Element)>>
    decreases |fields|
  {
    if fields == [] then Some(acc)
    else
      match AddFields(acc, properties, fields[..|fields| - 1])
      case None => None
      case Some(a) =>
        var field := fields[|fields| - 1];
        if Usable(properties, field) then Some(Put(a, KeyOf(field).value, ElementFor(properties, KeyOf(field).value).value))
        else None
  }

  /** The keys the required entries become. */
  function RequiredKeys(fields: seq<Value>): set<string>
  {
    set i | 0 <= i < |fields| && KeyOf(fields[i]).Some? :: KeyOf(fields[i]).value
  }

  /** The loop fails exactly when some required entry is unusable. */
  lemma {:induction false} AddFieldsFails(acc: seq<(string, Element)>, properties: Value, fields: seq<Value>)
    ensures AddFields(acc, properties, fields).None? <==> exists i :: 0 <= i < |fields| && !Usable(properties, fields[i])
    decreases |fields|
  {
    if fields != [] {
      var init := fields[..|fields| - 1];
      AddFieldsFails(acc, properties, init);
      UnusableSnoc(properties, fields, init);
    }
  }

  lemma UnusableSnoc(properties: Value, fields: seq<Value>, init: seq<Value>)
    requires fields != [] && init == fields[..|fields| - 1]
    ensures (exists i :: 0 <= i < |fields| && !Usable(properties, fields[i])) <==>
      (exists i :: 0 <= i < |init| && !Usable(properties, init[i])) || !Usable(properties, fields[|fields| - 1])
  {
    if exists i :: 0 <= i < |fields| && !Usable(properties, fields[i]) {
      var i :| 0 <= i < |fields| && !Usable(properties, fields[i]);
      if i < |init| {
        assert !Usable(properties, init[i]);
      }
    }
    if exists i :: 0 <= i < |init| && !Usable(properties, init[i]) {
      var i :| 0 <= i < |init| && !Usable(properties, init[i]);
      assert fields[i] == init[i];
    }
  }

  /**
   * When the loop succeeds, each required key holds its prop's input and every other
   * key keeps what it held before.
   */
  lemma {:induction false} AddFieldsPerKey(acc: seq<(string, Element)>, properties: Value, fields: seq<Value>, k: string)
    requires AddFields(acc, properties, fields).Some?
    ensures Get(AddFields(acc, properties, fields).value, k) ==
      if k in RequiredKeys(fields) then ElementFor(properties, k) else Get(acc, k)
    decreases |fields|
  {
    if fields != [] {
      var init := fields[..|fields| - 1];
      var field := fields[|fields| - 1];
      var before := AddFields(acc, properties, init);
      assert before.Some? && Usable(properties, field);
      var key := KeyOf(field).value;
      assert AddFields(acc, properties, fields) == Some(Put(before.value, key, ElementFor(properties, key).value));
      AddFieldsPerKey(acc, properties, init, k);
      RequiredKeysSnoc(fields);
    }
  }

  /** The keys of the entries: those of all but the last, and the last one's. */
  lemma RequiredKeysSnoc(fields: seq<Value>)
    requires fields != [] && KeyOf(fields[|fields| - 1]).Some?
    ensures RequiredKeys(fields) == RequiredKeys(fields[..|fields| - 1]) + {KeyOf(fields[|fields| - 1]).value}
  {
    var init := fields[..|fields| - 1];
    var key := KeyOf(fields[|fields| - 1]).value;
    forall x ensures x in RequiredKeys(fields) <==> x in RequiredKeys(init) || x == key {
      if x in RequiredKeys(fields) {
        var i :| 0 <= i < |fields| && KeyOf(fields[i]).Some? && KeyOf(fields[i]).value == x;
        if i < |init| {
          assert init[i] == fields[i];
        }
      }
      if x in RequiredKeys(init) {
        var i :| 0 <= i < |init| && KeyOf(init[i]).Some? && KeyOf(init[i]).value == x;
        assert fields[i] == init[i];
      }
      if x == key {
        assert KeyOf(fields[|fields| - 1]).value == x;
      }
    }
  }

  lemma AddFieldsStep(acc: seq<(string, Element)>, properties: Value, fields: seq<Value>, i: nat)
    requires i < |fields|
    ensures AddFields(acc, properties, fields[..i + 1]) ==
      match AddFields(acc, properties, fields[..i])
      case None => None
      case Some(a) =>
        if Usable(properties, fields[i]) then Some(Put(a, KeyOf(fields[i]).value, ElementFor(properties, KeyOf(fields[i]).value).value))
        else None
  {
    assert fields[..i + 1][..i] == fields[..i];
  }

  lemma {:induction false} AddFieldsFailureStays(acc: seq<(string, Element)>, properties: Value, fields: seq<Value>, i: nat)
    requires i <= |fields| && AddFields(acc, properties, fields[..i]).None?
    ensures AddFields(acc, properties, fields).None?
    decreases |fields| - i
  {
    if i < |fields| {
      AddFieldsStep(acc, properties, fields, i);
      AddFieldsFailureStays(acc, properties, fields, i + 1);
    } else {
      assert fields[..i] == fields;
    }
  }

  /** The values of an array, in order. */
  function ValuesOf(entries: seq<(string, Value)>): (vs: seq<Value>)
    ensures |vs| == |entries|
    ensures forall i :: 0 <= i < |entries| ==> vs[i] == entries[i].1
  {
    seq(|entries|, i requires 0 <= i < |entries| => entries[i].1)
  }

  /**
   * The elements of a selected component: the hidden id, then one input per entry of
   * `props.required` (nothing is iterated when that is not an array).
   */
  function FieldsFor(c: Component, value: string): Option<seq<(string, Element)>>
  {
    var props := c.props.GetOr(Null);
    var start := [("component", Hidden(value))];
    match Lookup(props, "required")
    case Arr(e) => AddFields(start, Lookup(props, "properties"), ValuesOf(e))
    case _ => Some(start)
  }

  // ---------------------------------------------------------------------------
  // Rendered result
  // ---------------------------------------------------------------------------

  /** The component to render and its props. */
  datatype Rendered = Rendered(component: Value, props: seq<(string, Value)>)

  /** The submitted values of the selected component, rendered when there are any, without the `component` key. */
  function RenderedResult(selected: seq<(string, Value)>): Option<Rendered>
  {
    if selected == [] then None
    else Some(Rendered(Get(selected, "component").GetOr(Null), Remove(selected, "component")))
  }

  /**
   * A result is rendered exactly when values were submitted; it renders the submitted
   * `component` with every other submitted value as a prop, and no `component` prop.
   */
  lemma RenderedProps(selected: seq<(string, Value)>)
    ensures var r := RenderedResult(selected);
      && (r.Some? <==> selected != [])
      && (r.Some? ==>
            && r.value.component == Get(selected, "component").GetOr(Null)
            && "component" !in Keys(r.value.props)
            && forall k :: k != "component" ==> Get(r.value.props, k) == Get(selected, k))
  {
  }

  // ---------------------------------------------------------------------------
  // The form
  // ---------------------------------------------------------------------------

  /** What `buildForm` decides: the options, the selected component's elements and the rendered result. */
  datatype ExplorerFields = ExplorerFields(
    options: Options,
    selected: Option<seq<(string, Element)>>,
    rendered: Option<Rendered>)

  /**
   * `buildForm`: `None` is the error of a selected id no component has, or of an unusable
   * required entry; fields only when the submitted component is truthy.
   */
  function Explorer(registry: seq<Component>, componentValue: Option<string>, selected: seq<(string, Value)>)
    : Option<ExplorerFields>
  {
    var all := ById(registry);
    if componentValue.Some? && Truthy(Str(componentValue.value)) then
      match Get(all, componentValue.value)
      case None => None
      case Some(c) =>
        match FieldsFor(c, componentValue.value)
        case None => None
        case Some(fields) => Some(ExplorerFields(OptionsOf(registry), Some(fields), RenderedResult(selected)))
    else Some(ExplorerFields(OptionsOf(registry), None, RenderedResult(selected)))
  }

  /**
   * With a component selected whose required entries are all usable, the form shows
   * exactly the hidden id and one input per required prop; without a selection, none.
   */
  lemma ExplorerFieldsOfSelection(registry: seq<Component>, componentValue: Option<string>, selected: seq<(string, Value)>,
                                  c: Component, k: string)
    requires componentValue.Some? && Truthy(Str(componentValue.value))
    requires Get(ById(registry), componentValue.value) == Some(c)
    requires var props := c.props.GetOr(Null); Lookup(props, "required").Arr?
    requires var props := c.props.GetOr(Null);
      forall e :: e in Lookup(props, "required").entries ==> Usable(Lookup(props, "properties"), e.1)
    ensures var r := Explorer(registry, componentValue, selected);
      var props := c.props.GetOr(Null);
      var fields := ValuesOf(Lookup(props, "required").entries);
      && r.Some? && r.value.selected.Some?
      && Get(r.value.selected.value, k) ==
           if k in RequiredKeys(fields) then ElementFor(Lookup(props, "properties"), k)
           else if k == "component" then Some(Hidden(componentValue.value))
           else None
  {
    FieldsForUsable(c, componentValue.value, k);
    var added := FieldsFor(c, componentValue.value).value;
    assert Explorer(registry, componentValue, selected) == Some(ExplorerFields(OptionsOf(registry), Some(added), RenderedResult(selected)));
  }

  lemma FieldsForUsable(c: Component, value: string, k: string)
    requires var props := c.props.GetOr(Null); Lookup(props, "required").Arr?
    requires var props := c.props.GetOr(Null);
      forall e :: e in Lookup(props, "required").entries ==> Usable(Lookup(props, "properties"), e.1)
    ensures var props := c.props.GetOr(Null);
      var fields := ValuesOf(Lookup(props, "required").entries);
      var r := FieldsFor(c, value);
      && r.Some?
      && Get(r.value, k) ==
           if k in RequiredKeys(fields) then ElementFor(Lookup(props, "properties"), k)
           else if k == "component" then Some(Hidden(value))
           else None
  {
    var props := c.props.GetOr(Null);
    var entries := Lookup(props, "required").entries;
    var fields := ValuesOf(entries);
    var properties := Lookup(props, "properties");
    var start := [("component", Hidden(value))];
    assert forall i :: 0 <= i < |fields| ==> Usable(properties, fields[i]) by {
      forall i | 0 <= i < |fields| ensures Usable(properties, fields[i]) {
        assert entries[i] in entries;
      }
    }
    AddFieldsFails(start, properties, fields);
    assert FieldsFor(c, value) == AddFields(start, properties, fields);
    AddFieldsPerKey(start, properties, fields, k);
  }

  /** Without a selection no fields are shown and nothing can fail. */
  lemma ExplorerWithoutSelection(registry: seq<Component>, componentValue: Option<string>, selected: seq<(string, Value)>)
    requires componentValue.None? || !Truthy(Str(componentValue.value))
    ensures Explorer(registry, componentValue, selected) == Some(ExplorerFields(OptionsOf(registry), None, RenderedResult(selected)))
  {
  }

  /** The loop over the discovered components, filling the options and the components by id. */
  method CollectOptions(registry: seq<Component>) returns (options: Options, all: seq<(string, Component)>)
    ensures options == OptionsOf(registry) && all == ById(registry)
  {
    options := [];
    all := [];
    for i := 0 to |registry|
      invariant options == OptionsOf(registry[..i])
      invariant all == ById(registry[..i])
    {
      assert registry[..i + 1][..i] == registry[..i];
      var c := registry[i];
      all := Put(all, c.id, c);
      var group := Get(options, GroupName(c)).GetOr([]);
      options := Put(options, GroupName(c), Put(group, c.id, c.name));
    }
    assert registry[..|registry|] == registry;
  }

  /** The loop over the required props of the selected component. */
  method RequiredElements(c: Component, value: string) returns (elements: Option<seq<(string, Element)>>)
    ensures elements == FieldsFor(c, value)
  {
    var props := c.props.GetOr(Null);
    var start := [("component", Hidden(value))];
    var required := Lookup(props, "required");
    if !required.Arr? {
      return Some(start);
    }
    var properties := Lookup(props, "properties");
    var entries := ValuesOf(required.entries);
    var acc := start;
    for i := 0 to |entries|
      invariant AddFields(start, properties, entries[..i]) == Some(acc)
    {
      AddFieldsStep(start, properties, entries, i);
      var field := entries[i];
      if !Usable(properties, field) {
        AddFieldsFailureStays(start, properties, entries, i + 1);
        return None;
      }
      var key := KeyOf(field).value;
      acc := Put(acc, key, ElementFor(properties, key).value);
    }
    assert entries[..|entries|] == entries;
    elements := Some(acc);
  }

  /** `buildForm`: the options, then the selected component's elements, then the rendered result. */
  method BuildForm(registry: seq<Component>, componentValue: Option<string>, selected: seq<(string, Value)>)
    returns (r: Option<ExplorerFields>)
    ensures r == Explorer(registry, componentValue, selected)
  {
    var options, all := CollectOptions(registry);
    var fields: Option<seq<(string, Element)>> := None;
    if componentValue.Some? && Truthy(Str(componentValue.value)) {
      var found := Get(all, componentValue.value);
      if found.None? {
        return None;
      }
      fields := RequiredElements(found.value, componentValue.value);
      if fields.None? {
        return None;
      }
    }
    var rendered: Option<Rendered> := None;
    if selected != [] {
      var props := selected;
      var component := Get(selected, "component").GetOr(Null);
      props := Remove(props, "component");
      rendered := Some(Rendered(component, props));
    }
    r := Some(ExplorerFields(options, fields, rendered));
  }
}
