/**
 * The admin menu the component browser derives from the discovered
 * components: per group a group link and an "Add" link, per component a link
 * and three action links (delete, edit, duplicate). Each link is its own
 * fields laid over the base plugin definition with PHP's array `+`, so its
 * own fields win. The links are kept as a map from key to link: Drupal reads
 * the derived definitions by key, never by position.
 */
module MenuLinks {
  import opened Wrappers
  import opened Strings
  import opened Assoc
  import opened Values
  import opened Sdc

  /**
   * The four prefixes of the deriver's link keys. Drupal names a derived link
   * `dab.components:<key>`, so a link's `parent` is that prefix followed by the
   * parent's key.
   */
  datatype Prefix = Components | DeleteComponent | EditComponent | DuplicateComponent

  function PrefixString(p: Prefix): string
  {
    match p
    case Components => "dab.components:"
    case DeleteComponent => "dab.delete_component:"
    case EditComponent => "dab.edit_component:"
    case DuplicateComponent => "dab.duplicate_component:"
  }

  /** A link key: one of the prefixes, then a group or `<provider>_<machine name>`. */
  datatype Key = Key(prefix: Prefix, name: string)

  /** The PHP string the key stands for. */
  function KeyString(k: Key): string
  {
    PrefixString(k.prefix) + k.name
  }

  /** A position where two different prefixes differ, before either ends. */
  lemma PrefixesDiffer(p: Prefix, q: Prefix) returns (i: nat)
    requires p != q
    ensures i < |PrefixString(p)| && i < |PrefixString(q)|
    ensures PrefixString(p)[i] != PrefixString(q)[i]
  {
    if {p, q} == {DeleteComponent, DuplicateComponent} {
      i := 5;
    } else {
      i := 4;
    }
  }

  /** No prefix is the start of another, so two keys are the same PHP string only when they are the same key. */
  lemma KeyStringInjective(a: Key, b: Key)
    ensures KeyString(a) == KeyString(b) <==> a == b
  {
    if a.prefix != b.prefix {
      var i := PrefixesDiffer(a.prefix, b.prefix);
      assert KeyString(a)[i] != KeyString(b)[i];
    } else if a.name != b.name {
      var n := |PrefixString(a.prefix)|;
      assert KeyString(a)[n..] == a.name && KeyString(b)[n..] == b.name;
    }
  }

  /**
   * A menu link definition: the fields the deriver sets, and the base plugin
   * definition they are laid over.
   */
  datatype Link = Link(
    id: string,
    title: string,
    parent: string,
    routeName: string,
    routeParameters: seq<(string, string)>,
    weight: Option<int>,
    base: seq<(string, Value)>)

  /** Link key to definition. */
  type Links = map<Key, Link>

  /** `$links[$k] ?? null`. */
  function At(links: Links, k: Key): Option<Link>
  {
    if k in links then Some(links[k]) else None
  }

  /** The three action links under each component link. */
  datatype Tool = Delete | Edit | Duplicate

  /** `$pluginDefinition['group'] ?? 'other'`. */
  function GroupOf(c: Component): string
  {
    c.group.GetOr("other")
  }

  function GroupLinkId(group: string): Key
  {
    Key(Components, group)
  }

  function AddLinkId(group: string): Key
  {
    Key(Components, "add_" + group)
  }

  /** The `<provider>_<machine name>` suffix of a component's link keys. */
  function ComponentSuffix(c: Component): string
  {
    c.provider + "_" + c.machineName
  }

  function ComponentLinkId(c: Component): Key
  {
    Key(Components, ComponentSuffix(c))
  }

  function ToolPrefix(t: Tool): Prefix
  {
    match t
    case Delete => DeleteComponent
    case Edit => EditComponent
    case Duplicate => DuplicateComponent
  }

  function ToolLinkId(t: Tool, c: Component): Key
  {
    Key(ToolPrefix(t), ComponentSuffix(c))
  }

  function ToolTitle(t: Tool): string
  {
    match t
    case Delete => "Delete"
    case Edit => "Edit"
    case Duplicate => "Duplicate"
  }

  function ToolRoute(t: Tool): string
  {
    match t
    case Delete => "dab.delete_component"
    case Edit => "dab.edit_component"
    case Duplicate => "dab.duplicate_component"
  }

  function ToolWeight(t: Tool): int
  {
    match t
    case Delete => 50
    case Edit => 1
    case Duplicate => 2
  }

  /** The route parameters of a component link and of its action links. */
  function ComponentParams(group: string, c: Component): seq<(string, string)>
  {
    [("component_type", group), ("machine_name", c.machineName), ("provider", c.provider)]
  }

  /** The `route_parameters` field: the parameters in order, each as a string. */
  function ParamsValue(l: Link): Value
  {
    Arr(seq(|l.routeParameters|, i requires 0 <= i < |l.routeParameters| =>
      (l.routeParameters[i].0, Str(l.routeParameters[i].1))))
  }

  /** The fields a link sets itself, as its PHP array literal lists them. */
  function OwnFields(l: Link): seq<(string, Value)>
  {
    [("id", Str(l.id)), ("title", Str(l.title)), ("parent", Str(l.parent)), ("route_name", Str(l.routeName)),
     ("route_parameters", ParamsValue(l))]
    + (if l.weight.Some? then [("weight", Int(l.weight.value))] else [])
  }

  function FieldNames(l: Link): seq<string>
  {
    ["id", "title", "parent", "route_name", "route_parameters"] + (if l.weight.Some? then ["weight"] else [])
  }

  /** The literal names each field once. */
  lemma OwnKeys(l: Link)
    ensures Keys(OwnFields(l)) == FieldNames(l)
    ensures UniqueKeys(OwnFields(l))
  {
    assert Keys(OwnFields(l)) == FieldNames(l);
  }

  /** What the link itself sets under field `f`: `weight` only when it has one. */
  function OwnField(l: Link, f: string): Option<Value>
  {
    if f == "weight" then (if l.weight.Some? then Some(Int(l.weight.value)) else None)
    else if f == "route_parameters" then Some(ParamsValue(l))
    else if f == "route_name" then Some(Str(l.routeName))
    else if f == "parent" then Some(Str(l.parent))
    else if f == "title" then Some(Str(l.title))
    else if f == "id" then Some(Str(l.id))
    else None
  }

  lemma OwnFieldsGet(l: Link, f: string)
    ensures Get(OwnFields(l), f) == OwnField(l, f)
  {
    var own := OwnFields(l);
    OwnKeys(l);
    if f == "weight" {
      if l.weight.Some? {
        GetUnique(own, 5);
      }
    } else if f == "route_parameters" {
      GetUnique(own, 4);
    } else if f == "route_name" {
      GetUnique(own, 3);
    } else if f == "parent" {
      GetUnique(own, 2);
    } else if f == "title" {
      GetUnique(own, 1);
    } else if f == "id" {
      GetUnique(own, 0);
    }
  }

  /** `[...] + $base_plugin_definition`: the link's own fields, then the base fields it lacks. */
  function Definition(l: Link): seq<(string, Value)>
  {
    Union(OwnFields(l), l.base)
  }

  /**
   * The link's own fields win over the base definition; a field it does not set, such as
   * `weight` on a group or component link, comes from the base.
   */
  lemma DefinitionGet(l: Link, f: string)
    ensures Get(Definition(l), f) == if OwnField(l, f).Some? then OwnField(l, f) else Get(l.base, f)
  {
    OwnFieldsGet(l, f);
  }

  /** The group link, under the menu root. */
  function GroupLink(base: seq<(string, Value)>, group: string): Link
  {
    Link(KeyString(GroupLinkId(group)), Ucfirst(group), "dab.menu", "dab.component_type_list",
      [("component_type", group)], None, base)
  }

  /**
   * The "Add" link, under the group link and first among its children; its `id` field is
   * the group link's, not its own key.
   */
  function AddLink(base: seq<(string, Value)>, group: string): Link
  {
    Link(KeyString(GroupLinkId(group)), "Add " + RtrimChar(group, 's'), "dab.components:" + KeyString(GroupLinkId(group)),
      "dab.add_component", [("component_type", group)], Some(-50), base)
  }

  /** The component link, titled "<name> (<plugin id>)"; a missing name reads as "". */
  function ComponentLink(base: seq<(string, Value)>, c: Component, group: string, parent: string): Link
  {
    Link(KeyString(ComponentLinkId(c)), c.name.GetOr("") + " (" + c.id + ")", "dab.components:" + parent, "dab.component",
      ComponentParams(group, c), None, base)
  }

  /** An action link, under the component link. */
  function ToolLink(base: seq<(string, Value)>, t: Tool, c: Component, group: string): Link
  {
    Link(KeyString(ToolLinkId(t, c)), ToolTitle(t), "dab.components:" + KeyString(ComponentLinkId(c)), ToolRoute(t),
      ComponentParams(group, c), Some(ToolWeight(t)), base)
  }

  /** The four assignments of `buildComponentMenuItem`, in source order. */
  function ComponentPass(links: Links, base: seq<(string, Value)>, c: Component, group: string, parent: string): Links
  {
    links[ComponentLinkId(c) := ComponentLink(base, c, group, parent)]
         [ToolLinkId(Delete, c) := ToolLink(base, Delete, c, group)]
         [ToolLinkId(Edit, c) := ToolLink(base, Edit, c, group)]
         [ToolLinkId(Duplicate, c) := ToolLink(base, Duplicate, c, group)]
  }

  /** One pass of the loop of `getDerivativeDefinitions`: the group link, the "Add" link, then the component's four. */
  function Pass(links: Links, base: seq<(string, Value)>, c: Component): Links
  {
    var group := GroupOf(c);
    var withAdd := links[GroupLinkId(group) := GroupLink(base, group)][AddLinkId(group) := AddLink(base, group)];
    ComponentPass(withAdd, base, c, group, KeyString(GroupLinkId(group)))
  }

  /** The links of `getDerivativeDefinitions`: one pass per component, in discovery order. */
  function Derive(base: seq<(string, Value)>, cs: seq<Component>): Links
    decreases |cs|
  {
    if cs == [] then map[] else Pass(Derive(base, cs[..|cs| - 1]), base, cs[|cs| - 1])
  }

  /** The PHP array returned: each key as its string, each link as its definition. */
  function Rendered(links: Links): map<string, seq<(string, Value)>>
  {
    KeyStringInjectiveAll();
    map k | k in links :: KeyString(k) := Definition(links[k])
  }

  lemma KeyStringInjectiveAll()
    ensures forall a: Key, b: Key :: KeyString(a) == KeyString(b) ==> a == b
  {
    forall a: Key, b: Key ensures KeyString(a) == KeyString(b) ==> a == b {
      KeyStringInjective(a, b);
    }
  }

  /** The returned array holds a key's string exactly when the links hold the key, with that link's definition. */
  lemma RenderedAt(links: Links, k: Key)
    ensures KeyString(k) in Rendered(links) <==> k in links
    ensures k in links ==> Rendered(links)[KeyString(k)] == Definition(links[k])
  {
    KeyStringInjectiveAll();
  }

  /** The six keys a component's pass assigns. */
  function PassKeys(c: Component): set<Key>
  {
    {GroupLinkId(GroupOf(c)), AddLinkId(GroupOf(c)), ComponentLinkId(c),
     ToolLinkId(Delete, c), ToolLinkId(Edit, c), ToolLinkId(Duplicate, c)}
  }

  /**
   * What a pass leaves under key `k`, whatever was there before: the value of the last of
   * its six assignments to `k`, or `None` when it assigns no `k`.
   */
  function PassValue(base: seq<(string, Value)>, c: Component, k: Key): (r: Option<Link>)
    ensures r.Some? <==> k in PassKeys(c)
  {
    var group := GroupOf(c);
    if k == ToolLinkId(Duplicate, c) then Some(ToolLink(base, Duplicate, c, group))
    else if k == ToolLinkId(Edit, c) then Some(ToolLink(base, Edit, c, group))
    else if k == ToolLinkId(Delete, c) then Some(ToolLink(base, Delete, c, group))
    else if k == ComponentLinkId(c) then Some(ComponentLink(base, c, group, KeyString(GroupLinkId(group))))
    else if k == AddLinkId(group) then Some(AddLink(base, group))
    else if k == GroupLinkId(group) then Some(GroupLink(base, group))
    else None
  }

  /** After a pass each key it assigns holds its last assignment, every other key what it held before. */
  lemma PassAt(links: Links, base: seq<(string, Value)>, c: Component, k: Key)
    ensures At(Pass(links, base, c), k) == if k in PassKeys(c) then PassValue(base, c, k) else At(links, k)
  {
  }

  /**
   * A component whose link key is neither its group key nor its group's "Add" key: then
   * each of the six links of its pass stays under its key.
   */
  predicate NoClash(c: Component)
  {
    ComponentSuffix(c) != GroupOf(c) && ComponentSuffix(c) != "add_" + GroupOf(c)
  }

  /**
   * What one pass leaves under each key it assigns: the action and component links always
   * survive the pass; the group and "Add" links do unless the component's key clashes with
   * theirs, and then the component link replaces one of them.
   */
  lemma PassLeaves(base: seq<(string, Value)>, c: Component)
    ensures forall t :: PassValue(base, c, ToolLinkId(t, c)) == Some(ToolLink(base, t, c, GroupOf(c)))
    ensures PassValue(base, c, ComponentLinkId(c)) == Some(ComponentLink(base, c, GroupOf(c), KeyString(GroupLinkId(GroupOf(c)))))
    ensures NoClash(c) <==>
      && PassValue(base, c, GroupLinkId(GroupOf(c))) == Some(GroupLink(base, GroupOf(c)))
      && PassValue(base, c, AddLinkId(GroupOf(c))) == Some(AddLink(base, GroupOf(c)))
  {
    var g := GroupOf(c);
    assert |g| < |"add_" + g|;
    if !NoClash(c) {
      assert ComponentLink(base, c, g, KeyString(GroupLinkId(g))).routeName == "dab.component";
    }
  }

  /** Every link of a pass hangs under the menu root or under another link of the same pass. */
  lemma PassParents(base: seq<(string, Value)>, c: Component, k: Key)
    requires k in PassKeys(c)
    ensures PassValue(base, c, k).value.parent == "dab.menu" ||
      exists p :: p in PassKeys(c) && PassValue(base, c, k).value.parent == PrefixString(Components) + KeyString(p)
  {
    var g := GroupOf(c);
    var l := PassValue(base, c, k).value;
    if l.parent != "dab.menu" {
      if l == AddLink(base, g) || l == ComponentLink(base, c, g, KeyString(GroupLinkId(g))) {
        assert GroupLinkId(g) in PassKeys(c);
      } else {
        assert ComponentLinkId(c) in PassKeys(c);
      }
    }
  }

  /** What the derived links hold under `k`, read back from the last pass that assigns it. */
  function DeriveAt(base: seq<(string, Value)>, cs: seq<Component>, k: Key): Option<Link>
    decreases |cs|
  {
    if cs == [] then None
    else if k in PassKeys(cs[|cs| - 1]) then PassValue(base, cs[|cs| - 1], k)
    else DeriveAt(base, cs[..|cs| - 1], k)
  }

  /** The loop's links agree with that reading, key by key. */
  lemma {:induction false} DeriveAtCorrect(base: seq<(string, Value)>, cs: seq<Component>, k: Key)
    ensures At(Derive(base, cs), k) == DeriveAt(base, cs, k)
    decreases |cs|
  {
    if cs != [] {
      PassAt(Derive(base, cs[..|cs| - 1]), base, cs[|cs| - 1], k);
      DeriveAtCorrect(base, cs[..|cs| - 1], k);
    }
  }

  /** Every derived key is assigned by some component's pass, and every such key is derived. */
  lemma DeriveKeys(base: seq<(string, Value)>, cs: seq<Component>, k: Key)
    ensures k in Derive(base, cs) <==> exists i :: 0 <= i < |cs| && k in PassKeys(cs[i])
  {
    DeriveAtCorrect(base, cs, k);
    DeriveAtKeys(base, cs, k);
  }

  lemma {:induction false} DeriveAtKeys(base: seq<(string, Value)>, cs: seq<Component>, k: Key)
    ensures DeriveAt(base, cs, k).Some? <==> exists i :: 0 <= i < |cs| && k in PassKeys(cs[i])
    decreases |cs|
  {
    if cs != [] {
      var init := cs[..|cs| - 1];
      DeriveAtKeys(base, init, k);
      forall i | 0 <= i < |init| && k in PassKeys(init[i]) ensures k in PassKeys(cs[i]) {
        assert cs[i] == init[i];
      }
      if exists i :: 0 <= i < |cs| && k in PassKeys(cs[i]) {
        var i :| 0 <= i < |cs| && k in PassKeys(cs[i]);
        if i < |init| {
          assert init[i] == cs[i];
        }
      }
    }
  }

  /** Every derived link is what the pass of some component left under its key. */
  lemma DeriveWriter(base: seq<(string, Value)>, cs: seq<Component>, k: Key) returns (i: nat)
    requires k in Derive(base, cs)
    ensures i < |cs| && k in PassKeys(cs[i])
    ensures At(Derive(base, cs), k) == PassValue(base, cs[i], k)
  {
    DeriveAtCorrect(base, cs, k);
    i := DeriveAtWriter(base, cs, k);
  }

  lemma {:induction false} DeriveAtWriter(base: seq<(string, Value)>, cs: seq<Component>, k: Key) returns (i: nat)
    requires DeriveAt(base, cs, k).Some?
    ensures i < |cs| && k in PassKeys(cs[i])
    ensures DeriveAt(base, cs, k) == PassValue(base, cs[i], k)
    decreases |cs|
  {
    var init := cs[..|cs| - 1];
    if k in PassKeys(cs[|cs| - 1]) {
      i := |cs| - 1;
    } else {
      i := DeriveAtWriter(base, init, k);
      assert init[i] == cs[i];
    }
  }

  /** A key holds what the last pass to assign it left there. */
  lemma DeriveLastWriter(base: seq<(string, Value)>, cs: seq<Component>, i: nat, k: Key)
    requires i < |cs| && k in PassKeys(cs[i])
    requires forall j :: i < j < |cs| ==> k !in PassKeys(cs[j])
    ensures At(Derive(base, cs), k) == PassValue(base, cs[i], k)
  {
    DeriveAtCorrect(base, cs, k);
    DeriveAtLastWriter(base, cs, i, k);
  }

  lemma {:induction false} DeriveAtLastWriter(base: seq<(string, Value)>, cs: seq<Component>, i: nat, k: Key)
    requires i < |cs| && k in PassKeys(cs[i])
    requires forall j :: i < j < |cs| ==> k !in PassKeys(cs[j])
    ensures DeriveAt(base, cs, k) == PassValue(base, cs[i], k)
    decreases |cs|
  {
    var init := cs[..|cs| - 1];
    if i < |init| {
      assert init[i] == cs[i];
      DeriveAtLastWriter(base, init, i, k);
    }
  }

  /** The derived links form a tree: each hangs under the menu root or under another derived link. */
  lemma DeriveParents(base: seq<(string, Value)>, cs: seq<Component>, k: Key)
    requires k in Derive(base, cs)
    ensures Derive(base, cs)[k].parent == "dab.menu" ||
      exists p :: p in Derive(base, cs) && Derive(base, cs)[k].parent == PrefixString(Components) + KeyString(p)
  {
    var i := DeriveWriter(base, cs, k);
    PassParents(base, cs[i], k);
    var l := Derive(base, cs)[k];
    if l.parent != "dab.menu" {
      var p :| p in PassKeys(cs[i]) && l.parent == PrefixString(Components) + KeyString(p);
      DeriveKeys(base, cs, p);
    }
  }

  /**
   * The action links of a component whose keys no later component reuses: each holds the
   * link built for it, under the component link, with its weight.
   */
  lemma DeriveToolLink(base: seq<(string, Value)>, cs: seq<Component>, i: nat, t: Tool)
    requires i < |cs|
    requires forall j :: i < j < |cs| ==> ToolLinkId(t, cs[i]) !in PassKeys(cs[j])
    ensures At(Derive(base, cs), ToolLinkId(t, cs[i])) == Some(ToolLink(base, t, cs[i], GroupOf(cs[i])))
  {
    PassLeaves(base, cs[i]);
    DeriveLastWriter(base, cs, i, ToolLinkId(t, cs[i]));
  }

  /** Likewise the component link, under its group link. */
  lemma DeriveComponentLink(base: seq<(string, Value)>, cs: seq<Component>, i: nat)
    requires i < |cs|
    requires forall j :: i < j < |cs| ==> ComponentLinkId(cs[i]) !in PassKeys(cs[j])
    ensures At(Derive(base, cs), ComponentLinkId(cs[i])) ==
      Some(ComponentLink(base, cs[i], GroupOf(cs[i]), KeyString(GroupLinkId(GroupOf(cs[i])))))
  {
    PassLeaves(base, cs[i]);
    DeriveLastWriter(base, cs, i, ComponentLinkId(cs[i]));
  }

  /** `buildComponentMenuItem`: the four assignments into the links passed by reference. */
  method BuildComponentMenuItem(base: seq<(string, Value)>, links: Links, c: Component, group: string, parent: string)
    returns (out: Links)
    ensures out == ComponentPass(links, base, c, group, parent)
    ensures At(out, ComponentLinkId(c)) == Some(ComponentLink(base, c, group, parent))
    ensures forall t :: At(out, ToolLinkId(t, c)) == Some(ToolLink(base, t, c, group))
    ensures forall k :: k != ComponentLinkId(c) && (forall t :: k != ToolLinkId(t, c)) ==> At(out, k) == At(links, k)
  {
    out := links[ComponentLinkId(c) := ComponentLink(base, c, group, parent)];
    out := out[ToolLinkId(Delete, c) := ToolLink(base, Delete, c, group)];
    out := out[ToolLinkId(Edit, c) := ToolLink(base, Edit, c, group)];
    out := out[ToolLinkId(Duplicate, c) := ToolLink(base, Duplicate, c, group)];
    forall t ensures At(out, ToolLinkId(t, c)) == Some(ToolLink(base, t, c, group)) {
      match t
      case Delete =>
      case Edit =>
      case Duplicate =>
    }
    forall k | k != ComponentLinkId(c) && (forall t :: k != ToolLinkId(t, c)) ensures At(out, k) == At(links, k) {
      assert k != ToolLinkId(Delete, c) && k != ToolLinkId(Edit, c) && k != ToolLinkId(Duplicate, c);
    }
  }

  /** `getDerivativeDefinitions`: the group and "Add" links, then the component's four, per component. */
  method GetDerivativeDefinitions(base: seq<(string, Value)>, cs: seq<Component>) returns (links: Links)
    ensures links == Derive(base, cs)
  {
    links := map[];
    for i := 0 to |cs|
      invariant links == Derive(base, cs[..i])
    {
      assert cs[..i + 1][..i] == cs[..i];
      var c := cs[i];
      var group := GroupOf(c);
      var typeId := GroupLinkId(group);
      links := links[typeId := GroupLink(base, group)];
      links := links[AddLinkId(group) := AddLink(base, group)];
      links := BuildComponentMenuItem(base, links, c, group, KeyString(typeId));
    }
    assert cs[..|cs|] == cs;
  }
}
