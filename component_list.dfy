/**
 * The component list page: every discovered component grouped by its group
 * (default "other"), a header per group, the components whose machine name
 * holds the filter text, and the groups ordered by key.
 */
module ComponentList {
  import opened Wrappers
  import opened Strings
  import opened Assoc
  import opened Sdc

  /** The two routes the page links to. */
  datatype Route =
    | ComponentTypeList(componentType: string)
    | ComponentPage(componentType: string, machineName: string, provider: string)

  /** One listed component. */
  datatype Entry = Entry(title: string, pluginId: string, description: string, url: Route)

  /** A group header; `components` is absent until a component of the group is listed. */
  datatype GroupHeader = GroupHeader(title: string, url: Route, active: bool, components: Option<seq<(string, Entry)>>)

  /** What the loop builds: `$componentList` and `$allComponents`. */
  datatype Listing = Listing(groups: seq<(string, GroupHeader)>, all: seq<(string, Entry)>)

  /**
   * The render array: `Failed` is the empty array returned when discovery throws;
   * `components` is `None` where PHP reads a missing key as `null`.
   */
  datatype Page = Failed | ListPage(componentsTypes: seq<(string, GroupHeader)>, components: Option<seq<(string, Entry)>>)

  /** `$pluginDefinition['group'] ?? 'other'`. */
  function GroupOf(c: Component): (g: string)
    ensures c.group.None? ==> g == "other"
    ensures c.group.Some? ==> g == c.group.value
  {
    c.group.GetOr("other")
  }

  /** `query->get('filter') ?: ''`: a missing or falsy filter is the empty string. */
  function FilterOf(param: Option<string>): (f: string)
    ensures EmptyOrNull(param) ==> f == ""
    ensures !EmptyOrNull(param) ==> f == param.value
  {
    if EmptyOrNull(param) then "" else param.value
  }

  /** A component is listed when the filter is empty or occurs in its machine name. */
  predicate Listed(c: Component, filter: string)
  {
    PhpEmpty(filter) || Contains(c.machineName, filter)
  }

  function EntryOf(c: Component): Entry
  {
    Entry(c.name.GetOr(Ucfirst(c.machineName)), c.id, c.description.GetOr(""), ComponentPage(GroupOf(c), c.machineName, c.provider))
  }

  function Header(g: string, componentType: Option<string>): GroupHeader
  {
    GroupHeader(Ucfirst(g), ComponentTypeList(g), componentType == Some(g), None)
  }

  /** The components listed under group `g`. */
  function Members(l: Listing, g: string): seq<(string, Entry)>
  {
    match Get(l.groups, g)
    case None => []
    case Some(h) => h.components.GetOr([])
  }

  /** One pass of the loop body. */
  function Step(l: Listing, c: Component, componentType: Option<string>, filter: string): Listing
  {
    var g := GroupOf(c);
    var groups := if g in Keys(l.groups) then l.groups else Put(l.groups, g, Header(g, componentType));
    if !Listed(c, filter) then Listing(groups, l.all)
    else
      var e := EntryOf(c);
      var h := Get(groups, g).value;
      Listing(Put(groups, g, h.(components := Some(Put(h.components.GetOr([]), c.id, e)))), Put(l.all, c.id, e))
  }

  /** The loop over the discovered components, in discovery order. */
  function Collect(cs: seq<Component>, componentType: Option<string>, filter: string): Listing
    decreases |cs|
  {
    if cs == [] then Listing([], [])
    else Step(Collect(cs[..|cs| - 1], componentType, filter), cs[|cs| - 1], componentType, filter)
  }

  lemma CollectStep(cs: seq<Component>, i: nat, componentType: Option<string>, filter: string)
    requires i < |cs|
    ensures Collect(cs[..i + 1], componentType, filter) == Step(Collect(cs[..i], componentType, filter), cs[i], componentType, filter)
  {
    assert cs[..i + 1][..i] == cs[..i];
  }

  /** One pass adds the component's group, with a fresh header, when it is new. */
  lemma StepHeaders(l: Listing, c: Component, componentType: Option<string>, filter: string, g: string)
    requires g in Keys(l.groups) ==> Get(l.groups, g).value.(components := None) == Header(g, componentType)
    ensures var r := Step(l, c, componentType, filter);
      && (g in Keys(r.groups) <==> g in Keys(l.groups) || g == GroupOf(c))
      && (g in Keys(r.groups) ==> Get(r.groups, g).value.(components := None) == Header(g, componentType))
  {
  }

  /** One pass lists the component, when the filter lets it through, and nothing else. */
  lemma StepMembers(l: Listing, c: Component, componentType: Option<string>, filter: string, g: string, id: string)
    ensures var r := Step(l, c, componentType, filter);
      Get(Members(r, g), id) ==
        if Listed(c, filter) && g == GroupOf(c) && id == c.id then Some(EntryOf(c)) else Get(Members(l, g), id)
  {
  }

  /** One pass adds the component to the full list, when the filter lets it through, and nothing else. */
  lemma StepAll(l: Listing, c: Component, componentType: Option<string>, filter: string, id: string)
    ensures Get(Step(l, c, componentType, filter).all, id) ==
      if Listed(c, filter) && id == c.id then Some(EntryOf(c)) else Get(l.all, id)
  {
  }

  /**
   * Every group of every discovered component has a header, whatever the filter, and
   * no other group has one; the header is titled after the group, links to it and is
   * active exactly for the requested type.
   */
  lemma {:induction false} CollectGroups(cs: seq<Component>, componentType: Option<string>, filter: string, g: string)
    ensures var l := Collect(cs, componentType, filter);
      g in Keys(l.groups) <==> exists i :: 0 <= i < |cs| && GroupOf(cs[i]) == g
    ensures var l := Collect(cs, componentType, filter);
      g in Keys(l.groups) ==> Get(l.groups, g).value.(components := None) == Header(g, componentType)
    decreases |cs|
  {
    if cs != [] {
      var init := cs[..|cs| - 1];
      var last := cs[|cs| - 1];
      CollectGroups(init, componentType, filter, g);
      var before := Collect(init, componentType, filter);
      assert Collect(cs, componentType, filter) == Step(before, last, componentType, filter);
      StepHeaders(before, last, componentType, filter, g);
      HasGroupSnoc(cs, init, g);
    }
  }

  lemma HasGroupSnoc(cs: seq<Component>, init: seq<Component>, g: string)
    requires cs != [] && init == cs[..|cs| - 1]
    ensures (exists i :: 0 <= i < |cs| && GroupOf(cs[i]) == g) <==>
      (exists i :: 0 <= i < |init| && GroupOf(init[i]) == g) || GroupOf(cs[|cs| - 1]) == g
  {
    if exists i :: 0 <= i < |cs| && GroupOf(cs[i]) == g {
      var i :| 0 <= i < |cs| && GroupOf(cs[i]) == g;
      if i < |init| {
        assert GroupOf(init[i]) == g;
      }
    }
    if exists i :: 0 <= i < |init| && GroupOf(init[i]) == g {
      var i :| 0 <= i < |init| && GroupOf(init[i]) == g;
      assert GroupOf(cs[i]) == g;
    }
  }

  /** Only listed components appear, in the group of their own and in the full list. */
  lemma {:induction false} CollectListsOnlyListed(cs: seq<Component>, componentType: Option<string>, filter: string, g: string, id: string)
    ensures var l := Collect(cs, componentType, filter);
      Get(Members(l, g), id).Some? ==> exists i :: 0 <= i < |cs| && Listed(cs[i], filter) && GroupOf(cs[i]) == g && cs[i].id == id
    ensures var l := Collect(cs, componentType, filter);
      Get(l.all, id).Some? ==> exists i :: 0 <= i < |cs| && Listed(cs[i], filter) && cs[i].id == id
    decreases |cs|
  {
    if cs != [] {
      var init := cs[..|cs| - 1];
      var c := cs[|cs| - 1];
      CollectListsOnlyListed(init, componentType, filter, g, id);
      var before := Collect(init, componentType, filter);
      var l := Collect(cs, componentType, filter);
      assert l == Step(before, c, componentType, filter);
      StepMembers(before, c, componentType, filter, g, id);
      StepAll(before, c, componentType, filter, id);
      if Get(Members(l, g), id).Some? && !(Listed(c, filter) && GroupOf(c) == g && c.id == id) {
        var i :| 0 <= i < |init| && Listed(init[i], filter) && GroupOf(init[i]) == g && init[i].id == id;
        assert cs[i] == init[i];
      }
      if Get(l.all, id).Some? && !(Listed(c, filter) && c.id == id) {
        var i :| 0 <= i < |init| && Listed(init[i], filter) && init[i].id == id;
        assert cs[i] == init[i];
      }
    }
  }

  /** No two discovered components share a plugin id. */
  predicate UniqueIds(cs: seq<Component>)
  {
    forall i, j :: 0 <= i < j < |cs| ==> cs[i].id != cs[j].id
  }

  /** The last component, when listed, is in the full list with its entry. */
  lemma CollectListsLast(cs: seq<Component>, componentType: Option<string>, filter: string)
    requires cs != [] && Listed(cs[|cs| - 1], filter)
    ensures Get(Collect(cs, componentType, filter).all, cs[|cs| - 1].id) == Some(EntryOf(cs[|cs| - 1]))
  {
    StepAll(Collect(cs[..|cs| - 1], componentType, filter), cs[|cs| - 1], componentType, filter, cs[|cs| - 1].id);
  }

  /** An entry in the full list stays when a component with another id follows. */
  lemma CollectListsKeeps(cs: seq<Component>, componentType: Option<string>, filter: string, id: string)
    requires cs != [] && cs[|cs| - 1].id != id
    ensures Get(Collect(cs, componentType, filter).all, id) == Get(Collect(cs[..|cs| - 1], componentType, filter).all, id)
  {
    StepAll(Collect(cs[..|cs| - 1], componentType, filter), cs[|cs| - 1], componentType, filter, id);
  }

  /** Every listed component appears in the full list under its plugin id, with its entry. */
  lemma {:induction false} CollectListsEveryListed(cs: seq<Component>, componentType: Option<string>, filter: string, i: nat)
    requires i < |cs| && Listed(cs[i], filter)
    requires forall j :: i < j < |cs| ==> cs[j].id != cs[i].id
    ensures Get(Collect(cs, componentType, filter).all, cs[i].id) == Some(EntryOf(cs[i]))
    decreases |cs|
  {
    if i < |cs| - 1 {
      var init := cs[..|cs| - 1];
      assert init[i] == cs[i];
      CollectListsEveryListed(init, componentType, filter, i);
      CollectListsKeeps(cs, componentType, filter, cs[i].id);
    } else {
      CollectListsLast(cs, componentType, filter);
    }
  }

  /** The last component, when listed, is in its group with its entry. */
  lemma CollectGroupsListLast(cs: seq<Component>, componentType: Option<string>, filter: string)
    requires cs != [] && Listed(cs[|cs| - 1], filter)
    ensures Get(Members(Collect(cs, componentType, filter), GroupOf(cs[|cs| - 1])), cs[|cs| - 1].id) == Some(EntryOf(cs[|cs| - 1]))
  {
    var c := cs[|cs| - 1];
    StepMembers(Collect(cs[..|cs| - 1], componentType, filter), c, componentType, filter, GroupOf(c), c.id);
  }

  /** A group's entry stays when a component with another id follows. */
  lemma CollectGroupsKeeps(cs: seq<Component>, componentType: Option<string>, filter: string, g: string, id: string)
    requires cs != [] && cs[|cs| - 1].id != id
    ensures Get(Members(Collect(cs, componentType, filter), g), id) == Get(Members(Collect(cs[..|cs| - 1], componentType, filter), g), id)
  {
    StepMembers(Collect(cs[..|cs| - 1], componentType, filter), cs[|cs| - 1], componentType, filter, g, id);
  }

  /** Every listed component appears in its group under its plugin id, with its entry. */
  lemma {:induction false} CollectGroupsListEveryListed(cs: seq<Component>, componentType: Option<string>, filter: string, i: nat)
    requires i < |cs| && Listed(cs[i], filter)
    requires forall j :: i < j < |cs| ==> cs[j].id != cs[i].id
    ensures Get(Members(Collect(cs, componentType, filter), GroupOf(cs[i])), cs[i].id) == Some(EntryOf(cs[i]))
    decreases |cs|
  {
    if i < |cs| - 1 {
      var init := cs[..|cs| - 1];
      assert init[i] == cs[i];
      CollectGroupsListEveryListed(init, componentType, filter, i);
      CollectGroupsKeeps(cs, componentType, filter, GroupOf(cs[i]), cs[i].id);
    } else {
      CollectGroupsListLast(cs, componentType, filter);
    }
  }

  /** The full list is the union of the group lists. */
  lemma AllIsUnionOfGroups(cs: seq<Component>, componentType: Option<string>, filter: string, id: string, e: Entry)
    requires UniqueIds(cs)
    ensures var l := Collect(cs, componentType, filter);
      Get(l.all, id) == Some(e) <==> exists g :: Get(Members(l, g), id) == Some(e)
  {
    var l := Collect(cs, componentType, filter);
    CollectListsOnlyListed(cs, componentType, filter, "", id);
    if Get(l.all, id) == Some(e) {
      var i :| 0 <= i < |cs| && Listed(cs[i], filter) && cs[i].id == id;
      CollectListsEveryListed(cs, componentType, filter, i);
      CollectGroupsListEveryListed(cs, componentType, filter, i);
      assert Get(Members(l, GroupOf(cs[i])), id) == Some(e);
    }
    if exists g :: Get(Members(l, g), id) == Some(e) {
      var g :| Get(Members(l, g), id) == Some(e);
      CollectListsOnlyListed(cs, componentType, filter, g, id);
      var i :| 0 <= i < |cs| && Listed(cs[i], filter) && GroupOf(cs[i]) == g && cs[i].id == id;
      CollectListsEveryListed(cs, componentType, filter, i);
      CollectGroupsListEveryListed(cs, componentType, filter, i);
    }
  }

  /** Byte-wise string order, as `ksort` compares non-numeric string keys. */
  predicate KeyLeq(a: string, b: string)
    decreases |a|
  {
    a == [] || (b != [] && (a[0] < b[0] || (a[0] == b[0] && KeyLeq(a[1..], b[1..]))))
  }

  lemma {:induction false} KeyLeqTotal(a: string, b: string)
    ensures KeyLeq(a, b) || KeyLeq(b, a)
    decreases |a|
  {
    if a != [] && b != [] && a[0] == b[0] {
      KeyLeqTotal(a[1..], b[1..]);
    }
  }

  predicate SortedByKey<V>(s: seq<(string, V)>)
  {
    forall i :: 0 <= i < |s| - 1 ==> KeyLeq(s[i].0, s[i + 1].0)
  }

  function Insert<V>(x: (string, V), s: seq<(string, V)>): (r: seq<(string, V)>)
    ensures multiset(r) == multiset(s) + multiset{x}
    ensures |r| == |s| + 1
    ensures r[0] == x || (s != [] && r[0] == s[0])
  {
    if s == [] then [x]
    else if KeyLeq(x.0, s[0].0) then [x] + s
    else
      var r := [s[0]] + Insert(x, s[1..]);
      assert s == [s[0]] + s[1..];
      r
  }

  lemma {:induction false} InsertSorted<V>(x: (string, V), s: seq<(string, V)>)
    requires SortedByKey(s)
    ensures SortedByKey(Insert(x, s))
    decreases |s|
  {
    if s != [] && !KeyLeq(x.0, s[0].0) {
      KeyLeqTotal(x.0, s[0].0);
      assert SortedByKey(s[1..]) by {
        forall i | 0 <= i < |s[1..]| - 1 ensures KeyLeq(s[1..][i].0, s[1..][i + 1].0) {
          assert s[1..][i] == s[i + 1] && s[1..][i + 1] == s[i + 2];
        }
      }
      InsertSorted(x, s[1..]);
    }
  }

  /** `ksort`. */
  function SortByKey<V>(s: seq<(string, V)>): (r: seq<(string, V)>)
    ensures multiset(r) == multiset(s)
  {
    if s == [] then []
    else
      assert s == [s[0]] + s[1..];
      Insert(s[0], SortByKey(s[1..]))
  }

  /** `ksort` leaves the entries ordered by key, and only reorders them. */
  lemma {:induction false} SortByKeySorted<V>(s: seq<(string, V)>)
    ensures SortedByKey(SortByKey(s)) && multiset(SortByKey(s)) == multiset(s)
    decreases |s|
  {
    if s != [] {
      SortByKeySorted(s[1..]);
      InsertSorted(s[0], SortByKey(s[1..]));
    }
  }

  /** The render array built from the loop's result. */
  function PageOf(l: Listing, componentType: Option<string>): Page
  {
    ListPage(SortByKey(l.groups),
      if EmptyOrNull(componentType) then Some(l.all)
      else match Get(l.groups, componentType.value)
        case None => None
        case Some(h) => h.components)
  }

  /**
   * `#components`: all listed components when no type is given, that group's listed
   * components otherwise; the headers come ordered by group.
   */
  lemma PageComponents(l: Listing, componentType: Option<string>)
    ensures PageOf(l, componentType).ListPage?
    ensures SortedByKey(PageOf(l, componentType).componentsTypes)
    ensures multiset(PageOf(l, componentType).componentsTypes) == multiset(l.groups)
    ensures EmptyOrNull(componentType) ==> PageOf(l, componentType).components == Some(l.all)
    ensures !EmptyOrNull(componentType) && PageOf(l, componentType).components.Some? ==>
      PageOf(l, componentType).components.value == Members(l, componentType.value)
  {
    SortByKeySorted(l.groups);
  }

  /** `build`: the loop over the discovered components, then `ksort`. */
  method Build(discovered: Option<seq<Component>>, componentType: Option<string>, filterParam: Option<string>)
    returns (page: Page)
    ensures discovered.None? ==> page == Failed
    ensures discovered.Some? ==> page == PageOf(Collect(discovered.value, componentType, FilterOf(filterParam)), componentType)
  {
    if discovered.None? {
      return Failed;
    }
    var cs := discovered.value;
    var filter := FilterOf(filterParam);
    var groups: seq<(string, GroupHeader)> := [];
    var all: seq<(string, Entry)> := [];
    for i := 0 to |cs|
      invariant Listing(groups, all) == Collect(cs[..i], componentType, filter)
    {
      CollectStep(cs, i, componentType, filter);
      var c := cs[i];
      var g := GroupOf(c);
      if g !in Keys(groups) {
        groups := Put(groups, g, Header(g, componentType));
      }
      if Listed(c, filter) {
        var e := EntryOf(c);
        var h := Get(groups, g).value;
        groups := Put(groups, g, h.(components := Some(Put(h.components.GetOr([]), c.id, e))));
        all := Put(all, c.id, e);
      }
    }
    assert cs[..|cs|] == cs;
    var sorted := SortByKey(groups);
    var selected := if EmptyOrNull(componentType) then Some(all)
      else match Get(groups, componentType.value)
        case None => None
        case Some(h) => h.components;
    page := ListPage(sorted, selected);
  }

  /** `getTitle`: the module's name when no type is given, else the type with its first letter upper-cased. */
  function Title(componentType: Option<string>): (r: string)
    ensures componentType.None? ==> r == "Drupal Atomic Builder"
    ensures componentType.Some? ==> |r| == |componentType.value| && r == Ucfirst(componentType.value)
  {
    if componentType.None? then "Drupal Atomic Builder" else Ucfirst(componentType.value)
  }
}
