/**
 * The component data the browser pages share: the components of one machine
 * name keyed by provider, the one selected, and its versions, which are the
 * prop examples turned inside out (version -> prop -> example).
 */
module ComponentData {
  import opened Wrappers
  import opened Assoc
  import opened Values
  import opened Sdc

  /** Version name to the props that version sets. */
  type Versions = seq<(string, seq<(string, Value)>)>

  /**
   * The discovered components with the requested machine name, keyed by provider;
   * a later component of the same provider replaces an earlier one in place.
   */
  function ByProvider(registry: seq<Component>, machineName: string): (m: seq<(string, Component)>)
    ensures UniqueKeys(m)
    ensures forall p :: Get(m, p).Some? ==>
      Get(m, p).value in registry && Get(m, p).value.machineName == machineName && Get(m, p).value.provider == p
    ensures forall c :: c in registry && c.machineName == machineName ==> Get(m, c.provider).Some?
    decreases |registry|
  {
    if registry == [] then []
    else
      var init := registry[..|registry| - 1];
      var c := registry[|registry| - 1];
      var acc := ByProvider(init, machineName);
      assert forall d :: d in registry ==> d in init || d == c;
      if c.machineName == machineName then Put(acc, c.provider, c) else acc
  }

  /** Each provider keeps the last of its components with that machine name. */
  lemma {:induction false} ByProviderLastWins(registry: seq<Component>, machineName: string, i: nat)
    requires i < |registry| && registry[i].machineName == machineName
    requires forall j :: i < j < |registry| && registry[j].machineName == machineName ==>
      registry[j].provider != registry[i].provider
    ensures Get(ByProvider(registry, machineName), registry[i].provider) == Some(registry[i])
    decreases |registry|
  {
    var init := registry[..|registry| - 1];
    var c := registry[|registry| - 1];
    if i < |registry| - 1 {
      ByProviderLastWins(init, machineName, i);
    }
  }

  /** The selected component: the requested provider's when it has one, else the first; `None` stands for PHP's `false`. */
  function Select(components: seq<(string, Component)>, provider: Option<string>): (r: Option<Component>)
    ensures provider.Some? && provider.value in Keys(components) ==> r == Get(components, provider.value)
    ensures !(provider.Some? && provider.value in Keys(components)) ==> r == First(components)
  {
    if provider.Some? && provider.value in Keys(components) then Get(components, provider.value)
    else First(components)
  }

  /** `$versions[$key][$propKey] = $example` for every example of one prop, in order. */
  function AddExamples(v: Versions, propKey: string, examples: seq<(string, Value)>): Versions
    decreases |examples|
  {
    if examples == [] then v
    else
      AddExample(AddExamples(v, propKey, examples[..|examples| - 1]), propKey, examples[|examples| - 1])
  }

  /** `$versions[$key][$propKey] = $example`. */
  function AddExample(v: Versions, propKey: string, example: (string, Value)): Versions
  {
    Put(v, example.0, Put(Get(v, example.0).GetOr([]), propKey, example.1))
  }

  /** The examples of a prop declaration, when it has an `examples` array. */
  function ExamplesOf(propValues: Value): seq<(string, Value)>
  {
    var ex := Values.Lookup(propValues, "examples");
    if propValues.Arr? && "examples" in Keys(propValues.entries) && ex.Arr? then ex.entries else []
  }

  /**
   * The loop over the prop declarations: `None` when a declaration is not an array,
   * where `array_key_exists` fails with a TypeError.
   */
  function Transpose(v: Versions, properties: seq<(string, Value)>): Option<Versions>
    decreases |properties|
  {
    if properties == [] then Some(v)
    else
      match Transpose(v, properties[..|properties| - 1])
      case None => None
      case Some(acc) =>
        var last := properties[|properties| - 1];
        if !last.1.Arr? then None else Some(AddExamples(acc, last.0, ExamplesOf(last.1)))
  }

  lemma TransposeStep(properties: seq<(string, Value)>, i: nat)
    requires i < |properties|
    ensures Transpose([], properties[..i + 1]) ==
      match Transpose([], properties[..i])
      case None => None
      case Some(acc) =>
        if !properties[i].1.Arr? then None else Some(AddExamples(acc, properties[i].0, ExamplesOf(properties[i].1)))
  {
    assert properties[..i + 1][..i] == properties[..i];
  }

  /** Once a declaration is not an array, the whole loop fails. */
  lemma {:induction false} TransposeFailureStays(properties: seq<(string, Value)>, i: nat)
    requires i <= |properties| && Transpose([], properties[..i]).None?
    ensures Transpose([], properties).None?
    decreases |properties| - i
  {
    if i < |properties| {
      TransposeStep(properties, i);
      TransposeFailureStays(properties, i + 1);
    } else {
      assert properties[..i] == properties;
    }
  }

  lemma AddExamplesStep(v: Versions, propKey: string, examples: seq<(string, Value)>, j: nat)
    requires j < |examples|
    ensures AddExamples(v, propKey, examples[..j + 1]) == AddExample(AddExamples(v, propKey, examples[..j]), propKey, examples[j])
  {
    assert examples[..j + 1][..j] == examples[..j];
  }

  /** The example of prop `p` for version `k`, read from the prop declarations. */
  function ExampleOf(properties: seq<(string, Value)>, p: string, k: string): Option<Value>
  {
    match Get(properties, p)
    case None => None
    case Some(pv) => Get(ExamplesOf(pv), k)
  }

  /** Keys are unique at every level of a decoded value, as in every PHP array. */
  predicate WellFormed(v: Value)
  {
    match v
    case Arr(e) => UniqueKeys(e) && forall i :: 0 <= i < |e| ==> WellFormed(e[i].1)
    case Attribute(e) => UniqueKeys(e) && forall i :: 0 <= i < |e| ==> WellFormed(e[i].1)
    case _ => true
  }

  /** The props version `k` sets, and what it sets prop `p` to. */
  function VersionProp(v: Versions, k: string, p: string): Option<Value>
  {
    Get(Get(v, k).GetOr([]), p)
  }

  /** Adding one prop's examples sets that prop in each example's version and nothing else. */
  lemma {:induction false} AddExamplesSets(v: Versions, propKey: string, examples: seq<(string, Value)>, k: string, p: string)
    requires UniqueKeys(examples)
    ensures VersionProp(AddExamples(v, propKey, examples), k, p)
      == if p == propKey && k in Keys(examples) then Get(examples, k) else VersionProp(v, k, p)
    decreases |examples|
  {
    if examples != [] {
      GetLast(examples, k);
      AddExamplesSets(v, propKey, examples[..|examples| - 1], k, p);
    }
  }

  /** Adding one prop's examples creates the versions they name and no other. */
  lemma {:induction false} AddExamplesVersions(v: Versions, propKey: string, examples: seq<(string, Value)>, k: string)
    requires UniqueKeys(examples)
    ensures Get(AddExamples(v, propKey, examples), k).Some? <==> Get(v, k).Some? || k in Keys(examples)
    decreases |examples|
  {
    if examples != [] {
      GetLast(examples, k);
      AddExamplesVersions(v, propKey, examples[..|examples| - 1], k);
    }
  }

  /** The declarations before the last one are well formed too, and the last one is found by its name. */
  lemma WellFormedInit(properties: seq<(string, Value)>, k: string)
    requires WellFormed(Arr(properties)) && properties != []
    ensures WellFormed(Arr(properties[..|properties| - 1]))
    ensures WellFormed(properties[|properties| - 1].1)
    ensures UniqueKeys(ExamplesOf(properties[|properties| - 1].1))
    ensures forall q :: ExampleOf(properties, q, k) == if q == properties[|properties| - 1].0
      then Get(ExamplesOf(properties[|properties| - 1].1), k) else ExampleOf(properties[..|properties| - 1], q, k)
  {
    var init := properties[..|properties| - 1];
    forall i | 0 <= i < |init| ensures WellFormed(init[i].1) {
      assert init[i] == properties[i];
    }
    var pv := properties[|properties| - 1].1;
    if pv.Arr? && "examples" in Keys(pv.entries) && Values.Lookup(pv, "examples").Arr? {
      var i :| 0 <= i < |pv.entries| && pv.entries[i] == ("examples", Values.Lookup(pv, "examples"));
      assert WellFormed(pv.entries[i].1);
    }
    forall q ensures ExampleOf(properties, q, k) == if q == properties[|properties| - 1].0
      then Get(ExamplesOf(properties[|properties| - 1].1), k) else ExampleOf(init, q, k) {
      GetLast(properties, q);
    }
  }

  /**
   * Version transposition: version `k` sets prop `p` exactly when the declaration of `p`
   * has an example `k`, and to that example.
   */
  lemma {:induction false} TransposeSets(properties: seq<(string, Value)>, k: string, p: string)
    requires WellFormed(Arr(properties))
    requires Transpose([], properties).Some?
    ensures VersionProp(Transpose([], properties).value, k, p) == ExampleOf(properties, p, k)
    decreases |properties|
  {
    if properties != [] {
      var last := properties[|properties| - 1];
      WellFormedInit(properties, k);
      TransposeSets(properties[..|properties| - 1], k, p);
      AddExamplesSets(Transpose([], properties[..|properties| - 1]).value, last.0, ExamplesOf(last.1), k, p);
    }
  }

  /** A version exists exactly when some prop declaration has an example under its name. */
  lemma {:induction false} TransposeVersions(properties: seq<(string, Value)>, k: string)
    requires WellFormed(Arr(properties))
    requires Transpose([], properties).Some?
    ensures Get(Transpose([], properties).value, k).Some? <==> exists q :: ExampleOf(properties, q, k).Some?
    decreases |properties|
  {
    if properties != [] {
      var init := properties[..|properties| - 1];
      var last := properties[|properties| - 1];
      var ex := ExamplesOf(last.1);
      WellFormedInit(properties, k);
      GetLast(properties, last.0);
      TransposeVersions(init, k);
      AddExamplesVersions(Transpose([], init).value, last.0, ex, k);
      if Get(Transpose([], properties).value, k).Some? {
        if k in Keys(ex) {
          assert ExampleOf(properties, last.0, k).Some?;
        } else {
          var q :| ExampleOf(init, q, k).Some?;
          assert ExampleOf(properties, q, k).Some?;
        }
      }
    }
  }

  /**
   * `getComponentVersions` as written: with no `props` entry, the second operand of the
   * `&&` guard reads a missing key, and `array_key_exists` on `null` fails with a
   * TypeError (`None`).
   */
  function VersionsAsWritten(c: Component): Option<Versions>
  {
    if c.props.None? then None
    else
      var properties := Values.Lookup(c.props.value, "properties");
      Transpose([], if properties.Arr? then properties.entries else [])
  }

  /** `getComponentVersions` with the guard as intended (`||`): no props, no versions. */
  function ComponentVersions(c: Component): (r: Option<Versions>)
    ensures c.props.None? ==> r == Some([])
    ensures c.props.Some? ==> r == VersionsAsWritten(c)
  {
    if c.props.None? then Some([]) else VersionsAsWritten(c)
  }

  /** A component without props: the guard as written fails on it. */
  lemma VersionsAsWrittenFailsWithoutProps(c: Component)
    requires c.props.None?
    ensures VersionsAsWritten(c).None? && ComponentVersions(c) == Some([])
  {
  }

  /** A select element: its id, options (value to label) and current value. */
  datatype SelectElement = SelectElement(id: string, options: seq<(string, string)>, value: Option<string>)

  /** The providers of the listed components, in order. */
  function Providers(components: seq<(string, Component)>): (r: seq<string>)
    ensures |r| == |components|
    ensures forall i :: 0 <= i < |r| ==> r[i] == components[i].1.provider
  {
    seq(|components|, i requires 0 <= i < |components| => components[i].1.provider)
  }

  /** `getProviderOptions`: each provider having the component, mapped to itself. */
  function ProviderOptions(components: seq<(string, Component)>): (r: seq<(string, string)>)
    ensures forall p :: Get(r, p).Some? ==> Get(r, p) == Some(p)
    ensures forall p :: p in Keys(r) <==> p in Providers(components)
    decreases |components|
  {
    if components == [] then []
    else
      var init := components[..|components| - 1];
      var p := components[|components| - 1].1.provider;
      assert Providers(components) == Providers(init) + [p];
      Put(ProviderOptions(init), p, p)
  }

  /** For the components of one machine name, the provider options are exactly the providers found. */
  lemma ProviderOptionsOfByProvider(registry: seq<Component>, machineName: string, p: string)
    ensures var m := ByProvider(registry, machineName);
      p in Keys(ProviderOptions(m)) <==> p in Keys(m)
  {
    var m := ByProvider(registry, machineName);
    if p in Keys(m) {
      var i :| 0 <= i < |m| && Keys(m)[i] == p;
      GetUnique(m, i);
    }
    if p in Keys(ProviderOptions(m)) {
      var i :| 0 <= i < |m| && Providers(m)[i] == p;
      GetUnique(m, i);
      assert m[i].1.provider == m[i].0;
    }
  }

  /** `getTemplateSelect`: offered only when more than one provider has the component. */
  function TemplateSelect(components: seq<(string, Component)>, provider: Option<string>): (r: Option<SelectElement>)
    ensures r.Some? <==> |components| > 1
    ensures r.Some? ==>
      && r.value.options == ProviderOptions(components)
      && r.value.value == provider
      && r.value.id == "template-select"
  {
    if |components| > 1 then Some(SelectElement("template-select", ProviderOptions(components), provider)) else None
  }

  /** The version options: each version name mapped to itself, in order. */
  function KeyOptions(v: Versions): (r: seq<(string, string)>)
    ensures Keys(r) == Keys(v)
    ensures forall i :: 0 <= i < |r| ==> r[i].1 == r[i].0
  {
    seq(|v|, i requires 0 <= i < |v| => (v[i].0, v[i].0))
  }

  /** `getVersionSelect`: shown only for two or more versions; the given version, else the first. */
  function VersionSelect(v: Versions, version: Option<string>): (r: Option<SelectElement>)
    ensures r.Some? <==> |v| > 1
    ensures r.Some? ==> Keys(r.value.options) == Keys(v) && r.value.id == "version-select"
    ensures r.Some? ==> r.value.value == if version.Some? then version else Some(v[0].0)
  {
    if |v| > 1 then
      var options := KeyOptions(v);
      Some(SelectElement("version-select", options, if version.Some? then version else Some(options[0].1)))
    else None
  }

  /** An installed extension: machine name, path and human-readable name. */
  datatype Extension = Extension(name: string, path: string, title: string)

  /** `preg_match('/^<prefix>/')` on the extension path, then `$options[name] = label`, in order. */
  function CustomOptions(exts: seq<Extension>, prefix: string): (r: seq<(string, string)>)
    ensures forall n :: n in Keys(r) <==> exists e :: e in exts && prefix <= e.path && e.name == n
    decreases |exts|
  {
    if exts == [] then []
    else
      var init := exts[..|exts| - 1];
      var e := exts[|exts| - 1];
      var acc := CustomOptions(init, prefix);
      assert forall x :: x in exts <==> x in init || x == e;
      if prefix <= e.path then Put(acc, e.name, e.title) else acc
  }

  lemma CustomOptionsStep(exts: seq<Extension>, prefix: string, i: nat)
    requires i < |exts|
    ensures CustomOptions(exts[..i + 1], prefix) ==
      if prefix <= exts[i].path then Put(CustomOptions(exts[..i], prefix), exts[i].name, exts[i].title)
      else CustomOptions(exts[..i], prefix)
  {
    assert exts[..i + 1][..i] == exts[..i];
  }

  /** `getExtensionsOptions`: custom modules under "Modules", then custom themes under "Themes"; a group only when it has one. */
  function ExtensionsOptions(hasServices: bool, modules: seq<Extension>, themes: seq<Extension>): (r: seq<(string, seq<(string, string)>)>)
    ensures !hasServices ==> r == []
    ensures hasServices ==> Get(r, "Modules") == (if CustomOptions(modules, "modules/custom") == [] then None else Some(CustomOptions(modules, "modules/custom")))
    ensures hasServices ==> Get(r, "Themes") == (if CustomOptions(themes, "themes/custom") == [] then None else Some(CustomOptions(themes, "themes/custom")))
    ensures Keys(r) <= ["Modules", "Themes"] || Keys(r) == ["Themes"]
  {
    if !hasServices then []
    else
      var mods := CustomOptions(modules, "modules/custom");
      var ths := CustomOptions(themes, "themes/custom");
      (if mods == [] then [] else [("Modules", mods)]) + (if ths == [] then [] else [("Themes", ths)])
  }

  /**
   * `getComponentVersions` (guard as intended): the nested loops over the prop
   * declarations and their examples; `None` when a declaration is not an array.
   */
  method CollectVersions(c: Component) returns (r: Option<Versions>)
    ensures r == ComponentVersions(c)
  {
    if c.props.None? {
      return Some([]);
    }
    var lookup := Values.Lookup(c.props.value, "properties");
    var properties := if lookup.Arr? then lookup.entries else [];
    var acc: Versions := [];
    var i := 0;
    while i < |properties|
      invariant 0 <= i <= |properties|
      invariant Transpose([], properties[..i]) == Some(acc)
    {
      TransposeStep(properties, i);
      var propKey := properties[i].0;
      var propValues := properties[i].1;
      if !propValues.Arr? {
        TransposeFailureStays(properties, i + 1);
        return None;
      }
      var examples := ExamplesOf(propValues);
      ghost var before := acc;
      var j := 0;
      while j < |examples|
        invariant 0 <= j <= |examples|
        invariant acc == AddExamples(before, propKey, examples[..j])
      {
        AddExamplesStep(before, propKey, examples, j);
        acc := AddExample(acc, propKey, examples[j]);
        j := j + 1;
      }
      assert examples[..j] == examples;
      i := i + 1;
    }
    assert properties[..i] == properties;
    r := Some(acc);
  }

  /** The trait's state, shared by the pages and forms that use it. */
  class DabComponentData {
    /** Provider to component, for the requested machine name; `None` is the `null` of the unset property. */
    var components: Option<seq<(string, Component)>>
    /** The component shown; `None` is PHP's `false` from `reset([])`. */
    var component: Option<Component>
    var versions: Versions

    constructor()
      ensures components.None? && component.None? && versions == []
    {
      components := None;
      component := None;
      versions := [];
    }

    /**
     * `getComponentData`: without the plugin service nothing changes; otherwise the
     * components of the machine name are collected, one is selected and its versions
     * are computed. `discovered` is `None` when discovery throws: the error is reported
     * and the code goes on with no components. `ok` is false when the request ends in
     * an uncaught error: no component matched (`false->getPluginDefinition()`) or a prop
     * declaration is not an array.
     */
    method GetComponentData(hasService: bool, discovered: Option<seq<Component>>, machineName: string, provider: Option<string>)
      returns (ok: bool)
      modifies this
      ensures !hasService ==> ok && components == old(components) && component == old(component) && versions == old(versions)
      ensures hasService ==> components == Some(ByProvider(discovered.GetOr([]), machineName))
      ensures hasService ==> component == Select(components.value, provider)
      ensures hasService ==> ok == (component.Some? && ComponentVersions(component.value).Some?)
      ensures hasService && ok ==> versions == ComponentVersions(component.value).value
      ensures hasService && !ok ==> versions == old(versions)
    {
      if !hasService {
        return true;
      }
      var found := ByProvider(discovered.GetOr([]), machineName);
      components := Some(found);
      component := Select(found, provider);
      if component.None? {
        return false;
      }
      ok := GetComponentVersions();
    }

    /** `getComponentVersions`, storing what the loops compute; on failure nothing is stored. */
    method GetComponentVersions() returns (ok: bool)
      requires component.Some?
      modifies this
      ensures components == old(components) && component == old(component)
      ensures ok == ComponentVersions(component.value).Some?
      ensures ok ==> versions == ComponentVersions(component.value).value
      ensures !ok ==> versions == old(versions)
    {
      var r := CollectVersions(component.value);
      ok := r.Some?;
      if ok {
        versions := r.value;
      }
    }

    /**
     * `getTemplateSelect` on the current components; `None` is the `TypeError` of
     * `array_reduce` on components never set.
     */
    function GetTemplateSelect(provider: Option<string>): (r: Option<Option<SelectElement>>)
      reads this
      ensures r.None? <==> components.None?
      ensures components.Some? ==> r == Some(TemplateSelect(components.value, provider))
    {
      match components
      case None => None
      case Some(cs) => Some(TemplateSelect(cs, provider))
    }

    /** `getVersionSelect` on the current versions. */
    function GetVersionSelect(version: Option<string>): (r: Option<SelectElement>)
      reads this
      ensures r == VersionSelect(versions, version)
    {
      VersionSelect(versions, version)
    }

    /** `getExtensionsOptions`: the two loops over the installed modules and themes. */
    method GetExtensionsOptions(hasServices: bool, modules: seq<Extension>, themes: seq<Extension>)
      returns (options: seq<(string, seq<(string, string)>)>)
      ensures options == ExtensionsOptions(hasServices, modules, themes)
    {
      if !hasServices {
        return [];
      }
      var mods: seq<(string, string)> := [];
      for i := 0 to |modules|
        invariant mods == CustomOptions(modules[..i], "modules/custom")
      {
        CustomOptionsStep(modules, "modules/custom", i);
        if "modules/custom" <= modules[i].path {
          mods := Put(mods, modules[i].name, modules[i].title);
        }
      }
      assert modules[..|modules|] == modules;
      var ths: seq<(string, string)> := [];
      for i := 0 to |themes|
        invariant ths == CustomOptions(themes[..i], "themes/custom")
      {
        CustomOptionsStep(themes, "themes/custom", i);
        if "themes/custom" <= themes[i].path {
          ths := Put(ths, themes[i].name, themes[i].title);
        }
      }
      assert themes[..|themes|] == themes;
      options := [];
      if mods != [] {
        options := options + [("Modules", mods)];
      }
      if ths != [] {
        options := options + [("Themes", ths)];
      }
    }
  }
}
