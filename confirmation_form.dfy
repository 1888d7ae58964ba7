/**
 * The form that confirms deleting or duplicating a component: which fields it offers
 * for the requested action, and what confirming does to the files of the components
 * chosen.
 */
module ConfirmationForm {
  import opened Wrappers
  import opened Strings
  import opened Assoc
  import opened Sdc
  import opened Fs
  import opened FileManager
  import opened ComponentData
  import opened ComponentController

  /** The two actions the form confirms. */
  datatype Action = Delete | Duplicate

  /** The route argument that names an action. */
  function ActionName(a: Action): string
  {
    match a
    case Delete => "delete"
    case Duplicate => "duplicate"
  }

  /** The route's action argument: one of the two action names, compared as strings. */
  function ParseAction(action: Option<string>): (r: Option<Action>)
    ensures r.None? <==> action.None? || action.value !in ["delete", "duplicate"]
    ensures r.Some? ==> action == Some(ActionName(r.value))
  {
    if action == Some("delete") then Some(Delete)
    else if action == Some("duplicate") then Some(Duplicate)
    else None
  }

  /** Each action is read back from its name. */
  lemma ParseActionName(a: Action)
    ensures ParseAction(Some(ActionName(a))) == Some(a)
  {
  }

  /** The guard of `buildForm`: a machine name, a type and a known action, or the page is not found. */
  predicate Requested(componentType: Option<string>, machineName: Option<string>, action: Option<string>)
  {
    !EmptyOrNull(machineName) && !EmptyOrNull(componentType) && ParseAction(action).Some?
  }

  /** The provider select of the duplicate action: the custom extensions, the route's provider preselected. */
  datatype ProviderField = ProviderField(options: seq<(string, seq<(string, string)>)>, value: Option<string>)

  /** What `buildForm` decides about the fields. */
  datatype ConfirmationFields = ConfirmationFields(
    action: Action,
    origin: Option<SelectElement>,
    checkboxes: bool,
    provider: Option<ProviderField>,
    buttonType: string)

  /**
   * The fields: the template select (check-boxes when deleting), the provider select
   * when duplicating, and a danger button for a deletion.
   */
  function FieldsOf(action: Action, components: seq<(string, Component)>, provider: Option<string>,
                    extensions: seq<(string, seq<(string, string)>)>): ConfirmationFields
  {
    var origin := TemplateSelect(components, provider);
    ConfirmationFields(
      action,
      origin,
      origin.Some? && action == Delete,
      if action == Duplicate then Some(ProviderField(extensions, provider)) else None,
      if action == Delete then "danger" else "primary")
  }

  /**
   * A choice of origin is offered exactly when more than one provider has the component,
   * among exactly those providers, as check-boxes when deleting; a target provider is
   * asked for exactly when duplicating; the button warns exactly for a deletion.
   */
  lemma FieldsOffered(action: Action, components: seq<(string, Component)>, provider: Option<string>,
                      extensions: seq<(string, seq<(string, string)>)>)
    ensures var f := FieldsOf(action, components, provider, extensions);
      && (f.origin.Some? <==> |components| > 1)
      && (f.origin.Some? ==> forall p :: p in Keys(f.origin.value.options) <==> p in Providers(components))
      && (f.checkboxes <==> |components| > 1 && action == Delete)
      && (f.provider.Some? <==> action == Duplicate)
      && (f.buttonType == "danger" <==> action == Delete)
  {
  }

  // ---------------------------------------------------------------------------
  // Submission
  // ---------------------------------------------------------------------------

  /**
   * The submitted `origin`: nothing when no field was offered, the provider chosen in
   * the select, or the values of the check-boxes (an unchecked box submits 0, which as
   * an array key is the provider "0").
   */
  datatype OriginValue = Absent | Chosen(provider: string) | Checked(values: seq<string>)

  /**
   * `is_array($origin) ? $origin : [$origin]`, as the keys `array_key_exists` looks up;
   * a missing value is `null`, which it reads as the key "".
   */
  function OriginsAsWritten(v: OriginValue): (keys: seq<string>)
    ensures v.Absent? ==> keys == [""]
  {
    match v
    case Absent => [""]
    case Chosen(p) => [p]
    case Checked(vs) => vs
  }

  /** As meant: when no choice was offered, the component the form was built for. */
  function Origins(v: OriginValue, shown: Option<Component>): (keys: seq<string>)
    ensures !v.Absent? ==> keys == OriginsAsWritten(v)
    ensures v.Absent? ==> keys == if shown.Some? then [shown.value.provider] else []
  {
    match v
    case Absent => if shown.Some? then [shown.value.provider] else []
    case _ => OriginsAsWritten(v)
  }

  /** The listing of a folder, as the directory iterator yields it; none for an unknown folder. */
  function Listing(listings: map<string, seq<string>>, path: string): seq<string>
  {
    if path in listings then listings[path] else []
  }

  /** `duplicateComponent` (every entry copied) into the new provider's folder. */
  function Duplicated(modules: map<string, string>, themes: map<string, string>, fs: FileSystem,
                      c: Component, newProvider: string, listing: seq<string>): FileSystem
  {
    var np := FolderPath(modules, themes, c.machineName, newProvider, c.group);
    if np != c.path && !fs.Exists(np) then CopyEntries(PrepareDirectory(fs, Rejoin(np)).0, c.path, Rejoin(np), listing) else fs
  }

  /** One origin of the loop: skipped when no component has that provider, else deleted or duplicated. */
  function Applied(modules: map<string, string>, themes: map<string, string>, fs: FileSystem,
                   components: seq<(string, Component)>, action: Action, newProvider: string,
                   listings: map<string, seq<string>>, origin: string): FileSystem
  {
    match Get(components, origin)
    case None => fs
    case Some(c) =>
      if action == Delete then DeleteRecursive(fs, c.path).0
      else Duplicated(modules, themes, fs, c, newProvider, Listing(listings, c.path))
  }

  /** The loop over the origins, in order. */
  function AppliedAll(modules: map<string, string>, themes: map<string, string>, fs: FileSystem,
                      components: seq<(string, Component)>, action: Action, newProvider: string,
                      listings: map<string, seq<string>>, origins: seq<string>): FileSystem
    decreases |origins|
  {
    if origins == [] then fs
    else
      var init := origins[..|origins| - 1];
      Applied(modules, themes, AppliedAll(modules, themes, fs, components, action, newProvider, listings, init),
              components, action, newProvider, listings, origins[|origins| - 1])
  }

  lemma AppliedAllStep(modules: map<string, string>, themes: map<string, string>, fs: FileSystem,
                       components: seq<(string, Component)>, action: Action, newProvider: string,
                       listings: map<string, seq<string>>, origins: seq<string>, i: nat)
    requires i < |origins|
    ensures AppliedAll(modules, themes, fs, components, action, newProvider, listings, origins[..i + 1])
         == Applied(modules, themes, AppliedAll(modules, themes, fs, components, action, newProvider, listings, origins[..i]),
                    components, action, newProvider, listings, origins[i])
  {
    assert origins[..i + 1][..i] == origins[..i];
  }

  /** The folders of the components the origins name. */
  function ChosenFolders(components: seq<(string, Component)>, origins: seq<string>): set<string>
  {
    set o | o in origins && Get(components, o).Some? :: Get(components, o).value.path
  }

  /** Origins no component has change nothing. */
  lemma {:induction false} AppliedAllUnknown(modules: map<string, string>, themes: map<string, string>, fs: FileSystem,
                                             components: seq<(string, Component)>, action: Action, newProvider: string,
                                             listings: map<string, seq<string>>, origins: seq<string>)
    requires forall o :: o in origins ==> o !in Keys(components)
    ensures AppliedAll(modules, themes, fs, components, action, newProvider, listings, origins) == fs
    decreases |origins|
  {
    if origins != [] {
      var init := origins[..|origins| - 1];
      assert forall o :: o in init ==> o in origins;
      AppliedAllUnknown(modules, themes, fs, components, action, newProvider, listings, init);
    }
  }

  /**
   * Deleting: what remains is exactly what was there and lies under none of the chosen
   * components' folders, with its contents unchanged.
   */
  lemma {:induction false} AppliedAllDeletes(modules: map<string, string>, themes: map<string, string>, fs: FileSystem,
                                             components: seq<(string, Component)>, newProvider: string,
                                             listings: map<string, seq<string>>, origins: seq<string>)
    ensures var r := AppliedAll(modules, themes, fs, components, Delete, newProvider, listings, origins);
      && (forall q :: r.Exists(q) <==> fs.Exists(q) && Outside(q, ChosenFolders(components, origins)))
      && (forall q :: q in r.files ==> q in fs.files && r.files[q] == fs.files[q])
    decreases |origins|
  {
    if origins != [] {
      var init := origins[..|origins| - 1];
      var last := origins[|origins| - 1];
      AppliedAllDeletes(modules, themes, fs, components, newProvider, listings, init);
      assert forall o :: o in origins <==> o in init || o == last;
      var before := ChosenFolders(components, init);
      var after := ChosenFolders(components, origins);
      var mid := AppliedAll(modules, themes, fs, components, Delete, newProvider, listings, init);
      if Get(components, last).Some? {
        var x := Get(components, last).value.path;
        assert after == before + {x};
        forall q ensures Outside(q, after) <==> Outside(q, before) && !Under(q, x) {
          OutsideAdd(q, before, x);
        }
      } else {
        assert after == before;
      }
    }
  }

  /** `q` lies under none of `folders`. */
  predicate Outside(q: string, folders: set<string>)
  {
    forall p :: p in folders ==> !Under(q, p)
  }

  lemma OutsideAdd(q: string, folders: set<string>, x: string)
    ensures Outside(q, folders + {x}) <==> Outside(q, folders) && !Under(q, x)
  {
  }

  /**
   * As written, a component only one provider has offers no origin field, so nothing
   * is submitted for it and confirming deletes or duplicates nothing (unless a provider
   * is named "").
   */
  lemma SubmitAsWrittenWithoutChoice(modules: map<string, string>, themes: map<string, string>, fs: FileSystem,
                                     components: seq<(string, Component)>, action: Action, newProvider: string,
                                     listings: map<string, seq<string>>)
    requires "" !in Keys(components)
    ensures AppliedAll(modules, themes, fs, components, action, newProvider, listings, OriginsAsWritten(Absent)) == fs
  {
    AppliedAllUnknown(modules, themes, fs, components, action, newProvider, listings, [""]);
  }

  /**
   * As meant, with no choice offered, confirming a deletion removes the folder of the
   * component the form was built for (the first provider's) and nothing else.
   */
  lemma SubmitDeletesShown(modules: map<string, string>, themes: map<string, string>, fs: FileSystem,
                           registry: seq<Component>, machineName: string, newProvider: string,
                           listings: map<string, seq<string>>)
    requires ByProvider(registry, machineName) != []
    ensures var components := ByProvider(registry, machineName);
      var shown := First(components);
      var r := AppliedAll(modules, themes, fs, components, Delete, newProvider, listings, Origins(Absent, shown));
      forall q :: r.Exists(q) <==> fs.Exists(q) && !Under(q, shown.value.path)
  {
    var components := ByProvider(registry, machineName);
    var shown := First(components);
    GetUnique(components, 0);
    assert Get(components, components[0].0).value.provider == components[0].0;
    assert Origins(Absent, shown) == [shown.value.provider];
    AppliedAllDeletes(modules, themes, fs, components, newProvider, listings, [shown.value.provider]);
    assert ChosenFolders(components, [shown.value.provider]) == {shown.value.path};
  }

  // ---------------------------------------------------------------------------
  // The form
  // ---------------------------------------------------------------------------

  class ConfirmationComponentForm {
    /** The trait's state. */
    const data: DabComponentData
    const files: ComponentFileManager

    constructor(files: ComponentFileManager)
      ensures this.files == files && fresh(data) && data.components.None? && data.component.None?
    {
      this.files := files;
      data := new DabComponentData();
    }

    /**
     * `buildForm`: not found unless requested; the component data of the machine name is
     * loaded (the first provider's component is shown), an error when there is none or its
     * props cannot be read; otherwise the fields for the action. Without the plugin service
     * the components stay as they were: on a new form they were never set, and the
     * template select fails on them.
     */
    method BuildForm(hasService: bool, discovered: Option<seq<Component>>,
                     componentType: Option<string>, machineName: Option<string>, action: Option<string>,
                     provider: Option<string>, hasHandlers: bool, modules: seq<Extension>, themes: seq<Extension>)
      returns (r: Outcome<ConfirmationFields>)
      modifies data
      ensures r.NotFound? <==> !Requested(componentType, machineName, action)
      ensures !Requested(componentType, machineName, action) || !hasService ==>
        data.components == old(data.components) && data.component == old(data.component)
      ensures Requested(componentType, machineName, action) && hasService ==>
        && data.components == Some(ByProvider(discovered.GetOr([]), machineName.value))
        && data.component == First(data.components.value)
      ensures Requested(componentType, machineName, action) && hasService ==>
        (r.Error? <==> !(data.component.Some? && ComponentVersions(data.component.value).Some?))
      ensures Requested(componentType, machineName, action) && !hasService ==>
        (r.Error? <==> old(data.components).None?)
      ensures r.Page? ==>
        data.components.Some? &&
        r.page == FieldsOf(ParseAction(action).value, data.components.value, provider, ExtensionsOptions(hasHandlers, modules, themes))
    {
      if !Requested(componentType, machineName, action) {
        return NotFound;
      }
      var ok := data.GetComponentData(hasService, discovered, machineName.value, None);
      if !ok {
        return Error;
      }
      var select := data.GetTemplateSelect(provider);
      if select.None? {
        return Error;
      }
      var origin := select.value;
      var a := ParseAction(action).value;
      var providerField: Option<ProviderField> := None;
      if a == Duplicate {
        var options := data.GetExtensionsOptions(hasHandlers, modules, themes);
        providerField := Some(ProviderField(options, provider));
      }
      r := Page(ConfirmationFields(a, origin, origin.Some? && a == Delete, providerField,
                                   if a == Delete then "danger" else "primary"));
    }

    /**
     * `submitForm` with the origins as meant: each origin a component has is deleted
     * (its whole folder) or duplicated into the new provider; other origins are skipped.
     * `ok` is false for the `TypeError` of `array_key_exists` on components never set,
     * which the first origin meets: nothing changes then.
     */
    method SubmitForm(action: Action, origin: OriginValue, newProvider: string, listings: map<string, seq<string>>)
      returns (ok: bool)
      modifies files
      ensures ok <==> data.components.Some? || Origins(origin, data.component) == []
      ensures ok ==> files.fs == AppliedAll(files.modules, files.themes, old(files.fs), data.components.GetOr([]), action,
                                            newProvider, listings, Origins(origin, data.component))
      ensures !ok ==> files.fs == old(files.fs)
    {
      var origins := Origins(origin, data.component);
      if data.components.None? && origins != [] {
        return false;
      }
      var components := data.components.GetOr([]);
      for i := 0 to |origins|
        invariant files.fs == AppliedAll(files.modules, files.themes, old(files.fs), components, action, newProvider,
                                         listings, origins[..i])
      {
        AppliedAllStep(files.modules, files.themes, old(files.fs), components, action, newProvider, listings, origins, i);
        var found := Get(components, origins[i]);
        if found.None? {
          continue;
        }
        var c := found.value;
        if action == Delete {
          files.fs := DeleteRecursive(files.fs, c.path).0;
        } else {
          var ok := files.DuplicateComponentAll(c, newProvider, Listing(listings, c.path));
        }
      }
      assert origins[..|origins|] == origins;
      ok := true;
    }
  }
}
