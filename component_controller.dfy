/**
 * The component page and its iframe: both routes load the component data of
 * the requested machine name, answer "not found" when the route arguments do
 * not name a shown component, and then build either the embedded page
 * (stylesheets, scripts, the example data of one version) or the browser page
 * around it (the responsive, template and version selects).
 */
module ComponentController {
  import opened Wrappers
  import opened Strings
  import opened Assoc
  import opened Values
  import opened Sdc
  import opened Libraries
  import opened ComponentData
  import opened FileManager

  /** How a request ends: a 404, an uncaught PHP error, or the page. */
  datatype Outcome<T> = NotFound | Error | Page(page: T)

  /** `getTitle`: the machine name with its first letter upper-cased, "Component" when there is none. */
  function Title(machineName: Option<string>): (r: string)
    ensures machineName.None? ==> r == "Component"
    ensures machineName.Some? ==> |r| == |machineName.value|
    ensures machineName.Some? && r != [] ==>
      r[0] == UpperChar(machineName.value[0]) && r[1..] == machineName.value[1..]
  {
    assert UpperChar('C') == 'C';
    Ucfirst(machineName.GetOr("Component"))
  }

  /** PHP's `==` between nullable strings that are not numeric: `null` equals "" and itself. */
  predicate LooseEqual(a: Option<string>, b: Option<string>)
  {
    if a.None? then b.None? || b.value == ""
    else if b.None? then a.value == ""
    else a.value == b.value
  }

  /** `array_keys($components)` behind a `NULL`, as the guard spreads them. */
  function Candidates(components: seq<(string, Component)>): (r: seq<Option<string>>)
    ensures |r| == |components| + 1 && r[0] == None
    ensures forall i :: 0 <= i < |components| ==> r[i + 1] == Some(components[i].0)
  {
    [None] + seq(|components|, i requires 0 <= i < |components| => Some(components[i].0))
  }

  /**
   * `in_array($provider, [NULL, ...array_keys($this->components)])` with PHP's loose
   * comparison: no provider, the empty provider (loosely equal to `NULL`) and every
   * provider having the component pass.
   */
  function ProviderAccepted(provider: Option<string>, components: seq<(string, Component)>): (r: bool)
    ensures r <==> provider.None? || provider.value == "" || provider.value in Keys(components)
  {
    var cs := Candidates(components);
    assert provider.Some? && provider.value in Keys(components) ==>
      exists i :: 0 <= i < |cs| && LooseEqual(provider, cs[i]) by {
      if provider.Some? && provider.value in Keys(components) {
        var i :| 0 <= i < |components| && Keys(components)[i] == provider.value;
        assert LooseEqual(provider, cs[i + 1]);
      }
    }
    exists i :: 0 <= i < |cs| && LooseEqual(provider, cs[i])
  }

  /** The trait's state once `getComponentData` has succeeded. */
  datatype Resolution = Resolution(components: seq<(string, Component)>, component: Component, versions: Versions)

  /** `getComponentData` succeeds: the service is there, a component is selected and its versions are computed. */
  predicate Loads(hasService: bool, discovered: Option<seq<Component>>, machineName: string, provider: Option<string>)
  {
    var c := Select(ByProvider(discovered.GetOr([]), machineName), provider);
    hasService && c.Some? && ComponentVersions(c.value).Some?
  }

  /**
   * The start both routes share, as written: `getComponentData` and then the guard.
   * A null machine name is rejected by `getComponentData`'s string parameter (an
   * uncaught TypeError) before the guard can test it; without the plugin service the
   * per-request controller still holds `null` components, so `array_keys` in the
   * guard fails unless the component type is missing.
   */
  function ResolveAsWritten(hasService: bool, discovered: Option<seq<Component>>,
                            componentType: Option<string>, machineName: Option<string>, provider: Option<string>): Outcome<Resolution>
  {
    if machineName.None? then Error
    else if !hasService then (if componentType.None? then NotFound else Error)
    else
      var components := ByProvider(discovered.GetOr([]), machineName.value);
      var component := Select(components, provider);
      if component.None? || ComponentVersions(component.value).None? then Error
      else if componentType.None? || !ProviderAccepted(provider, components) then NotFound
      else Page(Resolution(components, component.value, ComponentVersions(component.value).value))
  }

  /** The shared start with the null machine name answered by the 404 the guard means to give. */
  function Resolve(hasService: bool, discovered: Option<seq<Component>>,
                   componentType: Option<string>, machineName: Option<string>, provider: Option<string>): Outcome<Resolution>
  {
    if machineName.None? then NotFound
    else ResolveAsWritten(hasService, discovered, componentType, machineName, provider)
  }

  /** As written, a null machine name never reaches the guard's null test: the request fails instead of giving a 404. */
  lemma ResolveAsWrittenNullMachineName(hasService: bool, discovered: Option<seq<Component>>,
                                        componentType: Option<string>, provider: Option<string>)
    ensures ResolveAsWritten(hasService, discovered, componentType, None, provider) == Error
  {
  }

  /**
   * When a request is not found: a missing machine name, a missing component type
   * (unless loading fails first), or a provider the guard does not accept.
   */
  lemma ResolveNotFound(hasService: bool, discovered: Option<seq<Component>>,
                        componentType: Option<string>, machineName: Option<string>, provider: Option<string>)
    ensures var r := Resolve(hasService, discovered, componentType, machineName, provider);
      r.NotFound? <==>
        || machineName.None?
        || (componentType.None? && (!hasService || Loads(hasService, discovered, machineName.value, provider)))
        || (&& componentType.Some?
            && Loads(hasService, discovered, machineName.value, provider)
            && !ProviderAccepted(provider, ByProvider(discovered.GetOr([]), machineName.value)))
  {
  }

  /**
   * A page is built exactly when both names are given, the data loads and the provider
   * is accepted; the component shown then has the requested machine name, is one of
   * those discovered, and is the requested provider's whenever a non-empty provider is given.
   */
  lemma ResolvePage(hasService: bool, discovered: Option<seq<Component>>,
                    componentType: Option<string>, machineName: Option<string>, provider: Option<string>)
    ensures var r := Resolve(hasService, discovered, componentType, machineName, provider);
      r.Page? <==>
        && machineName.Some? && componentType.Some?
        && Loads(hasService, discovered, machineName.value, provider)
        && ProviderAccepted(provider, ByProvider(discovered.GetOr([]), machineName.value))
    ensures var r := Resolve(hasService, discovered, componentType, machineName, provider);
      r.Page? ==>
        && r.page.components == ByProvider(discovered.GetOr([]), machineName.value)
        && r.page.component in discovered.GetOr([])
        && r.page.component.machineName == machineName.value
        && (provider.Some? && provider.value != "" ==> r.page.component.provider == provider.value)
        && Some(r.page.versions) == ComponentVersions(r.page.component)
  {
    var r := Resolve(hasService, discovered, componentType, machineName, provider);
    if r.Page? {
      var components := ByProvider(discovered.GetOr([]), machineName.value);
      if provider.Some? && provider.value in Keys(components) {
        assert Get(components, provider.value).Some?;
      } else {
        assert components != [];
        GetUnique(components, 0);
      }
    }
  }

  /** `reset($this->versions)` or the requested version: what the embedded page renders. */
  function EmbedData(version: Option<string>, versions: Versions): (r: Option<seq<(string, Value)>>)
    ensures r.None? <==> versions == []
    ensures r.Some? ==> exists i :: 0 <= i < |versions| && versions[i].1 == r.value
    ensures UniqueKeys(versions) ==>
      forall i :: 0 <= i < |versions| && version == Some(versions[i].0) ==> r == Some(versions[i].1)
    ensures versions != [] && (version.None? || version.value !in Keys(versions)) ==> r == Some(versions[0].1)
  {
    if version.Some? && version.value in Keys(versions) then
      GetIn(versions, version.value);
      assert UniqueKeys(versions) ==>
        forall j :: 0 <= j < |versions| && version == Some(versions[j].0) ==> Get(versions, version.value) == Some(versions[j].1) by {
        if UniqueKeys(versions) {
          forall j | 0 <= j < |versions| && version == Some(versions[j].0)
            ensures Get(versions, version.value) == Some(versions[j].1)
          {
            GetUnique(versions, j);
          }
        }
      }
      Get(versions, version.value)
    else First(versions)
  }

  /**
   * `array_keys($library['css']['component'])` when the library has a "css" key, else
   * nothing; `None` is the error PHP raises when there is no array to take keys from.
   */
  function OwnCss(library: Value): (r: Option<seq<string>>)
    ensures !library.Arr? ==> r.None?
    ensures library.Arr? && "css" !in Keys(library.entries) ==> r == Some([])
    ensures library.Arr? && "css" in Keys(library.entries) ==>
      (r.Some? <==> Lookup(Lookup(library, "css"), "component").Arr?)
    ensures r.Some? && r.value != [] ==> r.value == Keys(Lookup(Lookup(library, "css"), "component").entries)
  {
    if !library.Arr? then None
    else if "css" !in Keys(library.entries) then Some([])
    else
      var files := Lookup(Lookup(library, "css"), "component");
      if files.Arr? then Some(Keys(files.entries)) else None
  }

  /** `array_keys($library['js'])` when the library has a "js" key, else nothing. */
  function OwnJs(library: Value): (r: Option<seq<string>>)
    ensures !library.Arr? ==> r.None?
    ensures library.Arr? && "js" !in Keys(library.entries) ==> r == Some([])
    ensures library.Arr? && "js" in Keys(library.entries) ==> (r.Some? <==> Lookup(library, "js").Arr?)
    ensures r.Some? && r.value != [] ==> r.value == Keys(Lookup(library, "js").entries)
  {
    if !library.Arr? then None
    else if "js" !in Keys(library.entries) then Some([])
    else
      var files := Lookup(library, "js");
      if files.Arr? then Some(Keys(files.entries)) else None
  }

  /** The variables the embed template is rendered with; `data` is `None` for PHP's `false`. */
  datatype EmbedPage = EmbedPage(
    pageTitle: string,
    stylesheets: seq<string>,
    scripts: seq<string>,
    data: Option<seq<(string, Value)>>,
    templatePath: string)

  /** The embedded page of a resolved request, with the flattened libraries of `libProvider`. */
  function EmbedPageOf(res: Resolution, componentType: string, machineName: Option<string>,
                       version: Option<string>, libraries: Buckets): Outcome<EmbedPage>
  {
    var css := OwnCss(res.component.library);
    var js := OwnJs(res.component.library);
    if css.None? || js.None? then Error
    else
      Page(EmbedPage(
        componentType + " / " + Title(machineName),
        css.value + Get(libraries, "css").GetOr([]),
        js.value + Get(libraries, "js").GetOr([]),
        EmbedData(version, res.versions),
        res.component.id))
  }

  /**
   * `embed` as written: the guard lets a null provider through, and the null provider
   * then fails `getLibrariesFilesFromExtension`'s string parameter.
   */
  function EmbedResponseAsWritten(files: ComponentFileManager, hasService: bool, discovered: Option<seq<Component>>,
                          componentType: Option<string>, machineName: Option<string>, provider: Option<string>,
                          version: Option<string>): Outcome<EmbedPage>
    reads files
  {
    match ResolveAsWritten(hasService, discovered, componentType, machineName, provider)
    case NotFound => NotFound
    case Error => Error
    case Page(res) =>
      if provider.None? then Error
      else EmbedPageOf(res, componentType.value, machineName, version, files.LibrariesFiles(provider.value))
  }

  /** With the component data loaded and no provider given, `embed` as written always fails. */
  lemma EmbedAsWrittenWithoutProvider(files: ComponentFileManager, hasService: bool, discovered: Option<seq<Component>>,
                                      componentType: Option<string>, machineName: Option<string>, version: Option<string>)
    requires machineName.Some? && componentType.Some? && Loads(hasService, discovered, machineName.value, None)
    ensures ResolveAsWritten(hasService, discovered, componentType, machineName, None).Page?
    ensures EmbedResponseAsWritten(files, hasService, discovered, componentType, machineName, None, version) == Error
  {
  }

  /** `embed` as meant: with no provider, the libraries are those of the provider of the component shown. */
  function EmbedResponse(files: ComponentFileManager, hasService: bool, discovered: Option<seq<Component>>,
                 componentType: Option<string>, machineName: Option<string>, provider: Option<string>,
                 version: Option<string>): Outcome<EmbedPage>
    reads files
  {
    match Resolve(hasService, discovered, componentType, machineName, provider)
    case NotFound => NotFound
    case Error => Error
    case Page(res) =>
      EmbedPageOf(res, componentType.value, machineName, version, files.LibrariesFiles(provider.GetOr(res.component.provider)))
  }

  /** Without a provider, the embedded page is built whenever the component's own asset lists can be read. */
  lemma EmbedWithoutProvider(files: ComponentFileManager, hasService: bool, discovered: Option<seq<Component>>,
                             componentType: Option<string>, machineName: Option<string>, version: Option<string>)
    requires machineName.Some? && componentType.Some? && Loads(hasService, discovered, machineName.value, None)
    ensures var res := Resolve(hasService, discovered, componentType, machineName, None);
      && res.Page?
      && (EmbedResponse(files, hasService, discovered, componentType, machineName, None, version).Page? <==>
          OwnCss(res.page.component.library).Some? && OwnJs(res.page.component.library).Some?)
  {
  }

  /**
   * The embedded page: its title, the example data of the requested version (else the
   * first), the plugin id as template, and the component's own CSS and JS files
   * followed by those the provider's libraries declare.
   */
  lemma EmbedContents(files: ComponentFileManager, hasService: bool, discovered: Option<seq<Component>>,
                      componentType: Option<string>, machineName: Option<string>, provider: Option<string>,
                      version: Option<string>)
    requires EmbedResponse(files, hasService, discovered, componentType, machineName, provider, version).Page?
    ensures var res := Resolve(hasService, discovered, componentType, machineName, provider);
      var p := EmbedResponse(files, hasService, discovered, componentType, machineName, provider, version).page;
      var libs := files.LibrariesFiles(provider.GetOr(res.page.component.provider));
      && res.Page?
      && p.pageTitle == componentType.value + " / " + Title(machineName)
      && p.data == EmbedData(version, res.page.versions)
      && p.templatePath == res.page.component.id
      && p.stylesheets == OwnCss(res.page.component.library).value + Get(libs, "css").GetOr([])
      && p.scripts == OwnJs(res.page.component.library).value + Get(libs, "js").GetOr([])
  {
  }

  /**
   * Past the component's own stylesheets, the embedded page lists exactly the CSS files
   * of the provider's libraries: each is one of them, and each of them is listed.
   */
  lemma EmbedProviderStylesheets(files: ComponentFileManager, provider: string, own: seq<string>, f: string)
    requires files.fs.Exists(files.LibraryFile(provider))
    ensures var lib := files.fs.Decoded(files.LibraryFile(provider));
      var base := ProviderBase(files.modules, files.themes, provider);
      f in Get(files.LibrariesFiles(provider), "css").GetOr([]) <==>
        exists k :: k in Leaves(lib) && PathExtension(k) == "css" && f == base + "/" + k
  {
    var lib := files.fs.Decoded(files.LibraryFile(provider));
    var base := ProviderBase(files.modules, files.themes, provider);
    var r := Flatten(InitialBuckets, lib, base);
    if f in Get(r, "css").GetOr([]) {
      FlattenFilesOnlyLeaves(lib, base, "css", f);
    }
    if k :| k in Leaves(lib) && PathExtension(k) == "css" && f == base + "/" + k {
      FlattenFindsEveryFile(lib, base, k);
    }
  }

  /** A provider without a libraries file adds no stylesheet and no script. */
  lemma EmbedNoLibrariesFile(files: ComponentFileManager, provider: string)
    requires !files.fs.Exists(files.LibraryFile(provider))
    ensures Get(files.LibrariesFiles(provider), "css").GetOr([]) == []
    ensures Get(files.LibrariesFiles(provider), "js").GetOr([]) == []
  {
  }

  /** The responsive widths the browser page offers, value to label. */
  const ResponsiveOptions: seq<(string, string)> :=
    [("reset", "Base"), ("desktop", "Desktop"), ("mobile", "Mobile"), ("tablet", "Tablet")]

  /** `getResponsiveSelect`: the requested width, "reset" (one of the options) when none is requested. */
  function ResponsiveSelect(responsive: Option<string>): (r: SelectElement)
    ensures r.id == "iframe-resize-select" && r.options == ResponsiveOptions
    ensures r.value.Some?
    ensures responsive.Some? ==> r.value == responsive
    ensures responsive.None? ==> r.value == Some("reset") && r.value.value in Keys(r.options)
  {
    assert Keys(ResponsiveOptions)[0] == "reset";
    SelectElement("iframe-resize-select", ResponsiveOptions, Some(responsive.GetOr("reset")))
  }

  /** The template select after `build` sets `#value`: the select when there is one, and the value always. */
  datatype TemplateField = TemplateField(select: Option<SelectElement>, value: Option<string>)

  /** The parts of the browser page the route arguments decide. */
  datatype BuildPage = BuildPage(
    componentPath: string,
    responsiveSelect: SelectElement,
    templateSelect: TemplateField,
    versionSelect: Option<SelectElement>)

  /** `build`, with the null machine name answered by a 404. */
  function BuildResponse(hasService: bool, discovered: Option<seq<Component>>,
                 componentType: Option<string>, machineName: Option<string>, provider: Option<string>,
                 version: Option<string>, responsive: Option<string>): Outcome<BuildPage>
  {
    match Resolve(hasService, discovered, componentType, machineName, provider)
    case NotFound => NotFound
    case Error => Error
    case Page(res) =>
      Page(BuildPage(
        res.component.path,
        ResponsiveSelect(responsive),
        TemplateField(TemplateSelect(res.components, provider), provider),
        VersionSelect(res.versions, version)))
  }

  /**
   * The browser page answers like the embedded one, shows the component's folder, and
   * its template value is the provider of the route even when no select is offered.
   */
  lemma BuildSelects(hasService: bool, discovered: Option<seq<Component>>,
                     componentType: Option<string>, machineName: Option<string>, provider: Option<string>,
                     version: Option<string>, responsive: Option<string>)
    ensures var b := BuildResponse(hasService, discovered, componentType, machineName, provider, version, responsive);
      var r := Resolve(hasService, discovered, componentType, machineName, provider);
      && (b.NotFound? <==> r.NotFound?)
      && (b.Page? <==> r.Page?)
      && (b.Page? ==>
        && b.page.componentPath == r.page.component.path
        && b.page.templateSelect.value == provider
        && (b.page.templateSelect.select.Some? <==> |r.page.components| > 1)
        && (b.page.versionSelect.Some? <==> |r.page.versions| > 1)
        && b.page.responsiveSelect.value == Some(responsive.GetOr("reset")))
  {
  }

  /** The controller: the trait's state and the file manager it asks for libraries. */
  class DabComponentController {
    const data: DabComponentData
    const files: ComponentFileManager

    constructor(files: ComponentFileManager)
      ensures this.files == files && fresh(data)
    {
      this.files := files;
      data := new DabComponentData();
    }

    /** `getComponentData` followed by the guard both routes share. */
    method Start(hasService: bool, discovered: Option<seq<Component>>,
                 componentType: Option<string>, machineName: Option<string>, provider: Option<string>)
      returns (r: Outcome<Resolution>)
      modifies data
      ensures r == Resolve(hasService, discovered, componentType, machineName, provider)
      ensures machineName.None? || !hasService ==> unchanged(data)
      ensures machineName.Some? && hasService ==>
        && data.components == Some(ByProvider(discovered.GetOr([]), machineName.value))
        && data.component == Select(data.components.value, provider)
      ensures r.Page? ==> data.components == Some(r.page.components) && data.versions == r.page.versions
    {
      if machineName.None? {
        return NotFound;
      }
      if !hasService {
        return if componentType.None? then NotFound else Error;
      }
      var ok := data.GetComponentData(true, discovered, machineName.value, provider);
      if !ok {
        return Error;
      }
      if componentType.None? || !ProviderAccepted(provider, data.components.value) {
        return NotFound;
      }
      r := Page(Resolution(data.components.value, data.component.value, data.versions));
    }

    /** `embed`: load the component data, apply the guard, and build the embedded page. */
    method Embed(hasService: bool, discovered: Option<seq<Component>>,
                     componentType: Option<string>, machineName: Option<string>, provider: Option<string>,
                     version: Option<string>) returns (r: Outcome<EmbedPage>)
      modifies data
      ensures r == EmbedResponse(files, hasService, discovered, componentType, machineName, provider, version)
      ensures machineName.None? || !hasService ==> unchanged(data)
      ensures machineName.Some? && hasService ==>
        && data.components == Some(ByProvider(discovered.GetOr([]), machineName.value))
        && data.component == Select(data.components.value, provider)
    {
      var res := Start(hasService, discovered, componentType, machineName, provider);
      if !res.Page? {
        return if res.NotFound? then NotFound else Error;
      }
      var component := res.page.component;
      var css := OwnCss(component.library);
      var js := OwnJs(component.library);
      if css.None? || js.None? {
        return Error;
      }
      var flattened := files.GetLibrariesFilesFromExtension(provider.GetOr(component.provider));
      r := Page(EmbedPage(
        componentType.value + " / " + Title(machineName),
        css.value + Get(flattened, "css").GetOr([]),
        js.value + Get(flattened, "js").GetOr([]),
        EmbedData(version, res.page.versions),
        component.id));
    }

    /** `build`: load the component data, apply the guard, and assemble the browser page. */
    method Build(hasService: bool, discovered: Option<seq<Component>>,
                     componentType: Option<string>, machineName: Option<string>, provider: Option<string>,
                     version: Option<string>, responsive: Option<string>) returns (r: Outcome<BuildPage>)
      modifies data
      ensures r == BuildResponse(hasService, discovered, componentType, machineName, provider, version, responsive)
      ensures machineName.None? || !hasService ==> unchanged(data)
      ensures machineName.Some? && hasService ==>
        && data.components == Some(ByProvider(discovered.GetOr([]), machineName.value))
        && data.component == Select(data.components.value, provider)
    {
      var res := Start(hasService, discovered, componentType, machineName, provider);
      if !res.Page? {
        return if res.NotFound? then NotFound else Error;
      }
      var templateSelect := data.GetTemplateSelect(provider);
      r := Page(BuildPage(
        data.component.value.path,
        ResponsiveSelect(responsive),
        TemplateField(templateSelect.value, provider),
        data.GetVersionSelect(version)));
    }
  }
}
