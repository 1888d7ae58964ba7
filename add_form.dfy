/**
 * The form that creates a component, or edits one: the component type options
 * read from the `key|title` configuration, the machine-name and provider checks,
 * the asset check-boxes, and the file operations a submission requests.
 */
module AddForm {
  import opened Wrappers
  import opened Strings
  import opened Assoc
  import opened Values
  import opened Sdc
  import opened Fs
  import opened FileManager
  import opened ComponentData

  // ---------------------------------------------------------------------------
  // Component type options
  // ---------------------------------------------------------------------------

  /** The types offered when none are configured, value to title. */
  const DefaultTypeOptions: seq<(string, Option<string>)> := [
    ("atoms", Some("Atoms")), ("molecules", Some("Molecules")), ("organisms", Some("Organisms")),
    ("templates", Some("Templates")), ("pages", Some("Pages")), ("other", Some("Other"))]

  /** One configured line, split on `|`: the first piece is the key, the second the title (`null` when there is none). */
  function TypeLine(line: string): (string, Option<string>)
  {
    var parts := Explode("|", line);
    (parts[0], if |parts| > 1 then Some(parts[1]) else None)
  }

  /** A line written as `key|title` reads back as that key and title. */
  lemma TypeLineRoundTrip(key: string, title: string)
    requires '|' !in key && '|' !in title
    ensures TypeLine(key + "|" + title) == (key, Some(title))
  {
    assert Implode("|", [key, title]) == key + "|" + title by {
      assert [key, title][1..] == [title];
    }
    ExplodeImplode("|", [key, title]);
  }

  /** A line without `|` is a key with no title. */
  lemma TypeLineWithoutLabel(line: string)
    requires '|' !in line
    ensures TypeLine(line) == (line, None)
  {
    ExplodeImplode("|", [line]);
  }

  /** The key of each line. */
  function LineKeys(lines: seq<string>): (ks: seq<string>)
    ensures |ks| == |lines|
    ensures forall i :: 0 <= i < |lines| ==> ks[i] == TypeLine(lines[i]).0
  {
    seq(|lines|, i requires 0 <= i < |lines| => TypeLine(lines[i]).0)
  }

  /** The reduction over the lines: each line sets its key, a later line replacing an earlier title in place. */
  function TypeOptionsFrom(lines: seq<string>): (r: seq<(string, Option<string>)>)
    ensures UniqueKeys(r)
    ensures forall k :: k in Keys(r) <==> k in LineKeys(lines)
    decreases |lines|
  {
    if lines == [] then []
    else
      var init := lines[..|lines| - 1];
      var line := TypeLine(lines[|lines| - 1]);
      assert LineKeys(lines) == LineKeys(init) + [line.0];
      Put(TypeOptionsFrom(init), line.0, line.1)
  }

  /** A key takes the title of the last line that names it. */
  lemma {:induction false} TypeOptionsLastWins(lines: seq<string>, i: nat)
    requires i < |lines|
    requires forall j :: i < j < |lines| ==> TypeLine(lines[j]).0 != TypeLine(lines[i]).0
    ensures Get(TypeOptionsFrom(lines), TypeLine(lines[i]).0) == Some(TypeLine(lines[i]).1)
    decreases |lines|
  {
    if i < |lines| - 1 {
      var init := lines[..|lines| - 1];
      assert init[i] == lines[i];
      TypeOptionsLastWins(init, i);
    }
  }

  /**
   * `getComponentTypesOptions`: the defaults when the configuration is empty in PHP's
   * sense, else the trimmed text split into "\r\n" lines, the defaults replaced entirely.
   */
  function ComponentTypesOptions(config: Option<string>): (r: seq<(string, Option<string>)>)
    ensures EmptyOrNull(config) ==> Keys(r) == ["atoms", "molecules", "organisms", "templates", "pages", "other"]
    ensures !EmptyOrNull(config) ==>
      forall k :: k in Keys(r) <==> k in LineKeys(Explode("\r\n", Trim(config.value)))
  {
    if EmptyOrNull(config) then DefaultTypeOptions
    else TypeOptionsFrom(Explode("\r\n", Trim(config.value)))
  }

  /** The `key|title` lines that configure the given options. */
  function TypeLines(options: seq<(string, string)>): (lines: seq<string>)
    ensures |lines| == |options|
    ensures forall i :: 0 <= i < |options| ==> lines[i] == options[i].0 + "|" + options[i].1
  {
    seq(|options|, i requires 0 <= i < |options| => options[i].0 + "|" + options[i].1)
  }

  /** The options a configuration of distinct keys is read back as: each title present. */
  function Titled(options: seq<(string, string)>): (r: seq<(string, Option<string>)>)
    ensures |r| == |options|
    ensures forall i :: 0 <= i < |options| ==> r[i] == (options[i].0, Some(options[i].1))
  {
    seq(|options|, i requires 0 <= i < |options| => (options[i].0, Some(options[i].1)))
  }

  /** Text that starts and ends with a kept character is its own trim. */
  lemma TrimKept(s: string)
    requires s != [] && !IsTrimmed(s[0]) && !IsTrimmed(s[|s| - 1])
    ensures Trim(s) == s
  {
  }

  lemma TitledSnoc(options: seq<(string, string)>)
    requires UniqueKeys(options) && options != []
    ensures var n := |options| - 1;
      && options[n].0 !in Keys(Titled(options[..n]))
      && Titled(options[..n]) + [(options[n].0, Some(options[n].1))] == Titled(options)
      && TypeLines(options)[..n] == TypeLines(options[..n])
      && UniqueKeys(options[..n])
  {
    var n := |options| - 1;
    var init := options[..n];
    forall i | 0 <= i < |init| ensures Keys(Titled(init))[i] != options[n].0 {
      assert init[i] == options[i];
    }
  }

  lemma {:induction false} TypeOptionsFromLines(options: seq<(string, string)>)
    requires UniqueKeys(options)
    requires forall i :: 0 <= i < |options| ==> '|' !in options[i].0 && '|' !in options[i].1
    ensures TypeOptionsFrom(TypeLines(options)) == Titled(options)
    decreases |options|
  {
    if options != [] {
      var n := |options| - 1;
      var lines := TypeLines(options);
      TitledSnoc(options);
      TypeOptionsFromLines(options[..n]);
      TypeLineRoundTrip(options[n].0, options[n].1);
      assert TypeOptionsFrom(lines) == Put(Titled(options[..n]), options[n].0, Some(options[n].1));
    }
  }

  /** No configured line holds a carriage return. */
  lemma TypeLinesWithoutCr(options: seq<(string, string)>)
    requires forall i :: 0 <= i < |options| ==> '\r' !in options[i].0 && '\r' !in options[i].1
    ensures forall i :: 0 <= i < |options| ==> '\r' !in TypeLines(options)[i]
  {
    forall i | 0 <= i < |options| ensures '\r' !in TypeLines(options)[i] {
      assert TypeLines(options)[i] == options[i].0 + "|" + options[i].1;
    }
  }

  /** The configuration text is not empty in PHP's sense and is its own trim. */
  lemma TypeTextKept(options: seq<(string, string)>)
    requires options != []
    requires options[0].0 == [] || !IsTrimmed(options[0].0[0])
    requires var l := options[|options| - 1].1; l == [] || !IsTrimmed(l[|l| - 1])
    ensures var text := Implode("\r\n", TypeLines(options)); !PhpEmpty(text) && Trim(text) == text
  {
    var lines := TypeLines(options);
    var text := Implode("\r\n", lines);
    var first := lines[0];
    var k0 := options[0].0;
    assert first == k0 + "|" + options[0].1;
    assert text[..|first|] == first;
    assert text[|k0|] == first[|k0|] == '|';
    assert text[0] == first[0];
    ImplodeEnds(lines);
    var last := lines[|lines| - 1];
    var ln := options[|options| - 1].1;
    assert last == options[|options| - 1].0 + "|" + ln;
    assert text[|text| - 1] == last[|last| - 1];
    TrimKept(text);
  }

  /**
   * Writing options as `key|title` lines joined by "\r\n" and reading the configuration
   * back gives the same options in the same order, for distinct keys and keys and titles
   * without `|` or a carriage return, when the text does not start or end with a
   * character `trim` removes.
   */
  lemma ComponentTypesOptionsRoundTrip(options: seq<(string, string)>)
    requires options != [] && UniqueKeys(options)
    requires forall i :: 0 <= i < |options| ==>
      '|' !in options[i].0 && '|' !in options[i].1 && '\r' !in options[i].0 && '\r' !in options[i].1
    requires options[0].0 == [] || !IsTrimmed(options[0].0[0])
    requires var l := options[|options| - 1].1; l == [] || !IsTrimmed(l[|l| - 1])
    ensures ComponentTypesOptions(Some(Implode("\r\n", TypeLines(options)))) == Titled(options)
  {
    var lines := TypeLines(options);
    TypeLinesWithoutCr(options);
    ExplodeImplode("\r\n", lines);
    TypeTextKept(options);
    TypeOptionsFromLines(options);
  }

  /** The joined lines begin with the first line and end with the last one. */
  lemma {:induction false} ImplodeEnds(lines: seq<string>)
    requires |lines| >= 1
    ensures var s := Implode("\r\n", lines); var l := lines[|lines| - 1];
      |s| >= |l| && s[|s| - |l|..] == l
  {
    if |lines| > 1 {
      ImplodeEnds(lines[1..]);
    }
  }

  // ---------------------------------------------------------------------------
  // Machine name pattern
  // ---------------------------------------------------------------------------

  predicate IsLower(c: char)
  {
    'a' <= c <= 'z'
  }

  /** The strings `[a-z]+_?[a-z]*` spans: lower-case letters and at most one underscore, which does not come first. */
  predicate MachineNameShape(s: string)
  {
    && s != [] && IsLower(s[0])
    && (forall i :: 0 <= i < |s| ==> IsLower(s[i]) || s[i] == '_')
    && (forall i, j :: 0 <= i < j < |s| && s[i] == '_' ==> s[j] != '_')
  }

  /** Where the pattern stands: before the first letter, among the first letters, or past the underscore. */
  datatype Phase = Start | Letters | Rest

  /** Matching the rest of the subject from a phase, to its end. */
  function Scan(ph: Phase, s: string): bool
    decreases |s|
  {
    if s == [] then ph != Start
    else
      match ph
      case Start => IsLower(s[0]) && Scan(Letters, s[1..])
      case Letters => if IsLower(s[0]) then Scan(Letters, s[1..]) else s[0] == '_' && Scan(Rest, s[1..])
      case Rest => IsLower(s[0]) && Scan(Rest, s[1..])
  }

  lemma {:induction false} ScanRest(s: string)
    ensures Scan(Rest, s) <==> forall i :: 0 <= i < |s| ==> IsLower(s[i])
    decreases |s|
  {
    if s != [] {
      ScanRest(s[1..]);
      assert forall i :: 1 <= i < |s| ==> s[i] == s[1..][i - 1];
    }
  }

  /** Letters and underscores with at most one underscore. */
  predicate OneUnderscore(s: string)
  {
    && (forall i :: 0 <= i < |s| ==> IsLower(s[i]) || s[i] == '_')
    && (forall i, j :: 0 <= i < j < |s| && s[i] == '_' ==> s[j] != '_')
  }

  lemma {:induction false} ScanLetters(s: string)
    ensures Scan(Letters, s) <==> OneUnderscore(s)
    decreases |s|
  {
    if s != [] {
      var t := s[1..];
      assert forall i :: 1 <= i < |s| ==> s[i] == t[i - 1];
      if IsLower(s[0]) {
        ScanLetters(t);
        if OneUnderscore(t) {
          forall i, j | 0 <= i < j < |s| && s[i] == '_' ensures s[j] != '_' {
            assert i > 0;
            assert t[i - 1] == '_';
          }
        }
      } else if s[0] == '_' {
        ScanRest(t);
        if OneUnderscore(s) {
          forall i | 0 <= i < |t| ensures IsLower(t[i]) {
            assert s[i + 1] == t[i];
          }
        }
      }
    }
  }

  lemma ScanStart(s: string)
    ensures Scan(Start, s) <==> MachineNameShape(s)
  {
    if s != [] {
      var t := s[1..];
      assert forall i :: 1 <= i < |s| ==> s[i] == t[i - 1];
      ScanLetters(t);
      if IsLower(s[0]) && OneUnderscore(t) {
        forall i, j | 0 <= i < j < |s| && s[i] == '_' ensures s[j] != '_' {
          assert i > 0;
          assert t[i - 1] == '_';
        }
      }
    }
  }

  /**
   * `preg_match('/^[a-z]+_?[a-z]*$/', $s) == 1`. Without the `D` modifier `$` also
   * matches just before a final newline, so one trailing "\n" is accepted.
   */
  function MachineNameMatches(s: string): (r: bool)
    ensures r <==> MachineNameShape(s) || (s != [] && s[|s| - 1] == '\n' && MachineNameShape(s[..|s| - 1]))
  {
    ScanStart(s);
    if s != [] then
      ScanStart(s[..|s| - 1]);
      Scan(Start, s) || (s[|s| - 1] == '\n' && Scan(Start, s[..|s| - 1]))
    else false
  }

  /** Lower-case letters around at most one underscore match. */
  lemma MachineNameAccepts()
    ensures MachineNameMatches("machine_name")
    ensures MachineNameMatches("card")
  {
    assert MachineNameShape("machine_name");
    assert MachineNameShape("card");
  }

  /** A leading underscore, a digit or a second underscore do not match. */
  lemma MachineNameRejects()
    ensures !MachineNameMatches("_card")
    ensures !MachineNameMatches("card2")
    ensures !MachineNameMatches("my_big_card")
  {
    assert !MachineNameShape("card2") by {
      assert "card2"[4] == '2';
    }
    assert "card2"[..4] == "card";
    assert !MachineNameShape("my_big_card") by {
      assert "my_big_card"[2] == '_' && "my_big_card"[6] == '_';
    }
    assert !MachineNameShape("my_big_car") by {
      assert "my_big_car"[2] == '_' && "my_big_car"[6] == '_';
    }
    assert "my_big_card"[..10] == "my_big_car";
  }

  // ---------------------------------------------------------------------------
  // Validation
  // ---------------------------------------------------------------------------

  /** The errors the form can record. */
  datatype FormError = BadMachineName | UnknownProvider | NameTaken

  function ModulePath(modules: map<string, string>, provider: string): Option<string>
  {
    if provider in modules then Some(modules[provider]) else None
  }

  function ThemePath(themes: map<string, string>, provider: string): Option<string>
  {
    if provider in themes then Some(themes[provider]) else None
  }

  /** `$componentModulePath ?? $componentThemePath`: the module's path first, then the theme's. */
  function ProviderPath(modules: map<string, string>, themes: map<string, string>, provider: string): (r: Option<string>)
    ensures r.None? <==> provider !in modules && provider !in themes
    ensures r.Some? ==> r.value == ProviderBase(modules, themes, provider)
  {
    if ModulePath(modules, provider).Some? then ModulePath(modules, provider) else ThemePath(themes, provider)
  }

  /**
   * A folder of that machine name under the module's or the theme's components;
   * a provider that is not a module (or not a theme) contributes the path "/components/<name>".
   */
  predicate NameInUse(dirs: set<string>, modules: map<string, string>, themes: map<string, string>,
                      provider: string, machineName: string)
  {
    || ModulePath(modules, provider).GetOr("") + "/components/" + machineName in dirs
    || ThemePath(themes, provider).GetOr("") + "/components/" + machineName in dirs
  }

  /**
   * `validateForm` as written: the pattern error, then the provider path is stored in a
   * `string` property, so an unknown provider (a `null` path) ends the request with a
   * TypeError before its error is recorded; then the name collision when not editing.
   */
  function ValidationAsWritten(dirs: set<string>, modules: map<string, string>, themes: map<string, string>,
                               isEdit: bool, machineName: string, provider: string): Option<seq<FormError>>
  {
    if ProviderPath(modules, themes, provider).None? then None
    else
      Some((if MachineNameMatches(machineName) then [] else [BadMachineName])
        + (if NameInUse(dirs, modules, themes, provider, machineName) && !isEdit then [NameTaken] else []))
  }

  /** `validateForm` as meant: the unknown provider is reported like the other errors. */
  function Validation(dirs: set<string>, modules: map<string, string>, themes: map<string, string>,
                      isEdit: bool, machineName: string, provider: string): (errors: seq<FormError>)
    ensures BadMachineName in errors <==> !MachineNameMatches(machineName)
    ensures UnknownProvider in errors <==> provider !in modules && provider !in themes
    ensures NameTaken in errors <==> !isEdit && NameInUse(dirs, modules, themes, provider, machineName)
    ensures errors == [] <==>
      MachineNameMatches(machineName) && (provider in modules || provider in themes)
      && (isEdit || !NameInUse(dirs, modules, themes, provider, machineName))
  {
    (if MachineNameMatches(machineName) then [] else [BadMachineName])
    + (if ProviderPath(modules, themes, provider).None? then [UnknownProvider] else [])
    + (if NameInUse(dirs, modules, themes, provider, machineName) && !isEdit then [NameTaken] else [])
  }

  /** As written, an unknown provider is never reported: validation fails outright; otherwise both agree. */
  lemma ValidationAsWrittenUnknownProvider(dirs: set<string>, modules: map<string, string>, themes: map<string, string>,
                                           isEdit: bool, machineName: string, provider: string)
    ensures provider !in modules && provider !in themes ==>
      ValidationAsWritten(dirs, modules, themes, isEdit, machineName, provider).None?
    ensures provider in modules || provider in themes ==>
      ValidationAsWritten(dirs, modules, themes, isEdit, machineName, provider)
        == Some(Validation(dirs, modules, themes, isEdit, machineName, provider))
  {
    var pattern: seq<FormError> := if MachineNameMatches(machineName) then [] else [BadMachineName];
    assert pattern + [] == pattern;
  }

  // ---------------------------------------------------------------------------
  // Asset check-boxes
  // ---------------------------------------------------------------------------

  /** The asset kinds the form offers, in order. */
  const AssetExtensions: seq<string> := ["js", "css"]

  /** The check-box of each asset kind: `delete_<ext>` when editing a component that has that asset, else `add_<ext>`. */
  function AssetFields(isEdit: bool, library: Value): (ids: seq<string>)
    ensures |ids| == |AssetExtensions|
    ensures forall i :: 0 <= i < |ids| ==>
      && (ids[i] == "delete_" + AssetExtensions[i] <==> isEdit && Truthy(Lookup(library, AssetExtensions[i])))
      && (ids[i] == "add_" + AssetExtensions[i] <==> !(isEdit && Truthy(Lookup(library, AssetExtensions[i]))))
  {
    seq(|AssetExtensions|, i requires 0 <= i < |AssetExtensions| =>
      var ext := AssetExtensions[i];
      assert ("delete_" + ext)[0] != ("add_" + ext)[0];
      if isEdit && Truthy(Lookup(library, ext)) then "delete_" + ext else "add_" + ext)
  }

  /** A new component is offered every asset to add. */
  lemma AssetFieldsWhenAdding(library: Value)
    ensures AssetFields(false, library) == ["add_js", "add_css"]
  {
    var ids := AssetFields(false, library);
    assert ids[0] == "add_js" && ids[1] == "add_css";
  }

  /** The form's default values. */
  datatype Defaults = Defaults(
    name: Option<string>,
    machineName: Option<string>,
    group: Option<string>,
    description: Option<string>,
    provider: Option<string>)

  /** What `buildForm` decides: the default values and the asset check-boxes. */
  datatype AddFormFields = AddFormFields(defaults: Defaults, assetFields: seq<string>)

  /** The defaults when editing: the definition's own values. */
  function EditDefaults(c: Component, machineName: Option<string>): Defaults
  {
    Defaults(c.name, machineName, c.group, c.description, Some(c.provider))
  }

  // ---------------------------------------------------------------------------
  // Submission
  // ---------------------------------------------------------------------------

  /** The submitted values: the yaml fields, the provider and the asset check-boxes (`false` when absent). */
  datatype Submission = Submission(
    name: string,
    machineName: string,
    group: string,
    description: string,
    provider: string,
    addJs: bool,
    addCss: bool,
    deleteJs: bool,
    deleteCss: bool)
  {
    function Adds(asset: string): bool
    {
      if asset == "js" then addJs else addCss
    }

    function Deletes(asset: string): bool
    {
      if asset == "js" then deleteJs else deleteCss
    }
  }

  /** `$values['yaml']`, in the order of the form fields. */
  function YamlValues(s: Submission): seq<(string, string)>
  {
    [("name", s.name), ("machine_name", s.machineName), ("group", s.group), ("description", s.description)]
  }

  /** `fopen($p, 'x')` and the writes after it: the file with its contents when it can be created, else nothing. */
  function Created(fs: FileSystem, p: string, content: Content): (r: FileSystem)
    ensures r.dirs == fs.dirs
    ensures forall q :: q in fs.files ==> q in r.files && r.files[q] == fs.files[q]
    ensures forall q :: q != p ==> (q in r.files <==> q in fs.files)
  {
    if CanCreate(fs, p) then fs.(files := fs.files[p := content]) else fs
  }

  /** The asset file of a kind in a folder. */
  function AssetFile(dir: string, machineName: string, asset: string): string
  {
    if asset == "js" then dir + "/" + machineName + ".js" else dir + "/" + machineName + ".css"
  }

  /** The stub of an asset kind. */
  function AssetStub(asset: string, machineName: string): string
  {
    if asset == "js" then JsStub(machineName) else CssStub(machineName)
  }

  /** The files `createComponent` leaves: the folder, then the manifest, README, twig and the flagged assets. */
  function Scaffold(modules: map<string, string>, themes: map<string, string>, fs: FileSystem,
                    providerPath: string, s: Submission): FileSystem
  {
    ScaffoldIn(fs, FolderPath(modules, themes, s.machineName, providerPath, Some(s.group)), s)
  }

  /** The same in a given component folder. */
  function ScaffoldIn(fs: FileSystem, dir: string, s: Submission): FileSystem
  {
    ScaffoldAssets(ScaffoldFiles(fs, dir, s), dir, s)
  }

  /** The folder, the manifest, the README and the template. */
  function ScaffoldFiles(fs: FileSystem, dir: string, s: Submission): FileSystem
  {
    var m := s.machineName;
    var withFolder := PrepareDirectory(fs, dir).0;
    var withManifest := Created(withFolder, dir + "/" + m + ".component.yml",
                                Yaml(Manifest(s.name, Some(s.group), Some(s.description))));
    var withReadme := Created(withManifest, dir + "/README.md", Text(ReadmeStub(s.name, s.description)));
    Created(withReadme, dir + "/" + m + ".twig", Text(TwigStub(m)))
  }

  /** The flagged JS and CSS stubs. */
  function ScaffoldAssets(fs: FileSystem, dir: string, s: Submission): FileSystem
  {
    var m := s.machineName;
    var withJs := if s.addJs then Created(fs, AssetFile(dir, m, "js"), Text(JsStub(m))) else fs;
    if s.addCss then Created(withJs, AssetFile(dir, m, "css"), Text(CssStub(m))) else withJs
  }

  /** Creating a component never changes a file that was already there. */
  lemma ScaffoldKeepsFiles(modules: map<string, string>, themes: map<string, string>, fs: FileSystem,
                           providerPath: string, s: Submission, q: string)
    requires q in fs.files
    ensures var r := Scaffold(modules, themes, fs, providerPath, s);
      q in r.files && r.files[q] == fs.files[q]
  {
  }

  /** The last two characters of a path. */
  function Tail2(p: string): string
  {
    if |p| >= 2 then p[|p| - 2..] else p
  }

  lemma Tail2Of(a: string, b: string)
    requires |b| == 2
    ensures Tail2(a + b) == b
  {
    assert (a + b)[|a + b| - 2..] == b;
  }

  lemma Regroup(a: string, b: string, c: string)
    ensures (a + b) + c == a + (b + c)
  {
  }

  /** A component folder ends with its machine name. */
  lemma FolderPathEnds(modules: map<string, string>, themes: map<string, string>,
                       machineName: string, provider: string, componentType: Option<string>)
    requires machineName != []
    ensures var d := FolderPath(modules, themes, machineName, provider, componentType);
      d != [] && d[|d| - 1] == machineName[|machineName| - 1]
  {
    var x := ProviderBase(modules, themes, provider) + "/components/" + TypeSegment(componentType);
    assert FolderPath(modules, themes, machineName, provider, componentType) == x + machineName;
  }

  /** Paths that end in different two characters differ. */
  lemma EndsDiffer(a: string, x: string, b: string, y: string)
    requires |x| == 2 && |y| == 2 && (x[0] != y[0] || x[1] != y[1])
    ensures a + x != b + y
  {
    Tail2Of(a, x);
    Tail2Of(b, y);
  }

  /** The five files of a component folder are five different paths. */
  lemma StubPathsDiffer(dir: string, m: string)
    ensures var base := dir + "/" + m;
      var yml := base + ".component.yml";
      var readme := dir + "/README.md";
      var twig := base + ".twig";
      var js := AssetFile(dir, m, "js");
      var css := AssetFile(dir, m, "css");
      && yml != readme && yml != twig && yml != js && yml != css
      && readme != twig && readme != js && readme != css
      && twig != js && twig != css && js != css
  {
    var base := dir + "/" + m;
    var yml := base + ".component.y";
    var readme := dir + "/README.";
    var twig := base + ".tw";
    var js := base + ".";
    var css := base + ".c";
    Regroup(base, ".component.y", "ml");
    Regroup(dir, "/README.", "md");
    Regroup(base, ".tw", "ig");
    Regroup(base, ".", "js");
    Regroup(base, ".c", "ss");
    assert ".component.y" + "ml" == ".component.yml";
    assert "/README." + "md" == "/README.md";
    EndsDiffer(yml, "ml", readme, "md");
    EndsDiffer(yml, "ml", twig, "ig");
    EndsDiffer(yml, "ml", js, "js");
    EndsDiffer(yml, "ml", css, "ss");
    EndsDiffer(readme, "md", twig, "ig");
    EndsDiffer(readme, "md", js, "js");
    EndsDiffer(readme, "md", css, "ss");
    EndsDiffer(twig, "ig", js, "js");
    EndsDiffer(twig, "ig", css, "ss");
    EndsDiffer(js, "js", css, "ss");
  }

  /** An asset kind that is not flagged is not created. */
  lemma ScaffoldAssetsOnlyWhenFlagged(fs: FileSystem, dir: string, s: Submission, asset: string)
    requires asset in AssetExtensions && !s.Adds(asset)
    ensures var p := AssetFile(dir, s.machineName, asset);
      p in ScaffoldIn(fs, dir, s).files <==> p in fs.files
  {
    StubPathsDiffer(dir, s.machineName);
  }

  /** A file named after the machine name sits directly in its folder. */
  lemma InFolder(dir: string, m: string, ext: string)
    requires dir != [] && dir[|dir| - 1] != '/'
    requires m != [] && '/' !in m && '/' !in ext
    ensures Dirname(dir + "/" + m + ext) == dir && |dir + "/" + m + ext| > |dir|
  {
    Regroup(dir + "/", m, ext);
    Regroup(dir, "/", m + ext);
    DirnameBasenameJoin(dir, m + ext);
  }

  /** The README sits directly in its folder. */
  lemma ReadmeInFolder(dir: string)
    requires dir != [] && dir[|dir| - 1] != '/'
    ensures Dirname(dir + "/README.md") == dir && |dir + "/README.md"| > |dir|
  {
    Regroup(dir, "/", "README.md");
    assert "/" + "README.md" == "/README.md";
    DirnameBasenameJoin(dir, "README.md");
  }

  /**
   * In a folder that can be prepared and holds none of them yet, creating a component
   * writes the manifest, the README and the twig stub.
   */
  lemma ScaffoldWritesStubs(fs: FileSystem, dir: string, s: Submission)
    requires dir != [] && dir[|dir| - 1] != '/'
    requires s.machineName != [] && '/' !in s.machineName
    requires && PrepareDirectory(fs, dir).1
             && !fs.Exists(dir + "/" + s.machineName + ".component.yml")
             && !fs.Exists(dir + "/README.md")
             && !fs.Exists(dir + "/" + s.machineName + ".twig")
    ensures var r := ScaffoldIn(fs, dir, s);
      && dir + "/" + s.machineName + ".component.yml" in r.files
      && r.files[dir + "/" + s.machineName + ".component.yml"] == Yaml(Manifest(s.name, Some(s.group), Some(s.description)))
      && dir + "/README.md" in r.files
      && r.files[dir + "/README.md"] == Text(ReadmeStub(s.name, s.description))
      && dir + "/" + s.machineName + ".twig" in r.files
      && r.files[dir + "/" + s.machineName + ".twig"] == Text(TwigStub(s.machineName))
  {
    var m := s.machineName;
    var yml := dir + "/" + m + ".component.yml";
    var readme := dir + "/README.md";
    var twig := dir + "/" + m + ".twig";
    var manifest := Yaml(Manifest(s.name, Some(s.group), Some(s.description)));
    var readmeText := Text(ReadmeStub(s.name, s.description));
    var twigText := Text(TwigStub(m));
    StubPathsDiffer(dir, m);
    InFolder(dir, m, ".component.yml");
    InFolder(dir, m, ".twig");
    ReadmeInFolder(dir);
    var f1 := PrepareDirectory(fs, dir).0;
    assert dir in f1.dirs && !f1.Exists(yml) && !f1.Exists(readme) && !f1.Exists(twig) by {
      assert yml !in Ancestors(dir) && readme !in Ancestors(dir) && twig !in Ancestors(dir);
    }
    var f2 := Created(f1, yml, manifest);
    assert f2.files[yml] == manifest && dir in f2.dirs && !f2.Exists(readme) && !f2.Exists(twig);
    var f3 := Created(f2, readme, readmeText);
    assert f3.files[yml] == manifest && f3.files[readme] == readmeText && dir in f3.dirs && !f3.Exists(twig);
    var f4 := Created(f3, twig, twigText);
    assert f4.files[yml] == manifest && f4.files[readme] == readmeText && f4.files[twig] == twigText;
    assert ScaffoldFiles(fs, dir, s) == f4;
    AssetsKeepFiles(f4, dir, s);
  }

  lemma AssetsKeepFiles(fs: FileSystem, dir: string, s: Submission)
    ensures var r := ScaffoldAssets(fs, dir, s);
      forall q :: q in fs.files ==> q in r.files && r.files[q] == fs.files[q]
  {
  }

  /** `$componentFile[$property] = $value`: an array takes the key; `null` and `false` become a one-entry array; anything else fails. */
  function Assign(file: Option<Value>, k: string, v: string): (r: Option<Value>)
    ensures file.Some? && file.value.Arr? ==> r == Some(Arr(Put(file.value.entries, k, Str(v))))
  {
    match file
    case None => None
    case Some(Arr(e)) => Some(Arr(Put(e, k, Str(v))))
    case Some(Null) => Some(Arr([(k, Str(v))]))
    case Some(Bool(b)) => if b then None else Some(Arr([(k, Str(v))]))
    case Some(_) => None
  }

  /** The loop over the submitted values: empty values and the machine name are skipped. */
  function MergeValues(file: Option<Value>, yaml: seq<(string, string)>): (r: Option<Value>)
    ensures file.Some? && file.value.Arr? ==> r.Some? && r.value.Arr?
    decreases |yaml|
  {
    if yaml == [] then file
    else
      var acc := MergeValues(file, yaml[..|yaml| - 1]);
      var (k, v) := yaml[|yaml| - 1];
      if PhpEmpty(v) || k == "machine_name" then acc else Assign(acc, k, v)
  }

  /** The value the last non-empty submission for `k` carries; none for the machine name. */
  function LastSet(yaml: seq<(string, string)>, k: string): Option<string>
    decreases |yaml|
  {
    if yaml == [] then None
    else
      var (k', v) := yaml[|yaml| - 1];
      if k' == k && !PhpEmpty(v) && k != "machine_name" then Some(v) else LastSet(yaml[..|yaml| - 1], k)
  }

  /**
   * Merging into a manifest array: every key takes the last non-empty value submitted
   * for it, the machine name and all other keys keep the manifest's values.
   */
  lemma {:induction false} MergeGet(e: seq<(string, Value)>, yaml: seq<(string, string)>, k: string)
    ensures var r := MergeValues(Some(Arr(e)), yaml);
      r.Some? && r.value.Arr? &&
      Get(r.value.entries, k) == if LastSet(yaml, k).Some? then Some(Str(LastSet(yaml, k).value)) else Get(e, k)
    decreases |yaml|
  {
    if yaml != [] {
      MergeGet(e, yaml[..|yaml| - 1], k);
    }
  }

  lemma {:induction false} LastSetMachineName(yaml: seq<(string, string)>)
    ensures LastSet(yaml, "machine_name").None?
    decreases |yaml|
  {
    if yaml != [] {
      LastSetMachineName(yaml[..|yaml| - 1]);
    }
  }

  /** What the machine-name field holds never reaches the manifest. */
  lemma MergeKeepsMachineName(e: seq<(string, Value)>, yaml: seq<(string, string)>)
    ensures var r := MergeValues(Some(Arr(e)), yaml);
      r.Some? && r.value.Arr? && Get(r.value.entries, "machine_name") == Get(e, "machine_name")
  {
    MergeGet(e, yaml, "machine_name");
    LastSetMachineName(yaml);
  }

  /** `saveComponentFile`: the manifest where a regular file can be written. */
  function Saved(fs: FileSystem, p: string, v: Value): FileSystem
  {
    if p !in fs.dirs && Dirname(p) in fs.dirs then fs.(files := fs.files[p := Yaml(v)]) else fs
  }

  /** `deleteComponentFile` on a regular file. */
  function Deleted(fs: FileSystem, p: string): FileSystem
  {
    if p in fs.files then Unlink(fs, p) else fs
  }

  /** One asset kind of `updateComponent`: create it in the new folder when flagged, delete the old one when flagged. */
  function AssetStep(fs: FileSystem, c: Component, s: Submission, dir: string, asset: string): FileSystem
  {
    var created := if s.Adds(asset) then Created(fs, AssetFile(dir, s.machineName, asset), Text(AssetStub(asset, s.machineName))) else fs;
    if s.Deletes(asset) then Deleted(created, c.path + "/" + c.machineName + "." + asset) else created
  }

  function AssetSteps(fs: FileSystem, c: Component, s: Submission, dir: string, assets: seq<string>): FileSystem
    decreases |assets|
  {
    if assets == [] then fs
    else AssetStep(AssetSteps(fs, c, s, dir, assets[..|assets| - 1]), c, s, dir, assets[|assets| - 1])
  }

  /** `moveComponentFolder` to the submitted machine name, provider and group. */
  function Moved(fs: FileSystem, c: Component, newMachineName: string, np: string): FileSystem
  {
    if np != c.path && !fs.Exists(np)
    then Move(PrepareDirectory(RenameFiles(fs, c.path, c.machineName, newMachineName, Extensions), Dirname(np)).0, c.path, np)
    else fs
  }

  /**
   * `updateComponent`: the merged manifest saved, the flagged assets created and deleted,
   * and the folder moved; `None` when the manifest could not be loaded as an array.
   */
  function Updated(modules: map<string, string>, themes: map<string, string>, fs: FileSystem,
                   loaded: Option<Value>, c: Component, s: Submission): Option<FileSystem>
  {
    match MergeValues(loaded, YamlValues(s))
    case None => None
    case Some(m) =>
      var dir := FolderPath(modules, themes, s.machineName, s.provider, Some(s.group));
      var saved := Saved(fs, c.discoveredFilePath, m);
      Some(Moved(AssetSteps(saved, c, s, dir, AssetExtensions), c, s.machineName, dir))
  }

  /** Once the manifest failed to load, nothing merges into it. */
  lemma {:induction false} MergeIntoNothing(yaml: seq<(string, string)>)
    ensures MergeValues(None, yaml).None?
    decreases |yaml|
  {
    if yaml != [] {
      MergeIntoNothing(yaml[..|yaml| - 1]);
    }
  }

  /** The update goes through exactly when the manifest loaded (an array always merges). */
  lemma UpdatedIffLoaded(modules: map<string, string>, themes: map<string, string>, fs: FileSystem,
                         loaded: Option<Value>, c: Component, s: Submission)
    requires loaded.Some? ==> loaded.value.Arr?
    ensures Updated(modules, themes, fs, loaded, c, s).Some? <==> loaded.Some?
  {
    if loaded.None? {
      MergeIntoNothing(YamlValues(s));
    }
  }

  /**
   * An asset requested while the component moves to a folder that does not exist yet is
   * not created: the stub is asked for in the new folder before the folder is moved there.
   */
  lemma UpdateAddAssetNeedsFolder(fs: FileSystem, c: Component, s: Submission, dir: string, asset: string)
    requires asset in AssetExtensions && s.machineName != [] && '/' !in s.machineName
    requires dir != [] && dir[|dir| - 1] != '/' && !fs.Exists(dir)
    ensures var p := AssetFile(dir, s.machineName, asset);
      var r := AssetStep(fs, c, s, dir, asset);
      p in r.files ==> p in fs.files && r.files[p] == fs.files[p]
  {
    var p := AssetFile(dir, s.machineName, asset);
    AssetFileDirname(dir, s.machineName, asset);
    assert !CanCreate(fs, p);
    var created := if s.Adds(asset) then Created(fs, p, Text(AssetStub(asset, s.machineName))) else fs;
    assert created == fs;
  }

  /** An asset file lies directly in its folder. */
  lemma AssetFileDirname(dir: string, m: string, asset: string)
    requires m != [] && '/' !in m && dir != [] && dir[|dir| - 1] != '/'
    ensures Dirname(AssetFile(dir, m, asset)) == dir
  {
    var ext := if asset == "js" then ".js" else ".css";
    var name := m + ext;
    assert '/' !in name by {
      assert ext == ".js" || ext == ".css";
    }
    Regroup(dir, "/", name);
    Regroup(dir + "/", m, ext);
    DirnameBasenameJoin(dir, name);
  }

  lemma AssetStepsStep(fs: FileSystem, c: Component, s: Submission, dir: string, assets: seq<string>, i: nat)
    requires i < |assets|
    ensures AssetSteps(fs, c, s, dir, assets[..i + 1]) == AssetStep(AssetSteps(fs, c, s, dir, assets[..i]), c, s, dir, assets[i])
  {
    assert assets[..i + 1][..i] == assets[..i];
  }

  lemma MergeStep(file: Option<Value>, yaml: seq<(string, string)>, i: nat)
    requires i < |yaml|
    ensures MergeValues(file, yaml[..i + 1])
         == (if PhpEmpty(yaml[i].1) || yaml[i].0 == "machine_name" then MergeValues(file, yaml[..i])
             else Assign(MergeValues(file, yaml[..i]), yaml[i].0, yaml[i].1))
  {
    assert yaml[..i + 1][..i] == yaml[..i];
  }

  // ---------------------------------------------------------------------------
  // The form
  // ---------------------------------------------------------------------------

  class AddComponentForm {
    /** The trait's state. */
    const data: DabComponentData
    const files: ComponentFileManager
    var isEdit: bool
    /** The validated provider path; `None` until validated or for an unknown provider. */
    var providerPath: Option<string>

    constructor(files: ComponentFileManager)
      ensures this.files == files && fresh(data) && !isEdit && providerPath.None?
    {
      this.files := files;
      data := new DabComponentData();
      isEdit := false;
      providerPath := None;
    }

    /**
     * `buildForm`: editing exactly when both route arguments are given. When editing, the
     * component data is loaded (no provider: the first found) and fills the defaults;
     * `None` is the error of a missing component.
     */
    method BuildForm(hasService: bool, discovered: Option<seq<Component>>,
                     componentType: Option<string>, machineName: Option<string>, requestType: Option<string>)
      returns (r: Option<AddFormFields>)
      modifies this, data
      ensures isEdit <==> componentType.Some? && machineName.Some?
      ensures providerPath == old(providerPath)
      ensures !isEdit ==>
        r == Some(AddFormFields(Defaults(Some(""), machineName, Some(requestType.GetOr("")), Some(""), Some("")),
                                AssetFields(false, Null)))
      ensures isEdit && r.Some? ==>
        && data.component.Some?
        && r.value == AddFormFields(EditDefaults(data.component.value, machineName), AssetFields(true, data.component.value.library))
      ensures isEdit && hasService ==>
        && data.components == Some(ByProvider(discovered.GetOr([]), machineName.value))
        && data.component == First(data.components.value)
    {
      isEdit := componentType.Some? && machineName.Some?;
      if !isEdit {
        return Some(AddFormFields(Defaults(Some(""), machineName, Some(requestType.GetOr("")), Some(""), Some("")),
                                  AssetFields(false, Null)));
      }
      var ok := data.GetComponentData(hasService, discovered, machineName.value, None);
      if !ok || data.component.None? {
        return None;
      }
      var c := data.component.value;
      r := Some(AddFormFields(EditDefaults(c, machineName), AssetFields(true, c.library)));
    }

    /** `validateForm`, with an unknown provider reported rather than failing on the `null` path. */
    method ValidateForm(machineName: string, provider: string) returns (errors: seq<FormError>)
      modifies this
      ensures isEdit == old(isEdit)
      ensures providerPath == ProviderPath(files.modules, files.themes, provider)
      ensures errors == Validation(files.fs.dirs, files.modules, files.themes, isEdit, machineName, provider)
    {
      errors := [];
      if !MachineNameMatches(machineName) {
        errors := errors + [BadMachineName];
      }
      var modulePath := ModulePath(files.modules, provider);
      var themePath := ThemePath(files.themes, provider);
      providerPath := if modulePath.Some? then modulePath else themePath;
      if providerPath.None? {
        errors := errors + [UnknownProvider];
      }
      if NameInUse(files.fs.dirs, files.modules, files.themes, provider, machineName) && !isEdit {
        errors := errors + [NameTaken];
      }
    }

    /** `createComponent`: the folder and the three files, then the flagged assets; it reports success regardless. */
    method CreateComponent(s: Submission) returns (ok: bool)
      requires providerPath.Some?
      modifies files
      ensures ok
      ensures files.fs == Scaffold(files.modules, files.themes, old(files.fs), providerPath.value, s)
    {
      CreateFolderAndFiles(s);
      CreateAssets(s);
      ok := true;
    }

    /** The folder, then the manifest, README and template. */
    method CreateFolderAndFiles(s: Submission)
      requires providerPath.Some?
      modifies files
      ensures files.fs == ScaffoldFiles(old(files.fs), FolderPath(files.modules, files.themes, s.machineName, providerPath.value, Some(s.group)), s)
    {
      var pp := providerPath.value;
      var group := Some(s.group);
      var folder := files.CreateComponentFolder(s.machineName, pp, group);
      var manifest := files.CreateComponentFile(s.machineName, pp, s.name, group, Some(s.description));
      var readme := files.CreateReadmeFile(s.machineName, pp, s.name, s.description, group);
      var twig := files.CreateTwigFile(s.machineName, pp, group);
    }

    /** The flagged JS and CSS files. */
    method CreateAssets(s: Submission)
      requires providerPath.Some?
      modifies files
      ensures files.fs == ScaffoldAssets(old(files.fs), FolderPath(files.modules, files.themes, s.machineName, providerPath.value, Some(s.group)), s)
    {
      var pp := providerPath.value;
      var group := Some(s.group);
      if s.addJs {
        var js := files.CreateJsFile(s.machineName, pp, group);
      }
      if s.addCss {
        var css := files.CreateCssFile(s.machineName, pp, group);
      }
    }

    /**
     * `updateComponent`: merge the submitted values into the manifest and save it, create
     * or delete the flagged assets, then move the folder. `completed` is false exactly when
     * the manifest does not load as an array (the `TypeError` of `loadComponentFile`):
     * nothing changes then.
     */
    method UpdateComponent(s: Submission) returns (completed: bool)
      requires data.component.Some?
      modifies files
      ensures var u := Updated(files.modules, files.themes, old(files.fs), old(files.LoadComponentFile(data.component.value)),
                               data.component.value, s);
        && completed == u.Some?
        && (completed ==> files.fs == u.value)
        && (!completed ==> files.fs == old(files.fs))
      ensures completed <==> old(files.LoadComponentFile(data.component.value)).Some?
    {
      var c := data.component.value;
      var loaded := files.LoadComponentFile(c);
      UpdatedIffLoaded(files.modules, files.themes, files.fs, loaded, c, s);
      if loaded.None? {
        return false;
      }
      var yaml := YamlValues(s);
      var manifest := loaded;
      for i := 0 to |yaml|
        invariant manifest == MergeValues(loaded, yaml[..i])
        invariant files.fs == old(files.fs)
      {
        MergeStep(loaded, yaml, i);
        var (property, value) := yaml[i];
        if !(PhpEmpty(value) || property == "machine_name") {
          manifest := Assign(manifest, property, value);
        }
      }
      assert yaml[..|yaml|] == yaml;
      if manifest.None? {
        return false;
      }
      var saved := files.SaveComponentFile(c, manifest.value);
      ghost var start := files.fs;
      ghost var dir := FolderPath(files.modules, files.themes, s.machineName, s.provider, Some(s.group));
      var assets := AssetExtensions;
      for i := 0 to |assets|
        invariant files.fs == AssetSteps(start, c, s, dir, assets[..i])
      {
        AssetStepsStep(start, c, s, dir, assets, i);
        var asset := assets[i];
        if s.Adds(asset) {
          if asset == "js" {
            var created := files.CreateJsFile(s.machineName, s.provider, Some(s.group));
          } else {
            var created := files.CreateCssFile(s.machineName, s.provider, Some(s.group));
          }
        }
        if s.Deletes(asset) {
          var deleted := files.DeleteComponentFile(c, asset);
        }
      }
      assert assets[..|assets|] == assets;
      var moved := files.MoveComponentFolder(c, s.machineName, s.provider, Some(s.group));
      completed := true;
    }
  }
}
