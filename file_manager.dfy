/**
 * The component file manager: where a component's folder lives, the stub
 * files it scaffolds, and the duplicate/move/delete operations on a
 * component folder, over the file system value of module `Fs`.
 */
module FileManager {
  import opened Wrappers
  import opened Strings
  import opened Assoc
  import opened Values
  import opened Sdc
  import opened Fs
  import opened Libraries

  /**
   * The folder of a provider: start from the provider name, replace it by the theme
   * path when a theme of that name exists, then by the module path when a module does.
   */
  function ProviderBase(modules: map<string, string>, themes: map<string, string>, provider: string): (base: string)
    ensures provider in modules ==> base == modules[provider]
    ensures provider !in modules ==> base == (if provider in themes then themes[provider] else provider)
  {
    var afterThemes := if provider in themes then themes[provider] else provider;
    if provider in modules then modules[provider] else afterThemes
  }

  /** The sub-folder a component type adds: "<type>/" unless the type is empty in PHP's sense. */
  function TypeSegment(componentType: Option<string>): string
  {
    if !EmptyOrNull(componentType) then componentType.value + "/" else ""
  }

  /** `buildComponentFolderPath`. */
  function FolderPath(modules: map<string, string>, themes: map<string, string>,
                      machineName: string, provider: string, componentType: Option<string>): (p: string)
    ensures EmptyOrNull(componentType) ==>
      p == ProviderBase(modules, themes, provider) + "/components/" + machineName
    ensures !EmptyOrNull(componentType) ==>
      p == ProviderBase(modules, themes, provider) + "/components/" + componentType.value + "/" + machineName
  {
    ProviderBase(modules, themes, provider) + "/components/" + TypeSegment(componentType) + machineName
  }

  /** The folder that holds a component folder: the type folder, or "components" itself. */
  function GroupDir(base: string, componentType: Option<string>): string
  {
    if !EmptyOrNull(componentType) then base + "/components/" + componentType.value else base + "/components"
  }

  /**
   * For a machine name that is one path segment and a type that does not end in a slash,
   * `dirname` of the folder is the group folder and `basename` is the machine name: the
   * split the duplicate operation applies before copying.
   */
  lemma FolderPathSplits(modules: map<string, string>, themes: map<string, string>,
                         machineName: string, provider: string, componentType: Option<string>)
    requires machineName != [] && '/' !in machineName
    requires !EmptyOrNull(componentType) ==> componentType.value[|componentType.value| - 1] != '/'
    ensures Dirname(FolderPath(modules, themes, machineName, provider, componentType))
         == GroupDir(ProviderBase(modules, themes, provider), componentType)
    ensures Basename(FolderPath(modules, themes, machineName, provider, componentType)) == machineName
    ensures Rejoin(FolderPath(modules, themes, machineName, provider, componentType))
         == FolderPath(modules, themes, machineName, provider, componentType)
  {
    var base := ProviderBase(modules, themes, provider);
    var dir := GroupDir(base, componentType);
    assert FolderPath(modules, themes, machineName, provider, componentType) == dir + "/" + machineName;
    DirnameBasenameJoin(dir, machineName);
  }

  const DocumentationUrl: string :=
    "https://www.drupal.org/docs/develop/theming-drupal/using-single-directory-components/annotated-example-componentyml"

  /** The props schema every new component starts with: one string prop `name` with one example. */
  const PropsStub: Value :=
    Arr([("type", Str("object")),
         ("properties", Arr([("name", Arr([("type", Str("string")),
                                           ("examples", Arr([("Example 1", Str("Hello world"))]))]))]))])

  /** The manifest array `createComponentFile` encodes: fixed head, optional group and description, then the props. */
  function Manifest(name: string, componentType: Option<string>, description: Option<string>): Value
  {
    var group := if !EmptyOrNull(componentType) then [("group", Str(componentType.value))] else [];
    var desc := if !EmptyOrNull(description) then [("description", Str(description.value))] else [];
    Arr([("# Documentation", Str(DocumentationUrl)), ("name", Str(name)), ("status", Str("experimental"))]
        + group + desc + [("props", PropsStub)])
  }

  function ManifestHead(name: string): seq<(string, Value)>
  {
    [("# Documentation", Str(DocumentationUrl)), ("name", Str(name)), ("status", Str("experimental"))]
  }

  function ManifestTail(componentType: Option<string>, description: Option<string>): seq<(string, Value)>
  {
    (if !EmptyOrNull(componentType) then [("group", Str(componentType.value))] else [])
    + (if !EmptyOrNull(description) then [("description", Str(description.value))] else [])
    + [("props", PropsStub)]
  }

  lemma ManifestSplit(name: string, componentType: Option<string>, description: Option<string>)
    ensures Manifest(name, componentType, description).entries == ManifestHead(name) + ManifestTail(componentType, description)
    ensures Keys(ManifestHead(name)) == ["# Documentation", "name", "status"]
  {
  }

  /** No key of the manifest repeats. */
  lemma ManifestUnique(name: string, componentType: Option<string>, description: Option<string>)
    ensures UniqueKeys(Manifest(name, componentType, description).entries)
  {
    var head, tail := ManifestHead(name), ManifestTail(componentType, description);
    ManifestSplit(name, componentType, description);
    var tks := Keys(tail);
    assert forall k :: k in tks ==> k == "group" || k == "description" || k == "props";
    assert forall i, j :: 0 <= i < j < |tks| ==> tks[i] != tks[j];
    UniqueConcat(head, tail);
  }

  lemma UniqueByKeys(a: seq<(string, Value)>, ks: seq<string>)
    requires Keys(a) == ks && forall i, j :: 0 <= i < j < |ks| ==> ks[i] != ks[j]
    ensures UniqueKeys(a)
  {
  }

  /** The manifest always names the component and marks it experimental. */
  lemma ManifestHeadFields(name: string, componentType: Option<string>, description: Option<string>)
    ensures Lookup(Manifest(name, componentType, description), "name") == Str(name)
    ensures Lookup(Manifest(name, componentType, description), "status") == Str("experimental")
  {
    ManifestSplit(name, componentType, description);
    var head := ManifestHead(name);
    assert head[1..][1..] == [("status", Str("experimental"))];
    assert Get(head, "status") == Get(head[1..], "status") == Get(head[1..][1..], "status") == Some(Str("experimental"));
    GetConcat(ManifestHead(name), ManifestTail(componentType, description), "name");
    GetConcat(ManifestHead(name), ManifestTail(componentType, description), "status");
  }

  /** A key the fixed head lacks is read from the tail. */
  lemma ManifestGetTail(name: string, componentType: Option<string>, description: Option<string>, k: string)
    requires k != "# Documentation" && k != "name" && k != "status"
    ensures Lookup(Manifest(name, componentType, description), k) == Get(ManifestTail(componentType, description), k).GetOr(Null)
  {
    ManifestSplit(name, componentType, description);
    GetConcat(ManifestHead(name), ManifestTail(componentType, description), k);
  }

  lemma TailFields(componentType: Option<string>, description: Option<string>)
    ensures Get(ManifestTail(componentType, description), "group")
         == (if EmptyOrNull(componentType) then None else Some(Str(componentType.value)))
    ensures Get(ManifestTail(componentType, description), "description")
         == (if EmptyOrNull(description) then None else Some(Str(description.value)))
    ensures Get(ManifestTail(componentType, description), "props") == Some(PropsStub)
  {
    var tail := ManifestTail(componentType, description);
    var props := ("props", PropsStub);
    if EmptyOrNull(componentType) && EmptyOrNull(description) {
      assert tail == [props];
    } else if EmptyOrNull(componentType) {
      assert tail == [("description", Str(description.value)), props];
    } else if EmptyOrNull(description) {
      assert tail == [("group", Str(componentType.value)), props];
    } else {
      assert tail == [("group", Str(componentType.value)), ("description", Str(description.value)), props];
      assert tail[1..][1..] == [props];
      assert Get(tail, "props") == Get(tail[1..], "props") == Get(tail[1..][1..], "props");
    }
  }

  /** The manifest has a group exactly for a non-empty type, and a description exactly for a non-empty description. */
  lemma ManifestOptionalFields(name: string, componentType: Option<string>, description: Option<string>)
    ensures Lookup(Manifest(name, componentType, description), "group")
         == (if EmptyOrNull(componentType) then Null else Str(componentType.value))
    ensures Lookup(Manifest(name, componentType, description), "description")
         == (if EmptyOrNull(description) then Null else Str(description.value))
  {
    ManifestGetTail(name, componentType, description, "group");
    ManifestGetTail(name, componentType, description, "description");
    TailFields(componentType, description);
  }

  /** The manifest's only prop is `name`, whose example "Example 1" is "Hello world". */
  lemma ManifestProps(name: string, componentType: Option<string>, description: Option<string>)
    ensures Lookup(Lookup(Manifest(name, componentType, description), "props"), "properties").Arr?
    ensures Keys(Lookup(Lookup(Manifest(name, componentType, description), "props"), "properties").entries) == ["name"]
    ensures Lookup(Lookup(Lookup(Lookup(Manifest(name, componentType, description), "props"), "properties"), "name"), "examples")
         == Arr([("Example 1", Str("Hello world"))])
  {
    ManifestGetTail(name, componentType, description, "props");
    TailFields(componentType, description);
    var p := PropsStub.entries;
    assert Get(p, "properties") == Some(p[1].1);
    var properties := p[1].1.entries;
    assert Get(properties, "name") == Some(properties[0].1);
    var nameProp := properties[0].1.entries;
    assert Get(nameProp, "examples") == Some(nameProp[1].1);
  }

  function TwigStub(machineName: string): string
  {
    "{# @file\n" + ("  @component: " + machineName + "\n") + "  @props:\n" + "    - name:\n"
    + "      type: string\n" + "#}\n" + "{{ name }}"
  }

  function ReadmeStub(name: string, description: string): string
  {
    ("# " + name + " \n") + "\n" + (description + "\n") + "# Usage \n" + "\n"
    + "Describe the usage of your componant here. \n" + "# Additional Info\n" + "\n"
    + "Add additional info if needed here. \n"
  }

  function JsStub(machineName: string): string
  {
    "(function (Drupal) {\n" + ("  Drupal.behavior." + machineName + " = {\n")
    + "    attach: function attach(context) {\n" + ("      console.log('" + machineName + " JS');\n")
    + "    }\n" + "  };\n" + "})(Drupal);\n"
  }

  function CssStub(machineName: string): string
  {
    "/*\n" + (" * " + machineName + " CSS\n") + " */\n"
  }

  /** The twig stub documents the component under its machine name, right after its opening line, and prints the `name` prop. */
  lemma TwigStubNamesComponent(machineName: string)
    ensures OccursAt(TwigStub(machineName), "  @component: " + machineName + "\n", |"{# @file\n"|)
    ensures OccursAt(TwigStub(machineName), "{{ name }}", |TwigStub(machineName)| - |"{{ name }}"|)
  {
    var s := TwigStub(machineName);
    var line := "  @component: " + machineName + "\n";
    var rest := "  @props:\n" + "    - name:\n" + "      type: string\n" + "#}\n" + "{{ name }}";
    assert s == "{# @file\n" + line + rest;
    assert s[|"{# @file\n"|..|"{# @file\n"| + |line|] == line;
  }

  /**
   * What visiting one directory entry does when a folder is duplicated: the entry path is
   * re-rooted by `str_replace`, a sub-folder is prepared (not descended into) and a file
   * is copied. "." and ".." name the folders being read and written, which already exist,
   * so preparing them changes nothing.
   */
  function CopyEntry(fs: FileSystem, path: string, newPath: string, name: string): FileSystem
  {
    if name == "." || name == ".." then fs
    else
      var src := path + "/" + name;
      var dst := StrReplace(src, path, newPath);
      if src in fs.dirs then PrepareDirectory(fs, dst).0 else Copy(fs, src, dst)
  }

  /** The entries visited, in order. */
  function CopyEntries(fs: FileSystem, path: string, newPath: string, names: seq<string>): FileSystem
    decreases |names|
  {
    if names == [] then fs
    else CopyEntry(CopyEntries(fs, path, newPath, names[..|names| - 1]), path, newPath, names[|names| - 1])
  }

  /** The entries at even positions: what a loop visits when it advances twice per step. */
  function Evens<T>(xs: seq<T>): (r: seq<T>)
    ensures |r| == (|xs| + 1) / 2
    ensures forall j :: 0 <= j < |r| ==> r[j] == xs[2 * j]
  {
    seq((|xs| + 1) / 2, j requires 0 <= j < (|xs| + 1) / 2 => xs[2 * j])
  }

  /** Visiting one more entry of a listing. */
  lemma CopyEntriesStep(fs: FileSystem, path: string, newPath: string, names: seq<string>, i: nat)
    requires i < |names|
    ensures CopyEntries(fs, path, newPath, names[..i + 1]) == CopyEntry(CopyEntries(fs, path, newPath, names[..i]), path, newPath, names[i])
  {
    assert names[..i + 1][..i] == names[..i];
  }

  /** `realpath` is not modelled: the new folder is rebuilt from its `dirname` and `basename`. */
  function Rejoin(p: string): string
  {
    Dirname(p) + "/" + Basename(p)
  }

  /** `listing` is what reading the folder `path` yields: ".", "..", and each direct child, once and no other. */
  ghost predicate IsListing(fs: FileSystem, path: string, listing: seq<string>)
  {
    && "." in listing && ".." in listing
    && (forall i, j :: 0 <= i < j < |listing| ==> listing[i] != listing[j])
    && (forall n :: n in listing && n != "." && n != ".." ==> n != "" && '/' !in n && fs.Exists(path + "/" + n))
    && (forall n :: n != "" && '/' !in n && fs.Exists(path + "/" + n) ==> n in listing)
  }

  /** Entry names re-rooted by `str_replace` as intended: the old folder occurs only as their prefix. */
  predicate PlainEntries(path: string, names: seq<string>)
  {
    forall n :: n in names && n != "." && n != ".." ==> n != "" && '/' !in n && !Contains("/" + n, path)
  }

  lemma EntryTarget(path: string, newPath: string, n: string)
    requires path != [] && !Contains("/" + n, path)
    ensures StrReplace(path + "/" + n, path, newPath) == newPath + "/" + n
  {
    assert path + "/" + n == path + ("/" + n);
    ReplacePrefix(path, "/" + n, newPath);
    assert newPath + ("/" + n) == newPath + "/" + n;
  }

  /** The folders preparing `newPath/d` can add: `newPath/d` itself and prefixes of `newPath`. */
  lemma AncestorsOfChild(newPath: string, d: string)
    requires '/' !in d
    ensures forall q :: q in Ancestors(newPath + "/" + d) ==> q == newPath + "/" + d || q <= newPath
  {
    var p := newPath + "/" + d;
    forall q | q in Ancestors(p) ensures q == p || q <= newPath {
      var i :| 0 < i <= |p| && (i == |p| || p[i] == '/') && q == p[..i];
      if i <= |newPath| {
        assert p[..i] == newPath[..i];
      }
    }
  }

  /** Visiting entries never adds a file named `t` unless one of them copies to `t`. */
  lemma {:induction false} CopyEntriesAvoid(fs: FileSystem, path: string, newPath: string, names: seq<string>, t: string)
    requires path != [] && PlainEntries(path, names)
    requires forall n :: n in names && n != "." && n != ".." ==> newPath + "/" + n != t
    requires t !in fs.files
    ensures t !in CopyEntries(fs, path, newPath, names).files
    decreases |names|
  {
    if names != [] {
      var init, last := names[..|names| - 1], names[|names| - 1];
      assert forall n :: n in init ==> n in names;
      CopyEntriesAvoid(fs, path, newPath, init, t);
      if last != "." && last != ".." {
        EntryTarget(path, newPath, last);
      }
    }
  }

  /** Visiting entries only adds folders, and touches no file outside the new folder. */
  lemma {:induction false} CopyEntriesKeepsOutside(fs: FileSystem, path: string, newPath: string, names: seq<string>)
    requires path != [] && PlainEntries(path, names)
    ensures var r := CopyEntries(fs, path, newPath, names);
      && fs.dirs <= r.dirs
      && (forall q :: q in fs.files && !Under(q, newPath) ==> q in r.files && r.files[q] == fs.files[q])
      && (forall q :: q in fs.files && q !in fs.dirs && !Under(q, newPath) ==> q !in r.dirs)
    decreases |names|
  {
    if names != [] {
      var init, last := names[..|names| - 1], names[|names| - 1];
      assert forall n :: n in init ==> n in names;
      CopyEntriesKeepsOutside(fs, path, newPath, init);
      if last != "." && last != ".." {
        EntryTarget(path, newPath, last);
        assert Under(newPath + "/" + last, newPath);
      }
    }
  }

  /** The only folders visiting adds inside the new folder are `newPath/n` for visited names `n`. */
  lemma {:induction false} CopyEntriesFoldersInside(fs: FileSystem, path: string, newPath: string, names: seq<string>)
    requires path != [] && PlainEntries(path, names)
    requires forall q :: q in fs.dirs && Under(q, newPath) ==> q == newPath
    ensures forall q :: q in CopyEntries(fs, path, newPath, names).dirs && Under(q, newPath) && q != newPath ==>
      exists n :: n in names && q == newPath + "/" + n
    decreases |names|
  {
    if names != [] {
      var init, last := names[..|names| - 1], names[|names| - 1];
      assert forall n :: n in init ==> n in names;
      CopyEntriesFoldersInside(fs, path, newPath, init);
      var prev := CopyEntries(fs, path, newPath, init);
      if last != "." && last != ".." {
        CopyEntryDirs(prev, path, newPath, last);
        forall q | q in CopyEntry(prev, path, newPath, last).dirs && Under(q, newPath) && q != newPath
          ensures exists n :: n in names && q == newPath + "/" + n
        {
          if q !in prev.dirs {
            assert q == newPath + "/" + last;
          }
        }
      }
    }
  }

  /** Visiting one plain entry creates no folder under the new one but the entry's own. */
  lemma CopyEntryDirs(fs: FileSystem, path: string, newPath: string, n: string)
    requires path != [] && n != "." && n != ".." && '/' !in n && !Contains("/" + n, path)
    ensures forall q :: q in CopyEntry(fs, path, newPath, n).dirs && q !in fs.dirs && Under(q, newPath) && q != newPath ==>
      q == newPath + "/" + n
  {
    EntryTarget(path, newPath, n);
    AncestorsOfChild(newPath, n);
  }

  lemma CopyEntryCopies(fs: FileSystem, path: string, newPath: string, n: string)
    requires path != [] && n != "" && '/' !in n && n != "." && n != ".." && !Contains("/" + n, path)
    requires newPath != [] && newPath[|newPath| - 1] != '/' && newPath in fs.dirs
    requires path + "/" + n in fs.files && path + "/" + n !in fs.dirs && newPath + "/" + n !in fs.dirs
    ensures newPath + "/" + n in CopyEntry(fs, path, newPath, n).files
    ensures CopyEntry(fs, path, newPath, n).files[newPath + "/" + n] == fs.files[path + "/" + n]
  {
    EntryTarget(path, newPath, n);
    DirnameBasenameJoin(newPath, n);
  }

  lemma CopyEntryPreserves(fs: FileSystem, path: string, newPath: string, m: string, t: string)
    requires path != [] && (m == "." || m == ".." || (!Contains("/" + m, path) && newPath + "/" + m != t))
    requires t in fs.files
    ensures t in CopyEntry(fs, path, newPath, m).files
    ensures CopyEntry(fs, path, newPath, m).files[t] == fs.files[t]
  {
    if m != "." && m != ".." {
      EntryTarget(path, newPath, m);
    }
  }

  /**
   * Visiting every entry of a folder reproduces each of its files in the new folder with
   * the same contents, when the new folder exists, holds no sub-folder yet, and lies apart
   * from the sources.
   */
  lemma {:induction false} CopyEntriesCopiesFile(fs: FileSystem, path: string, newPath: string, names: seq<string>, n: string)
    requires path != [] && PlainEntries(path, names)
    requires forall i, j :: 0 <= i < j < |names| ==> names[i] != names[j]
    requires newPath != [] && newPath[|newPath| - 1] != '/' && newPath in fs.dirs
    requires forall q :: q in fs.dirs && Under(q, newPath) ==> q == newPath
    requires forall m :: m in names && m != "." && m != ".." ==> !Under(path + "/" + m, newPath)
    requires n in names && n != "." && n != ".." && path + "/" + n in fs.files && path + "/" + n !in fs.dirs
    ensures newPath + "/" + n in CopyEntries(fs, path, newPath, names).files
    ensures CopyEntries(fs, path, newPath, names).files[newPath + "/" + n] == fs.files[path + "/" + n]
    decreases |names|
  {
    var init, last := names[..|names| - 1], names[|names| - 1];
    assert names == init + [last];
    assert forall m :: m in init ==> m in names;
    var prev := CopyEntries(fs, path, newPath, init);
    var dst := newPath + "/" + n;
    if last == n {
      var src := path + "/" + n;
      assert n !in init;
      CopyEntriesKeepsOutside(fs, path, newPath, init);
      CopyEntriesFoldersInside(fs, path, newPath, init);
      assert dst[|newPath| + 1..] == n;
      assert forall m :: m in init ==> (newPath + "/" + m)[|newPath| + 1..] == m;
      assert !Under(src, newPath);
      CopyEntryCopies(prev, path, newPath, n);
    } else {
      assert n in init;
      assert forall i, j :: 0 <= i < j < |init| ==> init[i] != init[j];
      CopyEntriesCopiesFile(fs, path, newPath, init, n);
      assert last != "." && last != ".." ==> (newPath + "/" + last)[|newPath| + 1..] == last;
      assert dst[|newPath| + 1..] == n;
      CopyEntryPreserves(prev, path, newPath, last, dst);
    }
  }

  /**
   * Duplicating as intended: every file directly inside the old folder reappears in the
   * prepared new folder with the same contents, when the listing is the folder's, the new
   * folder did not exist, holds nothing yet and lies apart from the entries.
   */
  lemma DuplicateCopiesEveryFile(fs: FileSystem, path: string, newPath: string, listing: seq<string>, n: string)
    requires path != [] && IsListing(fs, path, listing) && PlainEntries(path, listing)
    requires newPath != [] && newPath[|newPath| - 1] != '/' && PrepareDirectory(fs, newPath).1
    requires forall q :: q in fs.dirs ==> !Under(q, newPath)
    requires forall m :: m in listing && m != "." && m != ".." ==> !Under(path + "/" + m, newPath)
    requires n != "" && '/' !in n && n != "." && n != ".." && path + "/" + n in fs.files && path + "/" + n !in fs.dirs
    ensures var r := CopyEntries(PrepareDirectory(fs, newPath).0, path, newPath, listing);
      newPath + "/" + n in r.files && r.files[newPath + "/" + n] == fs.files[path + "/" + n]
  {
    var prepared := PrepareDirectory(fs, newPath).0;
    assert newPath !in fs.dirs by {
      assert Under(newPath, newPath);
    }
    assert prepared.dirs == fs.dirs + Ancestors(newPath);
    forall q | q in prepared.dirs && Under(q, newPath) ensures q == newPath {
      if q in Ancestors(newPath) {
        assert q <= newPath;
      }
    }
    assert path + "/" + n !in Ancestors(newPath);
    assert fs.Exists(path + "/" + n) && n in listing;
    CopyEntriesCopiesFile(prepared, path, newPath, listing, n);
  }

  /**
   * Duplicating as written skips every entry at an odd position of the listing: a file
   * there is not in the new folder afterwards.
   */
  lemma DuplicateSkipsOddEntries(fs: FileSystem, path: string, newPath: string, listing: seq<string>, k: nat)
    requires path != [] && PlainEntries(path, listing)
    requires forall i, j :: 0 <= i < j < |listing| ==> listing[i] != listing[j]
    requires k < |listing| && k % 2 == 1 && listing[k] != "." && listing[k] != ".."
    requires newPath + "/" + listing[k] !in fs.files
    ensures newPath + "/" + listing[k] !in CopyEntries(fs, path, newPath, Evens(listing)).files
  {
    var t := newPath + "/" + listing[k];
    var evens := Evens(listing);
    forall m | m in evens && m != "." && m != ".." ensures newPath + "/" + m != t {
      var j :| 0 <= j < |evens| && evens[j] == m;
      assert m == listing[2 * j] && 2 * j != k;
      assert (newPath + "/" + m)[|newPath| + 1..] == m && t[|newPath| + 1..] == listing[k];
    }
    assert PlainEntries(path, evens) by {
      forall m | m in evens ensures m in listing {
        var j :| 0 <= j < |evens| && evens[j] == m;
      }
    }
    CopyEntriesAvoid(fs, path, newPath, evens, t);
  }

  /** The files a component folder may hold, by what follows "<machineName>.". */
  const Extensions: seq<string> := ["twig", "js", "css", "component.yml", "README.md"]

  /**
   * The renaming loop of a move, over the first extensions: each existing
   * "<machineName>.<ext>" in the folder becomes "<newMachineName>.<ext>", unless the
   * name does not change.
   */
  function RenameFiles(fs: FileSystem, path: string, machineName: string, newMachineName: string, exts: seq<string>): FileSystem
    decreases |exts|
  {
    if exts == [] then fs
    else
      var prev := RenameFiles(fs, path, machineName, newMachineName, exts[..|exts| - 1]);
      var ext := exts[|exts| - 1];
      var from := path + "/" + machineName + "." + ext;
      if !prev.Exists(from) || machineName == newMachineName then prev
      else Move(prev, from, path + "/" + newMachineName + "." + ext)
  }

  lemma RenameFilesStep(fs: FileSystem, path: string, machineName: string, newMachineName: string, exts: seq<string>, i: nat)
    requires i < |exts|
    ensures var prev := RenameFiles(fs, path, machineName, newMachineName, exts[..i]);
      var from := path + "/" + machineName + "." + exts[i];
      RenameFiles(fs, path, machineName, newMachineName, exts[..i + 1])
        == if !prev.Exists(from) || machineName == newMachineName then prev
           else Move(prev, from, path + "/" + newMachineName + "." + exts[i])
  {
    assert exts[..i + 1][..i] == exts[..i];
  }

  /** Keeping the machine name renames nothing. */
  lemma {:induction false} RenameFilesSameName(fs: FileSystem, path: string, machineName: string, exts: seq<string>)
    ensures RenameFiles(fs, path, machineName, machineName, exts) == fs
    decreases |exts|
  {
    if exts != [] {
      RenameFilesSameName(fs, path, machineName, exts[..|exts| - 1]);
    }
  }

  /** Renaming inside the folder leaves every file outside it where and as it was. */
  lemma {:induction false} RenameFilesKeepsOutside(fs: FileSystem, path: string, machineName: string, newMachineName: string, exts: seq<string>)
    ensures var r := RenameFiles(fs, path, machineName, newMachineName, exts);
      forall q :: q in fs.files && !Under(q, path) ==> q in r.files && r.files[q] == fs.files[q]
    decreases |exts|
  {
    if exts != [] {
      var init := exts[..|exts| - 1];
      RenameFilesKeepsOutside(fs, path, machineName, newMachineName, init);
      var ext := exts[|exts| - 1];
      var from := path + "/" + machineName + "." + ext;
      var to := path + "/" + newMachineName + "." + ext;
      assert Under(from, path) && Under(to, path) by {
        assert from == path + ("/" + machineName + "." + ext);
        assert to == path + ("/" + newMachineName + "." + ext);
      }
      forall q | !Under(q, path) ensures !Under(q, from) && !Under(q, to) {
        UnderTrans(q, from, path);
        UnderTrans(q, to, path);
      }
    }
  }

  /** A folder "x" holding two files, and the new folder "y", empty. */
  function ExampleFs(): FileSystem
  {
    FileSystem(map["x/a.twig" := Text("a"), "x/b.css" := Text("b")], {"x", "y"})
  }

  function ExampleListing(): seq<string>
  {
    [".", "..", "a.twig", "b.css"]
  }

  lemma ExampleIsListing()
    ensures IsListing(ExampleFs(), "x", ExampleListing())
  {
    assert "x" + "/" + "a.twig" == "x/a.twig" && "x" + "/" + "b.css" == "x/b.css";
    forall n | n != "" && '/' !in n && ExampleFs().Exists("x" + "/" + n) ensures n in ExampleListing() {
      var q := "x" + "/" + n;
      assert q[2..] == n && |q| > 2;
      if q == "x/a.twig" {
        assert n == "x/a.twig"[2..] == "a.twig";
      } else {
        assert q == "x/b.css";
        assert n == "x/b.css"[2..] == "b.css";
      }
    }
  }

  lemma ExamplePlainEntries()
    ensures PlainEntries("x", ExampleListing())
  {
    var names := ExampleListing();
    forall n | n in names && n != "." && n != ".." ensures n != "" && '/' !in n && !Contains("/" + n, "x") {
      assert n == names[2] || n == names[3];
      ContainsChar("/" + n, 'x');
    }
  }

  /** The folder "x" the loop as written duplicates only in part: "b.css" is left behind. */
  lemma DuplicateAsWrittenLosesFile()
    ensures "y/b.css" !in CopyEntries(ExampleFs(), "x", "y", Evens(ExampleListing())).files
    ensures "y/b.css" in CopyEntries(ExampleFs(), "x", "y", ExampleListing()).files
  {
    var fs, listing := ExampleFs(), ExampleListing();
    ExamplePlainEntries();
    assert listing[3] == "b.css";
    assert forall i, j :: 0 <= i < j < |listing| ==> listing[i] != listing[j] by {
      assert |listing[0]| == 1 && |listing[1]| == 2 && |listing[2]| == 6 && |listing[3]| == 5;
    }
    assert "y" + "/" + "b.css" == "y/b.css" && "x" + "/" + "b.css" == "x/b.css";
    assert "x/b.css" in fs.files;
    assert "x/b.css" !in fs.dirs by {
      assert |"x/b.css"| == 7;
    }
    DuplicateSkipsOddEntries(fs, "x", "y", listing, 3);
    assert forall q :: q in fs.dirs && Under(q, "y") ==> q == "y";
    assert forall m :: m in listing && m != "." && m != ".." ==> !Under("x" + "/" + m, "y");
    CopyEntriesCopiesFile(fs, "x", "y", listing, "b.css");
  }

  class ComponentFileManager {
    /** Installed modules and themes: name to path. */
    const modules: map<string, string>
    const themes: map<string, string>
    var fs: FileSystem

    constructor(modules: map<string, string>, themes: map<string, string>, fs: FileSystem)
      ensures this.modules == modules && this.themes == themes && this.fs == fs
    {
      this.modules := modules;
      this.themes := themes;
      this.fs := fs;
    }

    function BuildComponentFolderPath(machineName: string, provider: string, componentType: Option<string>): (p: string)
      ensures p == FolderPath(modules, themes, machineName, provider, componentType)
    {
      var base := ProviderBase(modules, themes, provider);
      var typePath := if !EmptyOrNull(componentType) then componentType.value + "/" else "";
      base + "/components/" + typePath + machineName
    }

    method CreateComponentFolder(machineName: string, provider: string, componentType: Option<string>) returns (ok: bool)
      modifies this
      ensures (fs, ok) == PrepareDirectory(old(fs), BuildComponentFolderPath(machineName, provider, componentType))
    {
      var r := PrepareDirectory(fs, BuildComponentFolderPath(machineName, provider, componentType));
      fs := r.0;
      ok := r.1;
    }

    /** `fopen($p, 'x')`: a new empty file, or failure when something is there or the folder is missing. */
    method Open(p: string) returns (ok: bool)
      modifies this
      ensures ok == CanCreate(old(fs), p)
      ensures ok ==> fs == old(fs).(files := old(fs).files[p := Text("")])
      ensures !ok ==> fs == old(fs)
    {
      ok := CanCreate(fs, p);
      if ok {
        fs := fs.(files := fs.files[p := Text("")]);
      }
    }

    /** `fwrite`: appends to an open text file. */
    method Write(p: string, s: string)
      requires p in fs.files && fs.files[p].Text?
      modifies this
      ensures fs == old(fs).(files := old(fs).files[p := Text(old(fs).files[p].text + s)])
    {
      fs := fs.(files := fs.files[p := Text(fs.files[p].text + s)]);
    }

    method CreateComponentFile(machineName: string, provider: string, name: string,
                               componentType: Option<string>, description: Option<string>) returns (ok: bool)
      modifies this
      ensures var p := BuildComponentFolderPath(machineName, provider, componentType) + "/" + machineName + ".component.yml";
        && ok == CanCreate(old(fs), p)
        && (ok ==> fs == old(fs).(files := old(fs).files[p := Yaml(Manifest(name, componentType, description))]))
        && (!ok ==> fs == old(fs))
    {
      var p := BuildComponentFolderPath(machineName, provider, componentType) + "/" + machineName + ".component.yml";
      ok := Open(p);
      if !ok {
        return;
      }
      fs := fs.(files := fs.files[p := Yaml(Manifest(name, componentType, description))]);
    }

    method WriteTwig(p: string, machineName: string)
      requires p in fs.files && fs.files[p] == Text("")
      modifies this
      ensures fs == old(fs).(files := old(fs).files[p := Text(TwigStub(machineName))])
    {
      var text := "";  // what the handle holds until `fclose`
      text := text + "{# @file\n";
      text := text + ("  @component: " + machineName + "\n");
      text := text + "  @props:\n";
      text := text + "    - name:\n";
      text := text + "      type: string\n";
      text := text + "#}\n";
      text := text + "{{ name }}";
      assert "" + "{# @file\n" == "{# @file\n";
      Write(p, text);
      assert fs.files[p].text == text;
    }

    method CreateTwigFile(machineName: string, provider: string, componentType: Option<string>) returns (ok: bool)
      modifies this
      ensures var p := BuildComponentFolderPath(machineName, provider, componentType) + "/" + machineName + ".twig";
        && ok == CanCreate(old(fs), p)
        && (ok ==> fs == old(fs).(files := old(fs).files[p := Text(TwigStub(machineName))]))
        && (!ok ==> fs == old(fs))
    {
      var p := BuildComponentFolderPath(machineName, provider, componentType) + "/" + machineName + ".twig";
      ok := Open(p);
      if !ok {
        return;
      }
      WriteTwig(p, machineName);
    }

    method WriteReadme(p: string, name: string, description: string)
      requires p in fs.files && fs.files[p] == Text("")
      modifies this
      ensures fs == old(fs).(files := old(fs).files[p := Text(ReadmeStub(name, description))])
    {
      var text := "";  // what the handle holds until `fclose`
      text := text + ("# " + name + " \n");
      text := text + "\n";
      text := text + (description + "\n");
      text := text + "# Usage \n";
      text := text + "\n";
      text := text + "Describe the usage of your componant here. \n";
      text := text + "# Additional Info\n";
      text := text + "\n";
      text := text + "Add additional info if needed here. \n";
      assert "" + ("# " + name + " \n") == "# " + name + " \n";
      Write(p, text);
      assert fs.files[p].text == text;
    }

    method CreateReadmeFile(machineName: string, provider: string, name: string, description: string,
                            componentType: Option<string>) returns (ok: bool)
      modifies this
      ensures var p := BuildComponentFolderPath(machineName, provider, componentType) + "/README.md";
        && ok == CanCreate(old(fs), p)
        && (ok ==> fs == old(fs).(files := old(fs).files[p := Text(ReadmeStub(name, description))]))
        && (!ok ==> fs == old(fs))
    {
      var p := BuildComponentFolderPath(machineName, provider, componentType) + "/README.md";
      ok := Open(p);
      if !ok {
        return;
      }
      WriteReadme(p, name, description);
    }

    method WriteJs(p: string, machineName: string)
      requires p in fs.files && fs.files[p] == Text("")
      modifies this
      ensures fs == old(fs).(files := old(fs).files[p := Text(JsStub(machineName))])
    {
      var text := "";  // what the handle holds until `fclose`
      text := text + "(function (Drupal) {\n";
      text := text + ("  Drupal.behavior." + machineName + " = {\n");
      text := text + "    attach: function attach(context) {\n";
      text := text + ("      console.log('" + machineName + " JS');\n");
      text := text + "    }\n";
      text := text + "  };\n";
      text := text + "})(Drupal);\n";
      assert "" + "(function (Drupal) {\n" == "(function (Drupal) {\n";
      Write(p, text);
      assert fs.files[p].text == text;
    }

    method CreateJsFile(machineName: string, provider: string, componentType: Option<string>) returns (ok: bool)
      modifies this
      ensures var p := BuildComponentFolderPath(machineName, provider, componentType) + "/" + machineName + ".js";
        && ok == CanCreate(old(fs), p)
        && (ok ==> fs == old(fs).(files := old(fs).files[p := Text(JsStub(machineName))]))
        && (!ok ==> fs == old(fs))
    {
      var p := BuildComponentFolderPath(machineName, provider, componentType) + "/" + machineName + ".js";
      ok := Open(p);
      if !ok {
        return;
      }
      WriteJs(p, machineName);
    }

    method WriteCss(p: string, machineName: string)
      requires p in fs.files && fs.files[p] == Text("")
      modifies this
      ensures fs == old(fs).(files := old(fs).files[p := Text(CssStub(machineName))])
    {
      var text := "";  // what the handle holds until `fclose`
      text := text + "/*\n";
      text := text + (" * " + machineName + " CSS\n");
      text := text + " */\n";
      assert "" + "/*\n" == "/*\n";
      Write(p, text);
      assert fs.files[p].text == text;
    }

    method CreateCssFile(machineName: string, provider: string, componentType: Option<string>) returns (ok: bool)
      modifies this
      ensures var p := BuildComponentFolderPath(machineName, provider, componentType) + "/" + machineName + ".css";
        && ok == CanCreate(old(fs), p)
        && (ok ==> fs == old(fs).(files := old(fs).files[p := Text(CssStub(machineName))]))
        && (!ok ==> fs == old(fs))
    {
      var p := BuildComponentFolderPath(machineName, provider, componentType) + "/" + machineName + ".css";
      ok := Open(p);
      if !ok {
        return;
      }
      WriteCss(p, machineName);
    }

    /**
     * `loadComponentFile`: `[]` when the file is missing, else the decoded manifest. Its
     * declared `array` return type turns any other decoded value (`null` for unreadable or
     * non-YAML text, a scalar) into a `TypeError`, here `None`.
     */
    function LoadComponentFile(c: Component): (v: Option<Value>)
      reads this
      ensures v.Some? ==> v.value.Arr?
      ensures !fs.Exists(c.discoveredFilePath) ==> v == Some(Arr([]))
      ensures fs.Exists(c.discoveredFilePath) && c.discoveredFilePath !in fs.files ==> v.None?
      ensures c.discoveredFilePath in fs.files && fs.files[c.discoveredFilePath].Yaml? ==>
        v == if fs.files[c.discoveredFilePath].data.Arr? then Some(fs.files[c.discoveredFilePath].data) else None
      ensures c.discoveredFilePath in fs.files && fs.files[c.discoveredFilePath].Text? ==> v.None?
    {
      if !fs.Exists(c.discoveredFilePath) then Some(Arr([]))
      else
        var d := fs.Decoded(c.discoveredFilePath);
        if d.Arr? then Some(d) else None
    }

    /** `saveComponentFile`: `file_put_contents` writes where a regular file can be; it reports success regardless. */
    method SaveComponentFile(c: Component, manifest: Value) returns (ok: bool)
      modifies this
      ensures ok
      ensures var p := c.discoveredFilePath;
        fs == if p !in old(fs).dirs && Dirname(p) in old(fs).dirs then old(fs).(files := old(fs).files[p := Yaml(manifest)]) else old(fs)
    {
      var p := c.discoveredFilePath;
      if p !in fs.dirs && Dirname(p) in fs.dirs {
        fs := fs.(files := fs.files[p := Yaml(manifest)]);
      }
      ok := true;
    }

    /** `deleteComponentFile`: succeeds exactly when something is at `<path>/<machineName>.<fileType>`; only a regular file is removed. */
    method DeleteComponentFile(c: Component, fileType: string) returns (ok: bool)
      modifies this
      ensures var p := c.path + "/" + c.machineName + "." + fileType;
        && ok == old(fs).Exists(p)
        && fs == (if p in old(fs).files then Unlink(old(fs), p) else old(fs))
    {
      var p := c.path + "/" + c.machineName + "." + fileType;
      ok := fs.Exists(p);
      if ok && p in fs.files {
        fs := Unlink(fs, p);
      }
    }

    /**
     * `duplicateComponent` as written: after the guards the new folder is prepared and the
     * listing of the old folder is walked, but the loop body advances the iterator once
     * more, so only the entries at even positions are copied.
     */
    method DuplicateComponent(c: Component, newProvider: string, listing: seq<string>) returns (ok: bool)
      modifies this
      ensures var np := BuildComponentFolderPath(c.machineName, newProvider, c.group);
        && ok == (np != c.path && !old(fs).Exists(np))
        && (!ok ==> fs == old(fs))
        && (ok ==> fs == CopyEntries(PrepareDirectory(old(fs), Rejoin(np)).0, c.path, Rejoin(np), Evens(listing)))
    {
      var path := c.path;
      var newPath := BuildComponentFolderPath(c.machineName, newProvider, c.group);
      if newPath == path || fs.Exists(newPath) {
        return false;
      }
      newPath := Rejoin(newPath);
      fs := PrepareDirectory(fs, newPath).0;
      ghost var start := fs;
      var i := 0;
      ghost var k := 0;
      while i < |listing|
        invariant i == 2 * k && 0 <= i <= |listing| + 1
        invariant fs == CopyEntries(start, path, newPath, Evens(listing)[..k])
      {
        CopyEntriesStep(start, path, newPath, Evens(listing), k);
        fs := CopyEntry(fs, path, newPath, listing[i]);
        i, k := i + 2, k + 1;
      }
      assert Evens(listing)[..k] == Evens(listing);
      ok := true;
    }

    /** `duplicateComponent` as intended: the same, with every entry of the listing visited once. */
    method DuplicateComponentAll(c: Component, newProvider: string, listing: seq<string>) returns (ok: bool)
      modifies this
      ensures var np := BuildComponentFolderPath(c.machineName, newProvider, c.group);
        && ok == (np != c.path && !old(fs).Exists(np))
        && (!ok ==> fs == old(fs))
        && (ok ==> fs == CopyEntries(PrepareDirectory(old(fs), Rejoin(np)).0, c.path, Rejoin(np), listing))
    {
      var path := c.path;
      var newPath := BuildComponentFolderPath(c.machineName, newProvider, c.group);
      if newPath == path || fs.Exists(newPath) {
        return false;
      }
      newPath := Rejoin(newPath);
      fs := PrepareDirectory(fs, newPath).0;
      ghost var start := fs;
      for i := 0 to |listing|
        invariant fs == CopyEntries(start, path, newPath, listing[..i])
      {
        CopyEntriesStep(start, path, newPath, listing, i);
        fs := CopyEntry(fs, path, newPath, listing[i]);
      }
      assert listing[..|listing|] == listing;
      ok := true;
    }

    /**
     * `moveComponentFolder`: after the same guards as duplicating, the component's files
     * are renamed to the new machine name, the folder that will hold the new folder is
     * prepared, and the folder is renamed.
     */
    method MoveComponentFolder(c: Component, newMachineName: string, newProvider: string, newComponentType: Option<string>) returns (ok: bool)
      modifies this
      ensures var np := BuildComponentFolderPath(newMachineName, newProvider, newComponentType);
        && ok == (np != c.path && !old(fs).Exists(np))
        && (!ok ==> fs == old(fs))
        && (ok ==> fs == Move(PrepareDirectory(RenameFiles(old(fs), c.path, c.machineName, newMachineName, Extensions), Dirname(np)).0, c.path, np))
    {
      var path := c.path;
      var newPath := BuildComponentFolderPath(newMachineName, newProvider, newComponentType);
      if newPath == path || fs.Exists(newPath) {
        return false;
      }
      ghost var start := fs;
      for i := 0 to |Extensions|
        invariant fs == RenameFiles(start, path, c.machineName, newMachineName, Extensions[..i])
      {
        RenameFilesStep(start, path, c.machineName, newMachineName, Extensions, i);
        var from := path + "/" + c.machineName + "." + Extensions[i];
        if fs.Exists(from) && c.machineName != newMachineName {
          fs := Move(fs, from, path + "/" + newMachineName + "." + Extensions[i]);
        }
      }
      assert Extensions[..|Extensions|] == Extensions;
      fs := PrepareDirectory(fs, Dirname(newPath)).0;
      fs := Move(fs, path, newPath);
      ok := true;
    }

    /** The file a provider's libraries are declared in. */
    function LibraryFile(provider: string): string
    {
      ProviderBase(modules, themes, provider) + "/" + provider + ".libraries.yml"
    }

    /** The buckets `getLibrariesFilesFromExtension` returns, as a value. */
    function LibrariesFiles(provider: string): Buckets
      reads this
    {
      if fs.Exists(LibraryFile(provider))
      then Flatten(InitialBuckets, fs.Decoded(LibraryFile(provider)), ProviderBase(modules, themes, provider))
      else []
    }

    /**
     * `getLibrariesFilesFromExtension`: nothing when the provider has no libraries file,
     * else every file it declares, under the provider folder, bucketed by extension after
     * the "js" and "css" buckets.
     */
    method GetLibrariesFilesFromExtension(provider: string) returns (files: Buckets)
      ensures !fs.Exists(LibraryFile(provider)) ==> files == []
      ensures fs.Exists(LibraryFile(provider)) ==>
        files == Flatten(InitialBuckets, fs.Decoded(LibraryFile(provider)), ProviderBase(modules, themes, provider))
      ensures files == LibrariesFiles(provider)
    {
      var base := ProviderBase(modules, themes, provider);
      var libraryFile := base + "/" + provider + ".libraries.yml";
      if !fs.Exists(libraryFile) {
        return [];
      }
      files := FlattenLibraryFiles(InitialBuckets, fs.Decoded(libraryFile), base);
    }
  }
}
