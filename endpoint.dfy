/**
 * The Storybook endpoint: which component a story request names, the render
 * arguments it carries, and the render array that shows the component.
 * The file system and the component registry are explicit inputs; JSON and
 * base64 decoding are given as functions.
 */
module Endpoint {
  import opened Wrappers
  import opened Strings
  import opened Assoc
  import opened Values
  import opened Sdc
  import opened Fs

  /** What the endpoint reads from the inbound request. */
  datatype Request = Request(
    httpMethod: string,
    params: Option<string>,         // the `_params` query value
    body: string,                   // the raw request body
    storyFileName: Option<string>)  // the `_storyFileName` query value

  /** The decoding libraries: strict base64 (failure is `None`) and JSON (failure is `Null`). */
  datatype Decoders = Decoders(base64: string -> Option<string>, json: string -> Value)

  /** The JSON text the arguments are decoded from; a falsy choice stands for "[]". */
  function ArgumentsJson(req: Request, dec: Decoders): (json: string)
    ensures req.httpMethod != "GET" && req.httpMethod != "POST" ==> json == "[]"
    ensures req.httpMethod == "POST" ==> json == if PhpEmpty(req.body) then "[]" else req.body
    ensures req.httpMethod == "GET" ==>
      json == match dec.base64(req.params.GetOr(""))
              case None => "[]"
              case Some(s) => if PhpEmpty(s) then "[]" else s
    ensures !PhpEmpty(json)
  {
    var chosen: Option<string> :=
      if req.httpMethod == "POST" then Some(req.body)
      else if req.httpMethod == "GET" then dec.base64(req.params.GetOr(""))
      else Some("[]");
    if chosen.None? || PhpEmpty(chosen.value) then "[]" else chosen.value
  }

  /** `getArguments`: the decoded arguments when they are an array, and none otherwise. */
  function GetArguments(req: Request, dec: Decoders): (args: seq<(string, Value)>)
    ensures dec.json(ArgumentsJson(req, dec)).Arr? ==> args == dec.json(ArgumentsJson(req, dec)).entries
    ensures !dec.json(ArgumentsJson(req, dec)).Arr? ==> args == []
  {
    var v := dec.json(ArgumentsJson(req, dec));
    if v.Arr? then v.entries else []
  }

  /** `t` is what is left of `s` after dropping some leading "/"-terminated segments. */
  predicate SegmentSuffix(t: string, s: string)
  {
    t == s || exists i :: 0 <= i < |s| && s[i] == '/' && t == s[i + 1..]
  }

  /** The first piece `explode` yields holds no separator. */
  lemma {:induction false} ExplodeHead(s: string)
    ensures '/' !in Explode("/", s)[0]
    decreases |s|
  {
    if |s| >= 1 && s[..1] != "/" {
      ExplodeHead(s[1..]);
    }
  }

  /**
   * `array_shift` on the "/"-separated segments: everything after the first slash, or
   * nothing when there is none.
   */
  function Shift(s: string): (r: string)
    ensures |r| < |s| || s == []
    ensures s != [] ==> r == [] || (exists i :: 0 <= i < |s| && s[i] == '/' && '/' !in s[..i] && r == s[i + 1..])
  {
    var parts := Explode("/", s);
    if |parts| == 1 then []
    else
      var r := Implode("/", parts[1..]);
      assert s == parts[0] + "/" + r by {
        ImplodeExplode("/", s);
      }
      ExplodeHead(s);
      var i := |parts[0]|;
      assert s[i] == '/' && s[..i] == parts[0] && r == s[i + 1..];
      r
  }

  /**
   * `findStoryFile`: the name itself when something exists there, else the same search
   * with the first segment dropped; nothing once the name is empty.
   */
  function FindStoryFile(fs: FileSystem, filename: string): (r: Option<string>)
    ensures r.Some? ==> fs.Exists(r.value) && SegmentSuffix(r.value, filename) && !PhpEmpty(r.value)
    ensures !PhpEmpty(filename) && fs.Exists(filename) ==> r == Some(filename)
    decreases |filename|
  {
    if PhpEmpty(filename) then None
    else if fs.Exists(filename) then Some(filename)
    else
      var r := FindStoryFile(fs, Shift(filename));
      if r.Some? then SegmentSuffixShift(r.value, filename); r else r
  }

  /** A segment suffix of what `Shift` leaves is one of the whole name. */
  lemma SegmentSuffixShift(t: string, s: string)
    requires |Shift(s)| != 0 && SegmentSuffix(t, Shift(s))
    ensures SegmentSuffix(t, s)
  {
    var u := Shift(s);
    var i :| 0 <= i < |s| && s[i] == '/' && u == s[i + 1..];
    if t != u {
      var j :| 0 <= j < |u| && u[j] == '/' && t == u[j + 1..];
      assert s[i + 1 + j] == '/' && t == s[i + 1 + j + 1..];
    }
  }

  /** No longer segment suffix of the name than the one found exists (or it is empty). */
  lemma {:induction false} FindStoryFileLongest(fs: FileSystem, filename: string, i: nat)
    requires FindStoryFile(fs, filename).Some?
    requires i < |filename| && filename[i] == '/' && |filename[i + 1..]| > |FindStoryFile(fs, filename).value|
    ensures PhpEmpty(filename[i + 1..]) || !fs.Exists(filename[i + 1..])
    decreases |filename|
  {
    var found := FindStoryFile(fs, filename).value;
    assert !PhpEmpty(filename) && !fs.Exists(filename) by {
      assert |found| <= |filename|;
    }
    var t := Shift(filename);
    assert FindStoryFile(fs, filename) == FindStoryFile(fs, t);
    ShiftSlash(filename, i);
    var u := filename[i + 1..];
    if |t| > |u| {
      FindStoryFileLongest(fs, t, |t| - |u| - 1);
    }
  }

  /** What `Shift` leaves of a name reaches back at least to any of its slashes. */
  lemma ShiftSlash(s: string, i: nat)
    requires i < |s| && s[i] == '/' && Shift(s) != []
    ensures var t := Shift(s); var u := s[i + 1..];
      && |t| >= |u|
      && (|t| == |u| ==> t == u)
      && (|t| > |u| ==> t[|t| - |u| - 1] == '/' && t[|t| - |u|..] == u)
  {
    var t := Shift(s);
    var k :| 0 <= k < |s| && s[k] == '/' && '/' !in s[..k] && t == s[k + 1..];
    assert forall m :: 0 <= m < k ==> s[m] != '/' by {
      forall m | 0 <= m < k ensures s[m] != '/' {
        assert s[..k][m] == s[m];
      }
    }
    if k < i {
      DropSlice(s, k + 1, i);
      DropSlice(s, k + 1, i + 1);
    }
  }

  lemma DropSlice(s: string, a: nat, b: nat)
    requires a <= b <= |s|
    ensures s[a..][b - a..] == s[b..]
    ensures b < |s| ==> s[a..][b - a] == s[b]
  {
  }

  /** The outcome of a walk that may not end: it ends with a value, or the fuel ran out first. */
  datatype Walk = Done(name: Option<string>) | OutOfFuel

  /** The marker file of a candidate extension folder: "<p>/<basename p>.info.yml". */
  function InfoFile(p: string): string
  {
    p + "/" + Basename(p) + ".info.yml"
  }

  /**
   * `findExtensionName` as written: step to the parent folder and look for its marker,
   * with no stop at "." or "/", where `dirname` returns its argument. `fuel` bounds the
   * number of steps.
   */
  function FindExtensionNameAsWritten(fs: FileSystem, path: string, fuel: nat): Walk
    decreases fuel
  {
    if PhpEmpty(path) then Done(None)
    else if fuel == 0 then OutOfFuel
    else
      var parent := Dirname(path);
      if fs.Exists(InfoFile(parent)) then Done(Some(Basename(parent)))
      else FindExtensionNameAsWritten(fs, parent, fuel - 1)
  }

  /**
   * `findExtensionName` with the walk stopped where `dirname` stops shortening the path:
   * from there every further step would look for the same marker again.
   */
  function FindExtensionName(fs: FileSystem, path: string): (r: Option<string>)
    ensures r.Some? ==> exists p :: fs.Exists(InfoFile(p)) && r.value == Basename(p)
    decreases |path|
  {
    if PhpEmpty(path) then None
    else
      var parent := Dirname(path);
      DirnameShrinks(path);
      if fs.Exists(InfoFile(parent)) then Some(Basename(parent))
      else if |parent| == |path| then None
      else FindExtensionName(fs, parent)
  }

  /**
   * Where the walk as written ends, it ends with the answer of the stopped walk, and
   * whenever the stopped walk finds an extension the walk as written finds it too.
   */
  lemma {:induction false} FindExtensionNameAgrees(fs: FileSystem, path: string, fuel: nat)
    requires fuel > |path|
    ensures FindExtensionNameAsWritten(fs, path, fuel) == OutOfFuel
         || FindExtensionNameAsWritten(fs, path, fuel) == Done(FindExtensionName(fs, path))
    ensures FindExtensionName(fs, path).Some? ==>
      FindExtensionNameAsWritten(fs, path, fuel) == Done(FindExtensionName(fs, path))
    decreases |path|
  {
    if !PhpEmpty(path) {
      var parent := Dirname(path);
      DirnameShrinks(path);
      if !fs.Exists(InfoFile(parent)) {
        if |parent| < |path| {
          FindExtensionNameAgrees(fs, parent, fuel - 1);
        } else {
          FixpointWalk(fs, parent, fuel - 1);
        }
      }
    }
  }

  /** At a fixpoint of `dirname` without a marker, the walk as written finds nothing. */
  lemma {:induction false} FixpointWalk(fs: FileSystem, p: string, fuel: nat)
    requires Dirname(p) == p && !fs.Exists(InfoFile(p))
    ensures FindExtensionNameAsWritten(fs, p, fuel) in {OutOfFuel, Done(None)}
    decreases fuel
  {
    if fuel > 0 && !PhpEmpty(p) {
      FixpointWalk(fs, p, fuel - 1);
    }
  }

  /** From ".", with no marker "./..info.yml", the walk as written never ends. */
  lemma {:induction false} FindExtensionNameAsWrittenDiverges(fs: FileSystem, fuel: nat)
    requires !fs.Exists("./..info.yml")
    ensures FindExtensionNameAsWritten(fs, ".", fuel) == OutOfFuel
    decreases fuel
  {
    assert Dirname(".") == "." by {
      assert RtrimChar(".", '/') == ".";
      assert LastIndexOf(".", '/') == None;
    }
    assert Basename(".") == ".";
    assert InfoFile(".") == "./..info.yml";
    if fuel > 0 {
      FindExtensionNameAsWrittenDiverges(fs, fuel - 1);
    }
  }

  /** How resolving the story's component ends. */
  datatype Resolution =
    | Resolved(component: Component)
    | NotFound(reason: NotFoundReason)
    | Fatal       // an uncaught TypeError
    | Diverges    // the upward walk does not end

  datatype NotFoundReason = EmptyStoryFileName | MissingStoryFile | UnknownPlugin(id: string)

  /** The component machine name a story file names: its basename up to the first dot. */
  function StoryMachineName(storyFileName: string): (m: string)
    ensures '.' !in m && '/' !in m
  {
    var parts := Explode(".", Basename(storyFileName));
    ExplodeHeadChar(Basename(storyFileName));
    parts[0]
  }

  lemma {:induction false} ExplodeHeadChar(s: string)
    requires '/' !in s
    ensures '.' !in Explode(".", s)[0] && '/' !in Explode(".", s)[0]
    decreases |s|
  {
    if |s| >= 1 && s[..1] != "." {
      ExplodeHeadChar(s[1..]);
    }
  }

  /**
   * `getComponent` as written: an empty story name is not found; a story file that
   * cannot be located hands `null` to `findExtensionName`, whose parameter is a
   * non-nullable string; `fuel` bounds the upward walk.
   */
  function GetComponentAsWritten(fs: FileSystem, registry: seq<Component>, storyFileName: Option<string>, fuel: nat): (r: Resolution)
    ensures EmptyOrNull(storyFileName) ==> r == NotFound(EmptyStoryFileName)
    ensures !EmptyOrNull(storyFileName) && FindStoryFile(fs, storyFileName.value).None? ==> r == Fatal
  {
    if EmptyOrNull(storyFileName) then NotFound(EmptyStoryFileName)
    else
      var name := storyFileName.value;
      var machineName := StoryMachineName(name);
      match FindStoryFile(fs, name)
      case None => Fatal
      case Some(story) =>
        match FindExtensionNameAsWritten(fs, story, fuel)
        case OutOfFuel => Diverges
        case Done(provider) => Lookup(registry, provider.GetOr("") + ":" + machineName)
  }

  /** `createInstance("<provider>:<machine>")`: the plugin, or the not-found exception. */
  function Lookup(registry: seq<Component>, id: string): (r: Resolution)
    ensures r.Resolved? <==> Find(registry, id).Some?
    ensures r.Resolved? ==> r.component.id == id && r.component in registry
    ensures !r.Resolved? ==> r == NotFound(UnknownPlugin(id))
  {
    match Find(registry, id)
    case Some(c) => Resolved(c)
    case None => NotFound(UnknownPlugin(id))
  }

  /**
   * `getComponent` as intended: a story file that cannot be located is a component that
   * cannot be found, and the walk stops at the top.
   */
  function GetComponent(fs: FileSystem, registry: seq<Component>, storyFileName: Option<string>): (r: Resolution)
    ensures r.Resolved? || r.NotFound?
    ensures EmptyOrNull(storyFileName) ==> r == NotFound(EmptyStoryFileName)
    ensures r.Resolved? ==>
      && !EmptyOrNull(storyFileName)
      && FindStoryFile(fs, storyFileName.value).Some?
      && r.component in registry
      && r.component.id == PluginId(FindExtensionName(fs, FindStoryFile(fs, storyFileName.value).value).GetOr(""),
                                    StoryMachineName(storyFileName.value))
  {
    if EmptyOrNull(storyFileName) then NotFound(EmptyStoryFileName)
    else
      var name := storyFileName.value;
      var machineName := StoryMachineName(name);
      match FindStoryFile(fs, name)
      case None => NotFound(MissingStoryFile)
      case Some(story) => Lookup(registry, FindExtensionName(fs, story).GetOr("") + ":" + machineName)
  }

  /** Whenever the code as written resolves a component or reports it missing, the intended version agrees. */
  lemma GetComponentAgrees(fs: FileSystem, registry: seq<Component>, storyFileName: Option<string>, fuel: nat)
    requires !EmptyOrNull(storyFileName) ==> fuel > |storyFileName.value|
    ensures var w := GetComponentAsWritten(fs, registry, storyFileName, fuel);
      w.Resolved? || w.NotFound? ==> w == GetComponent(fs, registry, storyFileName)
  {
    if !EmptyOrNull(storyFileName) {
      var story := FindStoryFile(fs, storyFileName.value);
      if story.Some? {
        assert |story.value| <= |storyFileName.value| by {
          if story.value != storyFileName.value {
            var i :| 0 <= i < |storyFileName.value| && storyFileName.value[i] == '/' && story.value == storyFileName.value[i + 1..];
          }
        }
        FindExtensionNameAgrees(fs, story.value, fuel);
      }
    }
  }

  /** A story name no file matches: the code as written fails with a TypeError. */
  lemma GetComponentAsWrittenFatal(registry: seq<Component>, fuel: nat)
    ensures GetComponentAsWritten(FileSystem(map[], {}), registry, Some("button.stories.yml"), fuel) == Fatal
    ensures GetComponent(FileSystem(map[], {}), registry, Some("button.stories.yml")).NotFound?
  {
    var fs := FileSystem(map[], {});
    var s := "button.stories.yml";
    assert FindStoryFile(fs, s) == FindStoryFile(fs, Shift(s));
    assert Explode("/", s) == [s] by {
      assert '/' !in s;
      ExplodeNoSep(s);
    }
  }

  lemma {:induction false} ExplodeNoSep(s: string)
    requires '/' !in s
    ensures Explode("/", s) == [s]
    decreases |s|
  {
    if |s| >= 1 {
      assert s[..1] != "/" by {
        assert s[..1][0] == s[0];
      }
      assert s[1..] == s[1..];
      ExplodeNoSep(s[1..]);
      assert [s[0]] + s[1..] == s;
    }
  }

  /** The template type the schema of an `attributes` prop has when it takes an `Attribute` object. */
  const AttributeClass: string := "Drupal\\Core\\Template\\Attribute"

  /**
   * `attributesPropNeedsUpcasting`: the context sends an array for `attributes` and the
   * schema types that prop as the `Attribute` class.
   */
  predicate AttributesPropNeedsUpcasting(context: seq<(string, Value)>, schema: Value)
  {
    && Values.Lookup(Arr(context), "attributes").Arr?
    && Values.Lookup(Values.Lookup(Values.Lookup(Values.Lookup(schema, "properties"), "attributes"), "type"), "0")
       == Str(AttributeClass)
  }

  /** A slot as rendered: an inline template over the whole context. */
  datatype Slot = InlineTemplate(template: string, context: seq<(string, Value)>)

  /** The component render array: the plugin, its slots and its props. */
  datatype Build =
    | ComponentBuild(pluginId: string, slots: seq<(string, Slot)>, props: seq<(string, Value)>)
    | ErrorMarkup(reason: NotFoundReason)

  /** A slot value as the `string` parameter of the mapping closure receives it, when it can. */
  function SlotString(v: Value): (r: Option<string>)
    ensures v.Str? ==> r == Some(v.s)
    ensures v.Null? || v.Arr? || v.Attribute? ==> r.None?
  {
    match v
    case Str(s) => Some(s)
    case Int(n) => Some(IntToString(n))
    case Bool(b) => Some(if b then "1" else "")
    case _ => None
  }

  function IntToString(n: int): string
  {
    if n < 0 then "-" + NatToString(-n) else NatToString(n)
  }

  /** Every slot entry as an inline template, or `None` when a value cannot be a string. */
  function Slots(entries: seq<(string, Value)>, context: seq<(string, Value)>): (r: Option<seq<(string, Slot)>>)
    ensures r.Some? ==> Keys(r.value) == Keys(entries)
    ensures r.Some? ==> forall i :: 0 <= i < |entries| ==>
      SlotString(entries[i].1) == Some(r.value[i].1.template) && r.value[i].1.context == context
    ensures r.None? <==> exists i :: 0 <= i < |entries| && SlotString(entries[i].1).None?
  {
    if entries == [] then Some([])
    else
      var head := SlotString(entries[0].1);
      var rest := Slots(entries[1..], context);
      if head.None? then None
      else if rest.None? then
        assert exists i :: 0 <= i < |entries| && SlotString(entries[i].1).None? by {
          var i :| 0 <= i < |entries[1..]| && SlotString(entries[1..][i].1).None?;
          assert entries[i + 1] == entries[1..][i];
        }
        None
      else
        var r := [(entries[0].0, InlineTemplate(head.value, context))] + rest.value;
        assert Keys(r) == [entries[0].0] + Keys(rest.value) by {
          assert r[1..] == rest.value;
        }
        assert Keys(entries) == [entries[0].0] + Keys(entries[1..]);
        assert forall i :: 1 <= i < |entries| ==> entries[i] == entries[1..][i - 1];
        Some(r)
  }

  /** The context after the upcast: `attributes` replaced in place by the object built from it. */
  function Upcast(context: seq<(string, Value)>, schema: Value): (r: seq<(string, Value)>)
    ensures !AttributesPropNeedsUpcasting(context, schema) ==> r == context
    ensures AttributesPropNeedsUpcasting(context, schema) ==>
      && Keys(r) == Keys(context)
      && Get(r, "attributes") == Some(Attribute(Values.Lookup(Arr(context), "attributes").entries))
      && forall k :: k != "attributes" ==> Get(r, k) == Get(context, k)
  {
    if AttributesPropNeedsUpcasting(context, schema) then
      Put(context, "attributes", Attribute(Values.Lookup(Arr(context), "attributes").entries))
    else context
  }

  /**
   * `generateRenderArray`: the declared slots of the context become inline templates
   * over the whole (upcast) context and every other entry is a prop; a slot value that
   * is not a string fails as the typed closure does.
   */
  function GenerateRenderArray(c: Component, context: seq<(string, Value)>): (r: Option<Build>)
    ensures var ctx := Upcast(context, c.props.GetOr(Null));
      var names := set n | n in c.slots;
      r.Some? ==>
        && r.value.ComponentBuild?
        && r.value.pluginId == c.id
        && Keys(r.value.slots) == Keys(Only(ctx, names))
        && (forall k :: k in names ==> Get(r.value.props, k) == None)
        && (forall k :: k !in names ==> Get(r.value.props, k) == Get(ctx, k) && k !in Keys(r.value.slots))
  {
    var ctx := Upcast(context, c.props.GetOr(Null));
    var names := set n | n in c.slots;
    match Slots(Only(ctx, names), ctx)
    case None => None
    case Some(slots) => Some(ComponentBuild(c.id, slots, Without(ctx, names)))
  }

  /** Every context entry is a slot or a prop, according to the declared slot names, never both. */
  lemma RenderArrayPartitions(c: Component, context: seq<(string, Value)>, k: string)
    requires GenerateRenderArray(c, context).Some?
    ensures var b := GenerateRenderArray(c, context).value;
      var ctx := Upcast(context, c.props.GetOr(Null));
      && (k in Keys(ctx) <==> k in Keys(b.slots) || Get(b.props, k).Some?)
      && !(k in Keys(b.slots) && Get(b.props, k).Some?)
      && (k in Keys(b.slots) <==> k in c.slots && k in Keys(ctx))
  {
    var ctx := Upcast(context, c.props.GetOr(Null));
    var names := set n | n in c.slots;
    var only := Only(ctx, names);
    if k in names {
      assert Get(only, k) == Get(ctx, k);
    } else {
      assert Get(only, k) == None;
    }
  }

  /** The container the endpoint always answers with. */
  datatype Wrapper = Wrapper(library: string, containerType: string, maxAge: int, id: string, component: Build)

  /**
   * `render`: the component's render array, or the error markup when it cannot be found,
   * always inside the uncached `___cl-wrapper` container; `None` when resolving or
   * rendering fails with an uncaught error.
   */
  function Render(fs: FileSystem, registry: seq<Component>, req: Request, dec: Decoders): (r: Option<Wrapper>)
    ensures r.Some? ==>
      && r.value.id == "___cl-wrapper"
      && r.value.maxAge == 0
      && r.value.containerType == "container"
      && r.value.library == "cl_server/attach_behaviors"
    ensures GetComponent(fs, registry, req.storyFileName).NotFound? ==>
      r == Some(Wrapper("cl_server/attach_behaviors", "container", 0, "___cl-wrapper",
                        ErrorMarkup(GetComponent(fs, registry, req.storyFileName).reason)))
    ensures GetComponent(fs, registry, req.storyFileName).Resolved? ==>
      (r.Some? <==> GenerateRenderArray(GetComponent(fs, registry, req.storyFileName).component, GetArguments(req, dec)).Some?)
    ensures GetComponent(fs, registry, req.storyFileName).Resolved? && r.Some? ==>
      r.value.component == GenerateRenderArray(GetComponent(fs, registry, req.storyFileName).component, GetArguments(req, dec)).value
  {
    var build :=
      match GetComponent(fs, registry, req.storyFileName)
      case Resolved(c) => GenerateRenderArray(c, GetArguments(req, dec))
      case NotFound(reason) => Some(ErrorMarkup(reason))
      case _ => None;
    if build.None? then None
    else Some(Wrapper("cl_server/attach_behaviors", "container", 0, "___cl-wrapper", build.value))
  }
}
