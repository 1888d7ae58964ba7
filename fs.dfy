/**
 * The file system the modules act on, as a value: regular files with their
 * contents and a set of directories, and the Drupal file-system service
 * operations on it. Paths are compared as written (no normalisation).
 */
module Fs {
  import opened Wrappers
  import opened Strings
  import opened Values

  /** A file holds text, or a YAML document represented by the value it encodes. */
  datatype Content = Text(text: string) | Yaml(data: Value)

  datatype FileSystem = FileSystem(files: map<string, Content>, dirs: set<string>)
  {
    /** `file_exists`: a file or a directory. */
    predicate Exists(p: string) { p in files || p in dirs }

    /** `Yaml::decode(file_get_contents($p))`; a missing file or text that is not YAML reads as `null`. */
    function Decoded(p: string): (v: Value)
      ensures p !in files ==> v == Null
    {
      if p in files && files[p].Yaml? then files[p].data else Null
    }
  }

  /** `k` is `p` itself or lies inside the directory `p`. */
  predicate Under(k: string, p: string)
  {
    k == p || (|k| > |p| && k[..|p|] == p && k[|p|] == '/')
  }

  /** Being inside is transitive. */
  lemma UnderTrans(a: string, b: string, c: string)
    requires Under(b, c)
    ensures Under(a, b) ==> Under(a, c)
  {
    if Under(a, b) && a != b && b != c {
      assert a[..|c|] == b[..|c|];
    }
  }

  /** `p` and the directories on the way to it: its prefixes that end just before a `/`. */
  function Ancestors(p: string): (a: set<string>)
    ensures p != [] ==> p in a
    ensures forall q :: q in a ==> q != [] && q <= p
  {
    assert p != [] ==> p[..|p|] == p;
    set i | 0 < i <= |p| && (i == |p| || p[i] == '/') :: p[..i]
  }

  /**
   * `prepareDirectory($p, CREATE_DIRECTORY | MODIFY_PERMISSIONS)`: an existing directory
   * succeeds unchanged; otherwise `p` and its missing ancestors are created, unless one
   * of them is a regular file.
   */
  function PrepareDirectory(fs: FileSystem, p: string): (r: (FileSystem, bool))
    ensures p in fs.dirs ==> r == (fs, true)
    ensures r.1 <==> p in fs.dirs || (p != [] && forall q :: q in Ancestors(p) ==> q !in fs.files)
    ensures r.1 ==> p in r.0.dirs && r.0.files == fs.files && fs.dirs <= r.0.dirs <= fs.dirs + Ancestors(p)
    ensures !r.1 ==> r.0 == fs
  {
    if p in fs.dirs then (fs, true)
    else if p == [] || exists q :: q in Ancestors(p) && q in fs.files then (fs, false)
    else (fs.(dirs := fs.dirs + Ancestors(p)), true)
  }

  /** `fopen($p, 'x')` succeeds exactly when nothing is at `p` and its directory exists. */
  predicate CanCreate(fs: FileSystem, p: string)
  {
    !fs.Exists(p) && Dirname(p) in fs.dirs
  }

  /** `copy($src, $dst)` with replace: the contents of the file `src` at `dst`; anything else fails unchanged. */
  function Copy(fs: FileSystem, src: string, dst: string): (r: FileSystem)
    ensures src in fs.files && dst !in fs.dirs && Dirname(dst) in fs.dirs ==>
      r == fs.(files := fs.files[dst := fs.files[src]])
    ensures !(src in fs.files && dst !in fs.dirs && Dirname(dst) in fs.dirs) ==> r == fs
  {
    if src in fs.files && dst !in fs.dirs && Dirname(dst) in fs.dirs then fs.(files := fs.files[dst := fs.files[src]])
    else fs
  }

  /** `unlink($p)` on a regular file. */
  function Unlink(fs: FileSystem, p: string): (r: FileSystem)
    ensures p !in r.files && r.dirs == fs.dirs
    ensures forall q :: q != p ==> (q in r.files <==> q in fs.files)
    ensures forall q :: q != p && q in fs.files ==> r.files[q] == fs.files[q]
  {
    fs.(files := fs.files - {p})
  }

  /** `deleteRecursive($p)`: everything at or below `p` is removed; it reports success. */
  function DeleteRecursive(fs: FileSystem, p: string): (r: (FileSystem, bool))
    ensures r.1
    ensures forall q :: r.0.Exists(q) <==> fs.Exists(q) && !Under(q, p)
    ensures forall q :: q in r.0.files ==> q in fs.files && r.0.files[q] == fs.files[q]
  {
    (FileSystem(map q | q in fs.files && !Under(q, p) :: fs.files[q], set q | q in fs.dirs && !Under(q, p)), true)
  }

  /** Where a path under `from` lands when `from` is renamed to `to`. */
  function Rebase(k: string, from: string, to: string): (q: string)
    requires Under(k, from)
    ensures Under(q, to)
  {
    to + k[|from|..]
  }

  /** The rename can take place: the source exists, the target does not, its directory does, and neither contains the other. */
  predicate Movable(fs: FileSystem, from: string, to: string)
  {
    fs.Exists(from) && !fs.Exists(to) && Dirname(to) in fs.dirs && !Under(to, from) && !Under(from, to)
  }

  /** Where a path under `to` came from. */
  function Origin(q: string, from: string, to: string): string
    requires Under(q, to)
  {
    from + q[|to|..]
  }

  /**
   * `move($from, $to)` as a rename: a file or a whole directory tree. When the rename
   * cannot take place nothing changes.
   */
  function Move(fs: FileSystem, from: string, to: string): (r: FileSystem)
    ensures !Movable(fs, from, to) ==> r == fs
    ensures Movable(fs, from, to) ==> forall k :: k in fs.files && !Under(k, from) && !Under(k, to) ==>
      k in r.files && r.files[k] == fs.files[k]
  {
    if !Movable(fs, from, to) then fs
    else
      var kept := set k | k in fs.files && !Under(k, from) && !Under(k, to);
      var moved := set k | k in fs.files && Under(k, from) :: Rebase(k, from, to);
      FileSystem(
        map q | q in kept + moved ::
          if Under(q, to) && Origin(q, from, to) in fs.files then fs.files[Origin(q, from, to)]
          else if q in fs.files then fs.files[q] else Text(""),
        (set k | k in fs.dirs && !Under(k, from) && !Under(k, to)) +
        (set k | k in fs.dirs && Under(k, from) :: Rebase(k, from, to)))
  }

  lemma RebaseOrigin(k: string, from: string, to: string)
    requires Under(k, from)
    ensures Origin(Rebase(k, from, to), from, to) == k
  {
    assert (to + k[|from|..])[|to|..] == k[|from|..];
    assert k == k[..|from|] + k[|from|..];
  }

  /** After a move every file below `from` is at its rebased path with the same contents, and `from` is gone. */
  lemma MoveRelocates(fs: FileSystem, from: string, to: string)
    requires Movable(fs, from, to)
    ensures forall k :: k in fs.files && Under(k, from) ==>
      Rebase(k, from, to) in Move(fs, from, to).files && Move(fs, from, to).files[Rebase(k, from, to)] == fs.files[k]
    ensures !Move(fs, from, to).Exists(from)
  {
    forall k | k in fs.files && Under(k, from)
      ensures Rebase(k, from, to) in Move(fs, from, to).files && Move(fs, from, to).files[Rebase(k, from, to)] == fs.files[k]
    {
      RebaseOrigin(k, from, to);
    }
  }
}
