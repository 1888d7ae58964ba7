/**
 * Flattening a provider's library definitions into the asset files they name,
 * bucketed by file extension: a key whose value is an empty array is a file,
 * a key whose value is a non-empty array is a group to descend into, and any
 * other value is skipped.
 */
module Libraries {
  import opened Wrappers
  import opened Strings
  import opened Assoc
  import opened Values

  /** Extension to the asset paths filed under it, in insertion order. */
  type Buckets = seq<(string, seq<string>)>

  /** The buckets every flattening starts from. */
  const InitialBuckets: Buckets := [("js", []), ("css", [])]

  /** `$buckets[$ext][] = $p`: a missing bucket is created at the end. */
  function AppendTo(b: Buckets, ext: string, p: string): (r: Buckets)
    ensures forall e :: Get(r, e) == if e == ext then Some(Get(b, e).GetOr([]) + [p]) else Get(b, e)
    ensures Keys(r) == if ext in Keys(b) then Keys(b) else Keys(b) + [ext]
  {
    Put(b, ext, Get(b, ext).GetOr([]) + [p])
  }

  /** The file keys of a library tree, depth first, in the order they are met. */
  function Leaves(lib: Value): seq<string>
  {
    if lib.Arr? then LeavesFrom(lib, 0) else []
  }

  function LeavesFrom(lib: Value, i: nat): seq<string>
    requires lib.Arr? && i <= |lib.entries|
    decreases lib, |lib.entries| - i
  {
    if i == |lib.entries| then []
    else
      var val := lib.entries[i].1;
      var here :=
        if !val.Arr? then []
        else if |val.entries| > 0 then LeavesFrom(val, 0)
        else [lib.entries[i].0];
      here + LeavesFrom(lib, i + 1)
  }

  /** The paths of the keys among `ks` whose extension is `ext`, each under `base`. */
  function Filed(base: string, ks: seq<string>, ext: string): seq<string>
  {
    if ks == [] then [] else FiledOne(base, ks[0], ext) + Filed(base, ks[1..], ext)
  }

  function FiledOne(base: string, k: string, ext: string): seq<string>
  {
    if PathExtension(k) == ext then [base + "/" + k] else []
  }

  lemma AppendAssoc(a: seq<string>, b: seq<string>, c: seq<string>)
    ensures a + (b + c) == (a + b) + c
  {
  }

  lemma {:induction false} FiledConcat(base: string, a: seq<string>, b: seq<string>, ext: string)
    ensures Filed(base, a + b, ext) == Filed(base, a, ext) + Filed(base, b, ext)
  {
    if a == [] {
      assert a + b == b;
    } else {
      var k, rest := a[0], a[1..];
      assert a + b == [k] + (rest + b);
      FiledCons(base, k, rest + b, ext);
      FiledCons(base, k, rest, ext);
      FiledConcat(base, rest, b, ext);
      AppendAssoc(FiledOne(base, k, ext), Filed(base, rest, ext), Filed(base, b, ext));
    }
  }

  lemma FiledCons(base: string, k: string, rest: seq<string>, ext: string)
    ensures Filed(base, [k] + rest, ext) == FiledOne(base, k, ext) + Filed(base, rest, ext)
  {
    assert ([k] + rest)[1..] == rest;
  }

  /** Only keys with that extension are filed. */
  lemma {:induction false} FiledOnly(base: string, ks: seq<string>, ext: string, p: string)
    requires p in Filed(base, ks, ext)
    ensures exists k :: k in ks && PathExtension(k) == ext && p == base + "/" + k
  {
    if PathExtension(ks[0]) == ext && p == base + "/" + ks[0] {
      assert ks[0] in ks;
    } else {
      FiledOnly(base, ks[1..], ext, p);
      var k :| k in ks[1..] && PathExtension(k) == ext && p == base + "/" + k;
      assert k in ks;
    }
  }

  /** A key is filed under its own extension. */
  lemma {:induction false} FiledHas(base: string, ks: seq<string>, k: string)
    requires k in ks
    ensures base + "/" + k in Filed(base, ks, PathExtension(k))
  {
    if ks[0] != k {
      FiledHas(base, ks[1..], k);
    }
  }

  /** The walk of the recursive closure: the entries of `lib` from position `i` on. */
  function FlattenFrom(acc: Buckets, lib: Value, i: nat, base: string): Buckets
    requires lib.Arr? && i <= |lib.entries|
    decreases lib, |lib.entries| - i
  {
    if i == |lib.entries| then acc
    else
      var key := lib.entries[i].0;
      var val := lib.entries[i].1;
      var next :=
        if !val.Arr? then acc
        else if |val.entries| > 0 then FlattenFrom(acc, val, 0, base)
        else AppendTo(acc, PathExtension(key), base + "/" + key);
      FlattenFrom(next, lib, i + 1, base)
  }

  /** Flattening a decoded library file; anything but an array holds no files. */
  function Flatten(acc: Buckets, lib: Value, base: string): Buckets
  {
    if lib.Arr? then FlattenFrom(acc, lib, 0, base) else acc
  }

  /** What one entry contributes: the files below it, or itself when it is an empty array. */
  function EntryLeaves(val: Value, key: string): seq<string>
    decreases val, if val.Arr? then |val.entries| + 1 else 0
  {
    if !val.Arr? then []
    else if |val.entries| > 0 then LeavesFrom(val, 0)
    else [key]
  }

  lemma ExtendsNothing(acc: Buckets, ext: string)
    ensures Extends(acc, acc, ext, [])
  {
    if ext in Keys(acc) {
      assert Get(acc, ext).value + [] == Get(acc, ext).value;
    }
  }

  /** The buckets holding `files` after `acc`: the shape the flattening lemmas state. */
  predicate Extends(r: Buckets, acc: Buckets, ext: string, files: seq<string>)
  {
    Get(r, ext) == if ext in Keys(acc) || files != [] then Some(Get(acc, ext).GetOr([]) + files) else None
  }

  lemma ExtendsTrans(r: Buckets, mid: Buckets, acc: Buckets, ext: string, a: seq<string>, b: seq<string>)
    requires Extends(mid, acc, ext, a) && Extends(r, mid, ext, b)
    ensures Extends(r, acc, ext, a + b)
  {
    if ext in Keys(acc) || a != [] {
      assert Get(acc, ext).GetOr([]) + a + b == Get(acc, ext).GetOr([]) + (a + b);
    } else {
      assert a + b == b;
    }
  }

  /**
   * Each bucket ends up holding what it held, followed by the path of every file of the
   * tree with that extension, in order; a bucket exists afterwards exactly when it did
   * before or some file has its extension.
   */
  lemma {:induction false} FlattenFromFiles(acc: Buckets, lib: Value, i: nat, base: string, ext: string)
    requires lib.Arr? && i <= |lib.entries|
    ensures Extends(FlattenFrom(acc, lib, i, base), acc, ext, Filed(base, LeavesFrom(lib, i), ext))
    decreases lib, |lib.entries| - i
  {
    if i < |lib.entries| {
      var key := lib.entries[i].0;
      var val := lib.entries[i].1;
      var next :=
        if !val.Arr? then acc
        else if |val.entries| > 0 then FlattenFrom(acc, val, 0, base)
        else AppendTo(acc, PathExtension(key), base + "/" + key);
      assert LeavesFrom(lib, i) == EntryLeaves(val, key) + LeavesFrom(lib, i + 1);
      assert FlattenFrom(acc, lib, i, base) == FlattenFrom(next, lib, i + 1, base);
      EntryFiles(acc, val, key, base, ext);
      FlattenFromFiles(next, lib, i + 1, base, ext);
      FiledConcat(base, EntryLeaves(val, key), LeavesFrom(lib, i + 1), ext);
      ExtendsTrans(FlattenFrom(next, lib, i + 1, base), next, acc, ext,
        Filed(base, EntryLeaves(val, key), ext), Filed(base, LeavesFrom(lib, i + 1), ext));
    } else {
      assert Filed(base, [], ext) == [];
      ExtendsNothing(acc, ext);
    }
  }

  lemma {:induction false} EntryFiles(acc: Buckets, val: Value, key: string, base: string, ext: string)
    ensures var next :=
        if !val.Arr? then acc
        else if |val.entries| > 0 then FlattenFrom(acc, val, 0, base)
        else AppendTo(acc, PathExtension(key), base + "/" + key);
      Extends(next, acc, ext, Filed(base, EntryLeaves(val, key), ext))
    decreases val, if val.Arr? then |val.entries| + 1 else 0
  {
    if val.Arr? && |val.entries| > 0 {
      FlattenFromFiles(acc, val, 0, base, ext);
    } else if val.Arr? {
      assert EntryLeaves(val, key) == [key];
      assert Filed(base, [key], ext) == FiledOne(base, key, ext) by {
        assert [key][1..] == [];
        assert FiledOne(base, key, ext) + [] == FiledOne(base, key, ext);
      }
      AppendFiles(acc, key, base, ext);
    } else {
      assert Filed(base, [], ext) == [];
      ExtendsNothing(acc, ext);
    }
  }

  /** Filing one file extends its own bucket by its path and no other. */
  lemma AppendFiles(acc: Buckets, key: string, base: string, ext: string)
    ensures Extends(AppendTo(acc, PathExtension(key), base + "/" + key), acc, ext, FiledOne(base, key, ext))
  {
    if PathExtension(key) != ext {
      ExtendsNothing(acc, ext);
    }
  }

  /** The buckets already there stay first, in their order: "js" and "css" lead. */
  lemma {:induction false} FlattenFromKeepsKeys(acc: Buckets, lib: Value, i: nat, base: string)
    requires lib.Arr? && i <= |lib.entries|
    ensures var r := FlattenFrom(acc, lib, i, base);
      |Keys(acc)| <= |Keys(r)| && Keys(r)[..|Keys(acc)|] == Keys(acc)
    decreases lib, |lib.entries| - i
  {
    if i < |lib.entries| {
      var key := lib.entries[i].0;
      var val := lib.entries[i].1;
      var next :=
        if !val.Arr? then acc
        else if |val.entries| > 0 then FlattenFrom(acc, val, 0, base)
        else AppendTo(acc, PathExtension(key), base + "/" + key);
      if val.Arr? && |val.entries| > 0 {
        FlattenFromKeepsKeys(acc, val, 0, base);
      }
      FlattenFromKeepsKeys(next, lib, i + 1, base);
      assert FlattenFrom(acc, lib, i, base) == FlattenFrom(next, lib, i + 1, base);
      PrefixTrans(Keys(acc), Keys(next), Keys(FlattenFrom(next, lib, i + 1, base)));
    }
  }

  lemma PrefixTrans(a: seq<string>, b: seq<string>, c: seq<string>)
    requires |a| <= |b| <= |c| && b[..|a|] == a && c[..|b|] == b
    ensures c[..|a|] == a
  {
    assert c[..|a|] == c[..|b|][..|a|];
  }

  /** Every file of the library ends up in the bucket of its extension. */
  lemma FlattenFindsEveryFile(lib: Value, base: string, k: string)
    requires k in Leaves(lib)
    ensures var r := Flatten(InitialBuckets, lib, base);
      Get(r, PathExtension(k)).Some? && base + "/" + k in Get(r, PathExtension(k)).value
  {
    FlattenFromFiles(InitialBuckets, lib, 0, base, PathExtension(k));
    FiledHas(base, LeavesFrom(lib, 0), k);
  }

  /** Only files of the library are filed, each under its extension. */
  lemma FlattenFilesOnlyLeaves(lib: Value, base: string, ext: string, p: string)
    requires var r := Flatten(InitialBuckets, lib, base); Get(r, ext).Some? && p in Get(r, ext).value
    ensures exists k :: k in Leaves(lib) && PathExtension(k) == ext && p == base + "/" + k
  {
    if lib.Arr? {
      FlattenFromFiles(InitialBuckets, lib, 0, base, ext);
      assert Get(InitialBuckets, ext).GetOr([]) == [];
      FiledOnly(base, LeavesFrom(lib, 0), ext, p);
    }
  }

  /**
   * The recursive closure: a loop over the entries that descends into each non-empty
   * array and files each empty one.
   */
  method FlattenLibraryFiles(acc: Buckets, lib: Value, base: string) returns (out: Buckets)
    ensures out == Flatten(acc, lib, base)
    decreases lib
  {
    out := acc;
    if !lib.Arr? {
      return;
    }
    var i := 0;
    while i < |lib.entries|
      invariant 0 <= i <= |lib.entries|
      invariant FlattenFrom(out, lib, i, base) == FlattenFrom(acc, lib, 0, base)
      decreases |lib.entries| - i
    {
      var key := lib.entries[i].0;
      var val := lib.entries[i].1;
      ghost var before := out;
      if val.Arr? {
        if |val.entries| > 0 {
          out := FlattenLibraryFiles(out, val, base);
        } else {
          out := AppendTo(out, PathExtension(key), base + "/" + key);
        }
      }
      assert FlattenFrom(before, lib, i, base) == FlattenFrom(out, lib, i + 1, base);
      i := i + 1;
    }
  }
}
