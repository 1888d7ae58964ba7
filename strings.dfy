/**
 * The PHP string functions the modules rely on, written out over `seq<char>`:
 * `empty()`, `ucfirst`, `rtrim` with a character list, `strpos`, `explode`,
 * `implode`, `trim`, `str_replace`, `dirname`, `basename` and
 * `pathinfo(PATHINFO_EXTENSION)`.
 */
module Strings {
  import opened Wrappers

  /** PHP's `empty()` on a string: both "" and "0" are empty. */
  predicate PhpEmpty(s: string)
  {
    s == "" || s == "0"
  }

  /** `empty()` on a nullable string. */
  predicate EmptyOrNull(s: Option<string>)
  {
    s.None? || PhpEmpty(s.value)
  }

  function UpperChar(c: char): char
  {
    if 'a' <= c <= 'z' then (c as int - 32) as char else c
  }

  /** `ucfirst`: only the first character changes, and only an ASCII lower-case letter. */
  function Ucfirst(s: string): (r: string)
    ensures |r| == |s|
    ensures |s| > 0 ==> r[0] == UpperChar(s[0]) && r[1..] == s[1..]
  {
    if s == [] then [] else [UpperChar(s[0])] + s[1..]
  }

  /** `rtrim($s, $c)` for a single character `c`. */
  function RtrimChar(s: string, c: char): (r: string)
    ensures r <= s
    ensures r == [] || r[|r| - 1] != c
    ensures forall i :: |r| <= i < |s| ==> s[i] == c
  {
    if s == [] then []
    else if s[|s| - 1] == c then RtrimChar(s[..|s| - 1], c)
    else s
  }

  /** Declarative substring relation. */
  predicate OccursAt(h: string, n: string, i: int)
  {
    0 <= i && i + |n| <= |h| && h[i..i + |n|] == n
  }

  /** `strpos($h, $n) !== FALSE` for a non-empty needle. */
  function Contains(h: string, n: string): (r: bool)
    ensures r <==> exists i :: OccursAt(h, n, i)
  {
    if n <= h then
      assert OccursAt(h, n, 0);
      true
    else if h == [] then
      false
    else
      var r := Contains(h[1..], n);
      if r then
        assert exists i :: OccursAt(h, n, i) by {
          var i :| OccursAt(h[1..], n, i);
          assert h[i + 1..i + 1 + |n|] == h[1..][i..i + |n|];
          assert OccursAt(h, n, i + 1);
        }
        true
      else
        assert forall i :: !OccursAt(h, n, i) by {
          forall i ensures !OccursAt(h, n, i) {
            if i > 0 && i + |n| <= |h| {
              assert h[1..][i - 1..i - 1 + |n|] == h[i..i + |n|];
              assert !OccursAt(h[1..], n, i - 1);
            }
          }
        }
        false
  }
  /** A one-character needle occurs exactly where that character does. */
  lemma ContainsChar(h: string, c: char)
    ensures Contains(h, [c]) <==> c in h
  {
    if c in h {
      var i :| 0 <= i < |h| && h[i] == c;
      assert OccursAt(h, [c], i);
    } else {
      forall i | 0 <= i && i + 1 <= |h| ensures !OccursAt(h, [c], i) {
        assert h[i..i + 1][0] == h[i];
      }
    }
  }


  /** Position of the last occurrence of `c` in `s`. */
  function LastIndexOf(s: string, c: char): (r: Option<nat>)
    ensures r.None? ==> c !in s
    ensures r.Some? ==> r.value < |s| && s[r.value] == c && c !in s[r.value + 1..]
  {
    if s == [] then None
    else if s[|s| - 1] == c then Some(|s| - 1)
    else
      var r := LastIndexOf(s[..|s| - 1], c);
      assert s == s[..|s| - 1] + [s[|s| - 1]];
      if r.Some? then
        assert s[r.value + 1..] == s[..|s| - 1][r.value + 1..] + [s[|s| - 1]];
        r
      else r
  }

  /** `explode($sep, $s)`: the pieces between non-overlapping occurrences of `sep`, scanning left to right. */
  function Explode(sep: string, s: string): (parts: seq<string>)
    requires sep != []
    ensures |parts| >= 1
    decreases |s|
  {
    if |s| < |sep| then [s]
    else if s[..|sep|] == sep then [""] + Explode(sep, s[|sep|..])
    else
      var rest := Explode(sep, s[1..]);
      [[s[0]] + rest[0]] + rest[1..]
  }

  /** `implode($sep, $parts)`. */
  function Implode(sep: string, parts: seq<string>): (s: string)
    requires |parts| >= 1
    ensures |s| >= |parts[0]| && s[..|parts[0]|] == parts[0]
  {
    if |parts| == 1 then parts[0] else parts[0] + sep + Implode(sep, parts[1..])
  }

  /** Gluing text onto the first piece glues it onto the joined text. */
  lemma ImplodeCons(sep: string, x: string, parts: seq<string>)
    requires |parts| >= 1
    ensures Implode(sep, [x + parts[0]] + parts[1..]) == x + Implode(sep, parts)
  {
    var q := [x + parts[0]] + parts[1..];
    if |parts| > 1 {
      assert q[1..] == parts[1..];
    }
  }

  /** Splitting and joining on the same separator gives the text back. */
  lemma {:induction false} ImplodeExplode(sep: string, s: string)
    requires sep != []
    ensures Implode(sep, Explode(sep, s)) == s
    decreases |s|
  {
    if |s| < |sep| {
    } else if s[..|sep|] == sep {
      var e := Explode(sep, s[|sep|..]);
      ImplodeExplode(sep, s[|sep|..]);
      assert ([""] + e)[1..] == e;
      assert Implode(sep, [""] + e) == "" + sep + Implode(sep, e);
      assert s == s[..|sep|] + s[|sep|..];
    } else {
      var rest := Explode(sep, s[1..]);
      ImplodeExplode(sep, s[1..]);
      ImplodeCons(sep, [s[0]], rest);
      assert s == [s[0]] + s[1..];
    }
  }

  /**
   * Joining pieces none of which contains the separator's first character and
   * splitting again gives the pieces back.
   */
  lemma {:induction false} ExplodeImplode(sep: string, parts: seq<string>)
    requires sep != [] && |parts| >= 1
    requires forall i :: 0 <= i < |parts| ==> sep[0] !in parts[i]
    ensures Explode(sep, Implode(sep, parts)) == parts
    decreases |parts|, |parts[0]|
  {
    var p := parts[0];
    if p == [] {
      if |parts| == 1 {
      } else {
        var s := Implode(sep, parts);
        assert s == sep + Implode(sep, parts[1..]);
        assert s[..|sep|] == sep;
        assert s[|sep|..] == Implode(sep, parts[1..]);
        ExplodeImplode(sep, parts[1..]);
        assert [""] + parts[1..] == parts;
      }
    } else {
      var s := Implode(sep, parts);
      var parts' := [p[1..]] + parts[1..];
      assert forall i :: 0 <= i < |parts'| ==> sep[0] !in parts'[i] by {
        forall i | 0 <= i < |parts'| ensures sep[0] !in parts'[i] {
          if i == 0 {
            assert forall c :: c in p[1..] ==> c in p;
          } else {
            assert parts'[i] == parts[i];
          }
        }
      }
      assert [[p[0]] + p[1..]] + parts'[1..] == parts by {
        assert [p[0]] + p[1..] == p;
        assert parts'[1..] == parts[1..];
      }
      ImplodeCons(sep, [p[0]], parts');
      assert s == [p[0]] + Implode(sep, parts');
      assert s[1..] == Implode(sep, parts');
      ExplodeImplode(sep, parts');
      if |s| >= |sep| {
        assert s[..|sep|][0] == p[0] != sep[0];
      }
    }
  }

  /** The characters PHP's `trim` removes by default. */
  predicate IsTrimmed(c: char)
  {
    c == ' ' || c == '\t' || c == '\n' || c == '\r' || c == '\0' || c == '\U{000B}'
  }

  function TrimLeft(s: string): (r: string)
    ensures |r| <= |s|
    ensures r == [] || !IsTrimmed(r[0])
  {
    if s != [] && IsTrimmed(s[0]) then TrimLeft(s[1..]) else s
  }

  /** `ltrim` removes a prefix made only of trimmable characters. */
  lemma {:induction false} TrimLeftSuffix(s: string)
    ensures var r := TrimLeft(s); r == s[|s| - |r|..]
    ensures forall i :: 0 <= i < |s| - |TrimLeft(s)| ==> IsTrimmed(s[i])
  {
    if s != [] && IsTrimmed(s[0]) {
      TrimLeftSuffix(s[1..]);
      forall i | 1 <= i < |s| - |TrimLeft(s)|
        ensures IsTrimmed(s[i])
      {
        assert s[i] == s[1..][i - 1];
      }
    }
  }

  function TrimRight(s: string): (r: string)
    ensures |r| <= |s|
    ensures r == [] || !IsTrimmed(r[|r| - 1])
  {
    if s != [] && IsTrimmed(s[|s| - 1]) then TrimRight(s[..|s| - 1]) else s
  }

  /** `rtrim` removes a suffix made only of trimmable characters. */
  lemma {:induction false} TrimRightPrefix(s: string)
    ensures TrimRight(s) <= s
    ensures forall i :: |TrimRight(s)| <= i < |s| ==> IsTrimmed(s[i])
  {
    if s != [] && IsTrimmed(s[|s| - 1]) {
      var p := s[..|s| - 1];
      TrimRightPrefix(p);
      forall i | |TrimRight(s)| <= i < |s| - 1
        ensures IsTrimmed(s[i])
      {
        assert s[i] == p[i];
      }
    }
  }

  /** `trim($s)`: the text without the removable characters at either end. */
  function Trim(s: string): (r: string)
    ensures |r| <= |s|
    ensures r == [] || (!IsTrimmed(r[0]) && !IsTrimmed(r[|r| - 1]))
  {
    var l := TrimLeft(s);
    var r := TrimRight(l);
    if r == [] then r
    else
      TrimRightPrefix(l);
      assert r[0] == l[0];
      r
  }

  /** `trim` keeps one contiguous slice of its input, starting where `ltrim` stops. */
  lemma TrimSlice(s: string)
    ensures var k := |s| - |TrimLeft(s)|; k + |Trim(s)| <= |s| && Trim(s) == s[k..k + |Trim(s)|]
  {
    var l := TrimLeft(s);
    var r := TrimRight(l);
    TrimLeftSuffix(s);
    TrimRightPrefix(l);
    assert r == l[..|r|];
  }

  /** Around that slice `trim` removes only trimmable characters. */
  lemma TrimRemovesOnlyTrimmed(s: string)
    ensures forall i :: 0 <= i < |s| - |TrimLeft(s)| ==> IsTrimmed(s[i])
    ensures forall i :: |s| - |TrimLeft(s)| + |Trim(s)| <= i < |s| ==> IsTrimmed(s[i])
  {
    var l := TrimLeft(s);
    var k := |s| - |l|;
    TrimLeftSuffix(s);
    TrimRightPrefix(l);
    forall i | k + |Trim(s)| <= i < |s|
      ensures IsTrimmed(s[i])
    {
      assert s[i] == l[i - k];
    }
  }

  /** `str_replace($from, $to, $s)` for a non-empty `from`: every non-overlapping occurrence, left to right. */
  function ReplaceAll(s: string, from: string, to: string): (r: string)
    requires from != []
    decreases |s|
  {
    if |s| < |from| then s
    else if s[..|from|] == from then to + ReplaceAll(s[|from|..], from, to)
    else [s[0]] + ReplaceAll(s[1..], from, to)
  }

  /** `str_replace($from, $to, $s)`; an empty search string leaves the subject alone. */
  function StrReplace(s: string, from: string, to: string): (r: string)
    ensures from == [] ==> r == s
  {
    if from == [] then s else ReplaceAll(s, from, to)
  }

  /** Text without `n` keeps lacking it once its first character is dropped. */
  lemma ContainsTail(s: string, n: string)
    requires s != [] && !Contains(s, n)
    ensures !Contains(s[1..], n)
  {
    forall i ensures !OccursAt(s[1..], n, i) {
      if 0 <= i && i + |n| <= |s| - 1 {
        assert s[1..][i..i + |n|] == s[i + 1..i + 1 + |n|];
        assert !OccursAt(s, n, i + 1);
      }
    }
  }

  /** Text in which `from` does not occur is left alone by `str_replace`. */
  lemma {:induction false} ReplaceAllAbsent(s: string, from: string, to: string)
    requires from != [] && !Contains(s, from)
    ensures ReplaceAll(s, from, to) == s
    decreases |s|
  {
    if |s| >= |from| {
      assert !OccursAt(s, from, 0);
      ContainsTail(s, from);
      ReplaceAllAbsent(s[1..], from, to);
    }
  }

  /** A path `from + rest` whose tail does not mention `from` again is re-rooted at `to`. */
  lemma ReplacePrefix(from: string, rest: string, to: string)
    requires from != [] && !Contains(rest, from)
    ensures ReplaceAll(from + rest, from, to) == to + rest
  {
    assert (from + rest)[..|from|] == from;
    assert (from + rest)[|from|..] == rest;
    ReplaceAllAbsent(rest, from, to);
  }

  /** PHP's `dirname` with one level: strip trailing slashes, then the last segment, then the slashes before it. */
  function Dirname(p: string): (r: string)
    ensures p != [] ==> r != []
  {
    if p == [] then []
    else
      var t := RtrimChar(p, '/');
      if t == [] then "/"
      else match LastIndexOf(t, '/')
        case None => "."
        case Some(i) =>
          var u := RtrimChar(t[..i], '/');
          if u == [] then "/" else u
  }

  /** PHP's `basename` without a suffix: the last segment after trailing slashes are stripped. */
  function Basename(p: string): (r: string)
    ensures '/' !in r
  {
    var t := RtrimChar(p, '/');
    match LastIndexOf(t, '/')
    case None => t
    case Some(i) => t[i + 1..]
  }

  /** `pathinfo($p, PATHINFO_EXTENSION)`: what follows the last dot of the basename, or "". */
  function PathExtension(p: string): (r: string)
    ensures '.' !in r && '/' !in r
  {
    var b := Basename(p);
    match LastIndexOf(b, '.')
    case None => ""
    case Some(i) =>
      assert forall c :: c in b[i + 1..] ==> c in b;
      b[i + 1..]
  }

  /** The last occurrence of `c` in `a + [c] + b` is the one after `a` when `b` has none. */
  lemma {:induction false} LastIndexOfJoin(a: string, c: char, b: string)
    requires c !in b
    ensures LastIndexOf(a + [c] + b, c) == Some(|a|)
    decreases |b|
  {
    var s := a + [c] + b;
    if b != [] {
      assert s[|s| - 1] == b[|b| - 1];
      assert s[..|s| - 1] == a + [c] + b[..|b| - 1];
      LastIndexOfJoin(a, c, b[..|b| - 1]);
    }
  }

  /**
   * Joining a directory and a segment is undone by `dirname` and `basename`,
   * for a directory that does not end in a slash and a segment without one.
   */
  lemma DirnameBasenameJoin(dir: string, name: string)
    requires dir != [] && dir[|dir| - 1] != '/'
    requires name != [] && '/' !in name
    ensures Dirname(dir + "/" + name) == dir
    ensures Basename(dir + "/" + name) == name
  {
    var p := dir + "/" + name;
    assert p[|p| - 1] == name[|name| - 1];
    assert RtrimChar(p, '/') == p;
    LastIndexOfJoin(dir, '/', name);
    assert p[..|dir|] == dir;
    assert p[|dir| + 1..] == name;
    assert RtrimChar(dir, '/') == dir;
  }

  /** `dirname` is a fixpoint at "." and "/", and otherwise never lengthens a path. */
  lemma DirnameShrinks(p: string)
    requires p != []
    ensures |Dirname(p)| <= |p|
    ensures |Dirname(p)| == |p| ==> Dirname(Dirname(p)) == Dirname(p)
  {
    var t := RtrimChar(p, '/');
    if t != [] {
      match LastIndexOf(t, '/')
      case None =>
      case Some(i) =>
        var u := RtrimChar(t[..i], '/');
        assert |u| <= i < |t| <= |p|;
    }
    assert RtrimChar(".", '/') == ".";
    assert LastIndexOf(".", '/') == None;
    assert RtrimChar("/", '/') == [] by {
      assert "/"[..0] == [];
    }
  }
}
