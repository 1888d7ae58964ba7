/**
 * PHP values as they flow through the modules: scalars, ordered arrays with
 * string keys (a list is keyed "0", "1", ...), and Drupal's template
 * `Attribute` object, which is built from an array.
 */
module Values {
  import opened Wrappers
  import opened Assoc

  datatype Value =
    | Null
    | Bool(b: bool)
    | Int(n: int)
    | Str(s: string)
    | Arr(entries: seq<(string, Value)>)
    | Attribute(attrs: seq<(string, Value)>)

  /** PHP's boolean conversion: `null`, `false`, `0`, `""`, `"0"` and `[]` are false; objects are true. */
  predicate Truthy(v: Value)
  {
    match v
    case Null => false
    case Bool(b) => b
    case Int(n) => n != 0
    case Str(s) => s != "" && s != "0"
    case Arr(e) => e != []
    case Attribute(_) => true
  }

  /** `$v[$k] ?? null`: a missing key, or a value that is not an array, reads as `null`. */
  function Lookup(v: Value, k: string): (r: Value)
    ensures !v.Arr? ==> r == Null
    ensures v.Arr? && k !in Keys(v.entries) ==> r == Null
    ensures v.Arr? && r != Null ==> (k, r) in v.entries
  {
    if v.Arr? then
      GetIn(v.entries, k);
      Get(v.entries, k).GetOr(Null)
    else Null
  }

  /** A list of values, keyed by position as PHP keys `[a, b, ...]`. */
  function ListOf(vs: seq<Value>): (r: seq<(string, Value)>)
    ensures |r| == |vs|
    ensures forall i :: 0 <= i < |vs| ==> r[i].1 == vs[i]
  {
    seq(|vs|, i requires 0 <= i < |vs| => (NatToString(i), vs[i]))
  }

  /** Decimal digits of a natural number, as PHP prints an integer key. */
  function NatToString(n: nat): (s: string)
    ensures s != []
    ensures forall i :: 0 <= i < |s| ==> '0' <= s[i] <= '9'
    decreases n
  {
    var d := [(('0' as int) + n % 10) as char];
    if n < 10 then d else NatToString(n / 10) + d
  }
}
