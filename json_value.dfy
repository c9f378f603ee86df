/**
 * JSON values as Python's `json` module decodes them, and the few pieces of
 * Python's dict, `isinstance` and `str` behaviour the editor relies on.
 *
 * An object keeps its members as a sequence of (key, value) pairs, so the
 * insertion order a Python dict preserves is preserved here too.  Lookup
 * finds the first pair with a key and `Put` replaces that pair in place or
 * appends a new one, which is what `d[k] = v` does on a Python dict.
 */
module JsonValue {
  import opened Wrappers

  datatype Json =
    | JNull
    | JBool(b: bool)
    | JInt(i: int)
    | JFloat(f: real)
    | JStr(s: string)
    | JArr(items: seq<Json>)
    | JObj(fields: seq<(string, Json)>)

  /** The members of a JSON object, in key order. */
  type Fields = seq<(string, Json)>

  /** The keys of an object, in order (`list(d.keys())`). */
  function Keys(fs: Fields): (ks: seq<string>)
    ensures |ks| == |fs|
    ensures forall i {:trigger ks[i]} :: 0 <= i < |fs| ==> ks[i] == fs[i].0
  {
    if fs == [] then [] else [fs[0].0] + Keys(fs[1..])
  }

  /** No key occurs twice, as in every Python dict. */
  predicate UniqueKeys(fs: Fields) {
    forall i, j :: 0 <= i < j < |fs| ==> fs[i].0 != fs[j].0
  }

  /** Past the first member, the keys are still unique and no longer hold the first key. */
  lemma UniqueTail(fs: Fields)
    requires UniqueKeys(fs) && fs != []
    ensures UniqueKeys(fs[1..]) && fs[0].0 !in Keys(fs[1..])
  {
    forall a, b | 0 <= a < b < |fs| - 1 ensures fs[1..][a].0 != fs[1..][b].0 {
      assert fs[1..][a] == fs[a + 1] && fs[1..][b] == fs[b + 1];
    }
    forall a | 0 <= a < |fs| - 1 ensures Keys(fs[1..])[a] != fs[0].0 {
      assert fs[1..][a] == fs[a + 1];
    }
  }

  /** Short of the last member, the keys are still unique and no longer hold the last key. */
  lemma UniqueInit(fs: Fields)
    requires UniqueKeys(fs) && fs != []
    ensures UniqueKeys(fs[..|fs| - 1]) && fs[|fs| - 1].0 !in Keys(fs[..|fs| - 1])
  {
    var n := |fs| - 1;
    forall a, b | 0 <= a < b < n ensures fs[..n][a].0 != fs[..n][b].0 {
      assert fs[..n][a] == fs[a] && fs[..n][b] == fs[b];
    }
    forall a | 0 <= a < n ensures Keys(fs[..n])[a] != fs[n].0 {
      assert fs[..n][a] == fs[a];
    }
  }

  /** `ks.index(k)`: the first position holding `k`. */
  function IndexOf(ks: seq<string>, k: string): (i: nat)
    requires k in ks
    ensures i < |ks| && ks[i] == k
  {
    if ks[0] == k then 0 else 1 + IndexOf(ks[1..], k)
  }

  /** Putting a key in front shifts every other key's position by one. */
  lemma IndexOfCons(k: string, ks: seq<string>, k': string)
    requires k' in [k] + ks
    ensures IndexOf([k] + ks, k') == if k' == k then 0 else 1 + IndexOf(ks, k')
  {
    if k' != k {
      assert ([k] + ks)[1..] == ks;
    }
  }

  /** Appending a key leaves the position of every key already there unchanged. */
  lemma {:induction false} IndexOfSnoc(ks: seq<string>, x: string, k': string)
    requires k' in ks
    ensures IndexOf(ks + [x], k') == IndexOf(ks, k')
  {
    if ks[0] != k' {
      assert (ks + [x])[1..] == ks[1..] + [x];
      IndexOfSnoc(ks[1..], x, k');
    }
  }

  /** A key appended to keys that do not hold it sits at the end. */
  lemma {:induction false} IndexOfLast(ks: seq<string>, x: string)
    requires x !in ks
    ensures IndexOf(ks + [x], x) == |ks|
  {
    if ks != [] {
      assert (ks + [x])[1..] == ks[1..] + [x];
      IndexOfLast(ks[1..], x);
    }
  }

  /** `d.get(k)`: the value of the first member named `k`. */
  function Lookup(fs: Fields, k: string): (r: Option<Json>)
    ensures r.None? <==> k !in Keys(fs)
    ensures r.Some? ==> (k, r.value) in fs
  {
    if fs == [] then None
    else if fs[0].0 == k then Some(fs[0].1)
    else Lookup(fs[1..], k)
  }

  /** `d[k] = v`: replaces the member in place, or appends it when `k` is new. */
  function Put(fs: Fields, k: string, v: Json): (r: Fields)
    ensures k in Keys(fs) ==> Keys(r) == Keys(fs)
    ensures k !in Keys(fs) ==> Keys(r) == Keys(fs) + [k]
  {
    if fs == [] then [(k, v)]
    else if fs[0].0 == k then [(k, v)] + fs[1..]
    else
      var rest := Put(fs[1..], k, v);
      assert ([fs[0]] + rest)[1..] == rest;
      [fs[0]] + rest
  }

  /** After `d[k] = v`, `d[k]` is `v` and every other key reads as before. */
  lemma {:induction false} LookupPut(fs: Fields, k: string, v: Json, k': string)
    ensures Lookup(Put(fs, k, v), k') == if k' == k then Some(v) else Lookup(fs, k')
  {
    if fs != [] && fs[0].0 != k {
      LookupPut(fs[1..], k, v, k');
      assert ([fs[0]] + Put(fs[1..], k, v))[1..] == Put(fs[1..], k, v);
    }
  }

  /** `del d[k]`, or nothing when `k` is absent. */
  function Remove(fs: Fields, k: string): (r: Fields)
    requires UniqueKeys(fs)
    ensures UniqueKeys(r)
    ensures Lookup(r, k) == None
    ensures forall k' :: k' != k ==> Lookup(r, k') == Lookup(fs, k')
    ensures forall x :: x in r <==> x in fs && x.0 != k
  {
    if fs == [] then []
    else if fs[0].0 == k then
      assert forall x :: x in fs[1..] ==> x.0 != k by {
        forall x | x in fs[1..] ensures x.0 != k {
          var j :| 0 <= j < |fs[1..]| && fs[1..][j] == x;
          assert fs[j + 1] == x;
        }
      }
      fs[1..]
    else [fs[0]] + Remove(fs[1..], k)
  }

  /** Python's classes for the JSON kinds: `str`, `int`, `float`, `bool`, `list`, `dict`. */
  datatype PyType = PyStr | PyInt | PyFloat | PyBool | PyList | PyDict

  /** `isinstance(v, t)`; `bool` is a subclass of `int`, so a boolean is an `int`. */
  predicate IsInstance(v: Json, t: PyType) {
    match t
    case PyStr => v.JStr?
    case PyInt => v.JInt? || v.JBool?
    case PyFloat => v.JFloat?
    case PyBool => v.JBool?
    case PyList => v.JArr?
    case PyDict => v.JObj?
  }

  /** `type(v).__name__`. */
  function TypeName(v: Json): string {
    match v
    case JNull => "NoneType"
    case JBool(_) => "bool"
    case JInt(_) => "int"
    case JFloat(_) => "float"
    case JStr(_) => "str"
    case JArr(_) => "list"
    case JObj(_) => "dict"
  }

  /** Python truthiness (`bool(v)`). */
  predicate Truthy(v: Json) {
    match v
    case JNull => false
    case JBool(b) => b
    case JInt(i) => i != 0
    case JFloat(f) => f != 0.0
    case JStr(s) => s != ""
    case JArr(xs) => xs != []
    case JObj(fs) => fs != []
  }

  predicate StartsWith(s: string, prefix: string) {
    |prefix| <= |s| && s[..|prefix|] == prefix
  }

  predicate EndsWith(s: string, suffix: string) {
    |suffix| <= |s| && s[|s| - |suffix|..] == suffix
  }

  /** `s[a:b]` with Python's clamping of out-of-range bounds (both bounds non-negative here). */
  function Slice(s: string, a: nat, b: int): (r: string)
    ensures |r| <= |s|
  {
    var hi := if b < 0 then (if |s| + b < 0 then 0 else |s| + b) else if b > |s| then |s| else b;
    var lo := if a > |s| then |s| else a;
    if lo <= hi then s[lo..hi] else ""
  }

  /** The characters for which Python's `str.isspace()` holds; `strip` removes exactly these. */
  predicate IsSpace(c: char) {
    ('\U{9}' <= c <= '\U{D}') || ('\U{1C}' <= c <= ' ') || c == '\U{85}' || c == '\U{A0}'
    || c == '\U{1680}' || ('\U{2000}' <= c <= '\U{200A}') || c == '\U{2028}' || c == '\U{2029}'
    || c == '\U{202F}' || c == '\U{205F}' || c == '\U{3000}'
  }

  /** `s.lstrip()`: drops leading whitespace. */
  function LStrip(s: string): (r: string)
    ensures |r| <= |s| && r == s[|s| - |r|..]
    ensures r != [] ==> !IsSpace(r[0])
    ensures forall i :: 0 <= i < |s| - |r| ==> IsSpace(s[i])
  {
    if s != [] && IsSpace(s[0]) then LStrip(s[1..]) else s
  }

  /** `s.rstrip()`: drops trailing whitespace. */
  function RStrip(s: string): (r: string)
    ensures |r| <= |s| && r == s[..|r|]
    ensures r != [] ==> !IsSpace(r[|r| - 1])
    ensures forall i :: |r| <= i < |s| ==> IsSpace(s[i])
  {
    if s != [] && IsSpace(s[|s| - 1]) then RStrip(s[..|s| - 1]) else s
  }

  /** `s.strip()`. */
  function Strip(s: string): string {
    LStrip(RStrip(s))
  }

  /** `str(n)` for a natural number. */
  function NatToString(n: nat): (r: string)
    ensures r != []
  {
    var d := "0123456789"[n % 10];
    if n < 10 then [d] else NatToString(n / 10) + [d]
  }
}
