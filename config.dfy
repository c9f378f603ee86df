/**
 * The editor's settings store (config.py): a nested JSON object read and
 * written through dotted keys such as "ui.font_size", and a user file
 * merged over the defaults by a recursive dict update.
 */
module Config {
  import opened Wrappers
  import opened JsonValue

  // ---------------------------------------------------------------------
  // Dotted keys
  // ---------------------------------------------------------------------

  /** `key.split('.')`: the text between dots, at least one (possibly empty) segment. */
  function Split(key: string): (parts: seq<string>)
    ensures |parts| >= 1
    ensures forall j :: 0 <= j < |parts| ==> '.' !in parts[j]
  {
    if key == [] then [""]
    else
      var rest := Split(key[1..]);
      if key[0] == '.' then [""] + rest
      else [[key[0]] + rest[0]] + rest[1..]
  }

  /** `'.'.join(parts)`. */
  function Join(parts: seq<string>): string
    requires |parts| >= 1
  {
    if |parts| == 1 then parts[0] else parts[0] + "." + Join(parts[1..])
  }

  /** Splitting loses nothing: joining the segments gives the key back. */
  lemma {:induction false} JoinSplit(key: string)
    ensures Join(Split(key)) == key
  {
    if key != [] {
      JoinSplit(key[1..]);
      var rest := Split(key[1..]);
      if key[0] == '.' {
        assert key == "." + key[1..];
      } else if |rest| == 1 {
        assert key == [key[0]] + key[1..];
      } else {
        assert [[key[0]] + rest[0]] + rest[1..] == [[key[0]] + rest[0]] + rest[1..];
        assert Join(rest) == rest[0] + "." + Join(rest[1..]);
        assert key == [key[0]] + key[1..];
      }
    }
  }

  /** Segments without dots are exactly what splitting their join gives back. */
  lemma {:induction false} SplitJoin(parts: seq<string>)
    requires |parts| >= 1
    requires forall j :: 0 <= j < |parts| ==> '.' !in parts[j]
    ensures Split(Join(parts)) == parts
  {
    if |parts| == 1 {
      SplitNoDot(parts[0]);
    } else {
      SplitJoin(parts[1..]);
      SplitPrefix(parts[0], Join(parts[1..]));
      assert parts == [parts[0]] + parts[1..];
    }
  }

  /** A text without dots is one segment. */
  lemma {:induction false} SplitNoDot(p: string)
    requires '.' !in p
    ensures Split(p) == [p]
  {
    if p != [] {
      assert '.' !in p[1..] by {
        forall c | c in p[1..] ensures c != '.' {
          assert c in p;
        }
      }
      SplitNoDot(p[1..]);
      assert p == [p[0]] + p[1..];
    }
  }

  /** A dot-free segment in front of a dot is split off as the first segment. */
  lemma {:induction false} SplitPrefix(p: string, tail: string)
    requires '.' !in p
    ensures Split(p + "." + tail) == [p] + Split(tail)
  {
    if p == [] {
      assert p + "." + tail == "." + tail;
      assert ("." + tail)[1..] == tail;
    } else {
      assert '.' !in p[1..] by {
        forall c | c in p[1..] ensures c != '.' {
          assert c in p;
        }
      }
      SplitPrefix(p[1..], tail);
      var s := p + "." + tail;
      assert s[0] == p[0] && s[1..] == p[1..] + "." + tail;
      assert [p[0]] + p[1..] == p;
    }
  }

  // ---------------------------------------------------------------------
  // get
  // ---------------------------------------------------------------------

  /**
   * The walk of `get`: each segment indexes the value reached so far.  Only
   * a dict can be indexed by a string; a missing key (`KeyError`) or any
   * other value (`TypeError`) ends the walk with nothing found.
   */
  function GetPath(v: Json, parts: seq<string>): (r: Option<Json>)
    ensures parts == [] ==> r == Some(v)
    ensures parts != [] && !v.JObj? ==> r == None
  {
    if parts == [] then Some(v)
    else match v
      case JObj(fs) =>
        (match Lookup(fs, parts[0])
         case None => None
         case Some(x) => GetPath(x, parts[1..]))
      case _ => None
  }

  /** Walking `p + q` is walking `p`, then `q` from where `p` ended. */
  lemma {:induction false} GetPathAppend(v: Json, p: seq<string>, q: seq<string>)
    ensures GetPath(v, p).None? ==> GetPath(v, p + q).None?
    ensures GetPath(v, p).Some? ==> GetPath(v, p + q) == GetPath(GetPath(v, p).value, q)
  {
    if p != [] {
      assert (p + q)[0] == p[0] && (p + q)[1..] == p[1..] + q;
      if v.JObj? && Lookup(v.fields, p[0]).Some? {
        GetPathAppend(Lookup(v.fields, p[0]).value, p[1..], q);
      }
    } else {
      assert p + q == q;
    }
  }

  // ---------------------------------------------------------------------
  // set
  // ---------------------------------------------------------------------

  /** The `TypeError` `set` raises when a segment other than the last names a value that is not a dict. */
  datatype SetError = NotADict(segment: string)

  /**
   * The effect of `set`: walk the segments but the last, creating `{}` under
   * a missing segment, then assign the last one.  A segment whose value is
   * present but not a dict makes the walk fail before anything is written.
   */
  function SetPath(fs: Fields, parts: seq<string>, v: Json): (r: Result<Fields, SetError>)
    requires |parts| >= 1
    ensures r.Err? ==> exists j :: 0 <= j < |parts| - 1 && r.error == NotADict(parts[j])
    decreases |parts|
  {
    if |parts| == 1 then Ok(Put(fs, parts[0], v))
    else
      var sub := Lookup(fs, parts[0]);
      if sub.Some? && !sub.value.JObj? then Err(NotADict(parts[0]))
      else Nest(fs, parts[0], SetPath(Under(fs, parts[0]), parts[1..], v))
  }

  /** The dict `set` descends into under `part`: the one there, or a new `{}` when `part` is missing. */
  function Under(fs: Fields, part: string): Fields {
    match Lookup(fs, part)
    case Some(JObj(g)) => g
    case _ => []
  }

  /** Stores the updated dict under `part` of `fs`, or passes the failure on. */
  function Nest(fs: Fields, part: string, inner: Result<Fields, SetError>): (r: Result<Fields, SetError>)
    ensures r.Err? <==> inner.Err?
  {
    match inner
    case Err(e) => Err(e)
    case Ok(f) => Ok(Put(fs, part, JObj(f)))
  }

  /**
   * What a successful `set` leaves at the top level: the first segment holds
   * the value (or the updated dict below it) and every other key is untouched.
   */
  lemma SetPathTop(fs: Fields, parts: seq<string>, v: Json, key: string)
    requires |parts| >= 1 && SetPath(fs, parts, v).Ok?
    ensures key != parts[0] ==> Lookup(SetPath(fs, parts, v).value, key) == Lookup(fs, key)
    ensures |parts| == 1 ==> Lookup(SetPath(fs, parts, v).value, parts[0]) == Some(v)
    ensures |parts| > 1 ==> SetPath(Under(fs, parts[0]), parts[1..], v).Ok?
    ensures |parts| > 1 ==>
      Lookup(SetPath(fs, parts, v).value, parts[0]) == Some(JObj(SetPath(Under(fs, parts[0]), parts[1..], v).value))
  {
    if |parts| == 1 {
      LookupPut(fs, parts[0], v, key);
      LookupPut(fs, parts[0], v, parts[0]);
    } else {
      var x := JObj(SetPath(Under(fs, parts[0]), parts[1..], v).value);
      LookupPut(fs, parts[0], x, key);
      LookupPut(fs, parts[0], x, parts[0]);
    }
  }

  /** Walking a non-empty path: look the first segment up, then walk the rest from there. */
  lemma GetPathCons(fs: Fields, q: seq<string>)
    requires |q| >= 1
    ensures Lookup(fs, q[0]).None? ==> GetPath(JObj(fs), q) == None
    ensures Lookup(fs, q[0]).Some? ==> GetPath(JObj(fs), q) == GetPath(Lookup(fs, q[0]).value, q[1..])
  {
  }

  /** A value that is there but is not a dict, reached by a proper prefix of the path. */
  predicate Blocked(fs: Fields, parts: seq<string>) {
    exists k :: 1 <= k < |parts| && NotDictAt(fs, parts[..k])
  }

  predicate NotDictAt(fs: Fields, path: seq<string>) {
    GetPath(JObj(fs), path).Some? && !GetPath(JObj(fs), path).value.JObj?
  }

  /** `set` fails exactly when some proper prefix of the path reaches a value that is not a dict. */
  lemma {:induction false} SetPathFails(fs: Fields, parts: seq<string>, v: Json)
    requires |parts| >= 1
    ensures SetPath(fs, parts, v).Err? <==> Blocked(fs, parts)
    decreases |parts|
  {
    if |parts| > 1 {
      var sub := Lookup(fs, parts[0]);
      if sub.Some? && !sub.value.JObj? {
        BlockedHere(fs, parts);
      } else if sub.None? {
        SetPathFresh(parts[1..], v);
        BlockedMissing(fs, parts);
      } else {
        SetPathFails(sub.value.fields, parts[1..], v);
        BlockedBelow(fs, parts);
      }
    }
  }

  lemma BlockedHere(fs: Fields, parts: seq<string>)
    requires |parts| > 1 && Lookup(fs, parts[0]).Some? && !Lookup(fs, parts[0]).value.JObj?
    ensures Blocked(fs, parts)
  {
    GetPathCons(fs, parts[..1]);
    assert NotDictAt(fs, parts[..1]);
  }

  lemma BlockedMissing(fs: Fields, parts: seq<string>)
    requires |parts| > 1 && Lookup(fs, parts[0]).None?
    ensures !Blocked(fs, parts)
  {
    forall k | 1 <= k < |parts| ensures !NotDictAt(fs, parts[..k]) {
      GetPathCons(fs, parts[..k]);
    }
  }

  lemma BlockedBelow(fs: Fields, parts: seq<string>)
    requires |parts| > 1 && Lookup(fs, parts[0]).Some? && Lookup(fs, parts[0]).value.JObj?
    ensures Blocked(fs, parts) <==> Blocked(Lookup(fs, parts[0]).value.fields, parts[1..])
  {
    var g := Lookup(fs, parts[0]).value.fields;
    var rest := parts[1..];
    forall k | 1 <= k < |parts|
      ensures NotDictAt(fs, parts[..k]) <==> k > 1 && NotDictAt(g, rest[..k - 1])
    {
      GetPathCons(fs, parts[..k]);
      assert parts[..k][1..] == rest[..k - 1];
      if k > 1 {
        GetPathCons(g, rest[..k - 1]);
      }
    }
    if Blocked(g, rest) {
      var k :| 1 <= k < |rest| && NotDictAt(g, rest[..k]);
      assert NotDictAt(fs, parts[..k + 1]);
    }
  }

  /** Under a segment that was missing, the walk only meets fresh `{}` and cannot fail. */
  lemma {:induction false} SetPathFresh(parts: seq<string>, v: Json)
    requires |parts| >= 1
    ensures SetPath([], parts, v).Ok?
    decreases |parts|
  {
    if |parts| > 1 {
      SetPathFresh(parts[1..], v);
    }
  }

  /** After a successful `set(key, v)`, `get(key)` finds `v`. */
  lemma {:induction false} GetAfterSet(fs: Fields, parts: seq<string>, v: Json)
    requires |parts| >= 1 && SetPath(fs, parts, v).Ok?
    ensures GetPath(JObj(SetPath(fs, parts, v).value), parts) == Some(v)
    decreases |parts|
  {
    SetPathTop(fs, parts, v, parts[0]);
    GetPathCons(SetPath(fs, parts, v).value, parts);
    if |parts| > 1 {
      GetAfterSet(Under(fs, parts[0]), parts[1..], v);
    }
  }

  /**
   * `set` changes nothing off its path: a path that leaves the set path at
   * segment `k` reads the same before and after, the dicts `set` creates
   * holding nothing but the set path.
   */
  lemma {:induction false} SetPathElsewhere(fs: Fields, parts: seq<string>, v: Json, q: seq<string>, k: nat)
    requires |parts| >= 1 && SetPath(fs, parts, v).Ok?
    requires k < |parts| && k < |q| && q[..k] == parts[..k] && q[k] != parts[k]
    ensures GetPath(JObj(SetPath(fs, parts, v).value), q) == GetPath(JObj(fs), q)
    decreases |parts|
  {
    var r := SetPath(fs, parts, v).value;
    SetPathTop(fs, parts, v, q[0]);
    GetPathCons(r, q);
    GetPathCons(fs, q);
    if k > 0 {
      SamePrefixTail(q, parts, k);
      SetPathElsewhere(Under(fs, parts[0]), parts[1..], v, q[1..], k - 1);
      if Lookup(fs, parts[0]).None? {
        GetPathCons([], q[1..]);
      }
    }
  }

  /** Two paths that agree on their first `k` segments agree on the first, and their tails on `k - 1`. */
  lemma SamePrefixTail(q: seq<string>, parts: seq<string>, k: nat)
    requires 0 < k <= |q| && k <= |parts| && q[..k] == parts[..k]
    ensures q[0] == parts[0] && q[1..][..k - 1] == parts[1..][..k - 1]
  {
    assert q[..k][0] == parts[..k][0];
    var a := q[1..][..k - 1];
    var b := parts[1..][..k - 1];
    forall m | 0 <= m < |a| ensures a[m] == b[m] {
      assert q[..k][m + 1] == parts[..k][m + 1];
    }
  }

  // ---------------------------------------------------------------------
  // _update_nested_dict
  // ---------------------------------------------------------------------

  /**
   * `_update_nested_dict(d, u)`: each member of `u` in turn is merged into
   * `d` when both values are dicts, and overwrites or adds otherwise.
   */
  function Merge(d: Fields, u: Fields): Fields
    decreases JObj(u), 1
  {
    MergeFrom(d, u, 0)
  }

  /** The update loop from member `i` of `u` on. */
  function MergeFrom(d: Fields, u: Fields, i: nat): Fields
    requires i <= |u|
    decreases JObj(u), 0, |u| - i
  {
    if i == |u| then d
    else
      assert u[i] in u;
      MergeFrom(Put(d, u[i].0, MergedValue(Lookup(d, u[i].0), u[i].1)), u, i + 1)
  }

  /**
   * What the update leaves under a key of `u` whose new value is `v` and
   * whose value before was `prev`: the recursive merge when both are dicts,
   * `v` otherwise.
   */
  function MergedValue(prev: Option<Json>, v: Json): (r: Json)
    ensures !v.JObj? ==> r == v
    ensures r.JObj? <==> v.JObj?
    decreases v, 2
  {
    if v.JObj? && prev.Some? && prev.value.JObj? then
      assert JObj(v.fields) == v;
      JObj(Merge(prev.value.fields, v.fields))
    else v
  }

  /** The merged object holds exactly the keys of `d` and of `u`. */
  lemma {:induction false} MergeFromKeys(d: Fields, u: Fields, i: nat, key: string)
    requires i <= |u|
    ensures key in Keys(MergeFrom(d, u, i)) <==> key in Keys(d) || key in Keys(u[i..])
    decreases |u| - i
  {
    if i < |u| {
      var prev := Lookup(d, u[i].0);
      var d' := Put(d, u[i].0, MergedValue(prev, u[i].1));
      assert MergeFrom(d, u, i) == MergeFrom(d', u, i + 1);
      MergeFromKeys(d', u, i + 1, key);
      assert Keys(u[i..]) == [u[i].0] + Keys(u[i + 1..]) by {
        assert u[i..][1..] == u[i + 1..];
      }
    }
  }

  lemma MergeKeys(d: Fields, u: Fields, key: string)
    ensures key in Keys(Merge(d, u)) <==> key in Keys(d) || key in Keys(u)
  {
    MergeFromKeys(d, u, 0, key);
    assert u[0..] == u;
  }

  /** A key that the rest of `u` does not mention reads as it did before the update. */
  lemma {:induction false} MergeFromKeeps(d: Fields, u: Fields, i: nat, key: string)
    requires i <= |u| && key !in Keys(u[i..])
    ensures Lookup(MergeFrom(d, u, i), key) == Lookup(d, key)
    decreases |u| - i
  {
    if i < |u| {
      var prev := Lookup(d, u[i].0);
      var d' := Put(d, u[i].0, MergedValue(prev, u[i].1));
      assert MergeFrom(d, u, i) == MergeFrom(d', u, i + 1);
      assert u[i..][0] == u[i] && u[i..][1..] == u[i + 1..];
      assert Keys(u[i..]) == [u[i].0] + Keys(u[i + 1..]);
      LookupPut(d, u[i].0, MergedValue(prev, u[i].1), key);
      MergeFromKeeps(d', u, i + 1, key);
    }
  }

  /** Keys of `d` that `u` does not mention keep their values. */
  lemma MergeKeeps(d: Fields, u: Fields, key: string)
    requires key !in Keys(u)
    ensures Lookup(Merge(d, u), key) == Lookup(d, key)
  {
    assert u[0..] == u;
    MergeFromKeeps(d, u, 0, key);
  }

  /** What the loop leaves under `key` depends only on what `key` held before it. */
  lemma {:induction false} MergeFromAgree(d1: Fields, d2: Fields, u: Fields, i: nat, key: string)
    requires i <= |u| && Lookup(d1, key) == Lookup(d2, key)
    ensures Lookup(MergeFrom(d1, u, i), key) == Lookup(MergeFrom(d2, u, i), key)
    decreases |u| - i
  {
    if i < |u| {
      MergeFromStep(d1, u, i);
      MergeFromStep(d2, u, i);
      TurnAgree(d1, d2, u[i].0, u[i].1, key);
      MergeFromAgree(Turn(d1, u[i].0, u[i].1), Turn(d2, u[i].0, u[i].1), u, i + 1, key);
    }
  }

  /** One turn keeps two dicts that agree under `key` agreeing there. */
  lemma TurnAgree(d1: Fields, d2: Fields, k: string, v: Json, key: string)
    requires Lookup(d1, key) == Lookup(d2, key)
    ensures Lookup(Turn(d1, k, v), key) == Lookup(Turn(d2, k, v), key)
  {
    LookupPut(d1, k, MergedValue(Lookup(d1, k), v), key);
    LookupPut(d2, k, MergedValue(Lookup(d2, k), v), key);
  }

  /** Turns `i` up to `j` for other keys do not change what the loop leaves under `key`. */
  lemma {:induction false} MergeFromSkipTo(d: Fields, u: Fields, i: nat, j: nat, key: string)
    requires i <= j <= |u| && forall m :: i <= m < j ==> u[m].0 != key
    ensures Lookup(MergeFrom(d, u, i), key) == Lookup(MergeFrom(d, u, j), key)
    decreases j - i
  {
    if i < j {
      var t := Turn(d, u[i].0, u[i].1);
      MergeFromSkip(d, u, i, key);
      MergeFromSkipTo(t, u, i + 1, j, key);
      MergeFromAgree(t, d, u, j, key);
    }
  }

  /** One turn of the update loop, for the member `(k, v)`. */
  function Turn(d: Fields, k: string, v: Json): Fields {
    Put(d, k, MergedValue(Lookup(d, k), v))
  }

  /** A turn for another key leaves `key` as it was, and the rest of the loop follows it. */
  lemma MergeFromSkip(d: Fields, u: Fields, i: nat, key: string)
    requires i < |u| && u[i].0 != key
    ensures MergeFrom(d, u, i) == MergeFrom(Turn(d, u[i].0, u[i].1), u, i + 1)
    ensures Lookup(Turn(d, u[i].0, u[i].1), key) == Lookup(d, key)
  {
    LookupPut(d, u[i].0, MergedValue(Lookup(d, u[i].0), u[i].1), key);
  }

  /** The turn for member `j` writes its merged value, and no later turn touches that key. */
  lemma MergeFromAtHere(d: Fields, u: Fields, j: nat)
    requires j < |u| && u[j].0 !in Keys(u[j + 1..])
    ensures Lookup(MergeFrom(d, u, j), u[j].0) == Some(MergedValue(Lookup(d, u[j].0), u[j].1))
  {
    var key := u[j].0;
    var v := MergedValue(Lookup(d, key), u[j].1);
    MergeFromStep(d, u, j);
    LookupPut(d, key, v, key);
    MergeFromKeeps(Put(d, key, v), u, j + 1, key);
  }

  /** One turn of the update loop. */
  lemma MergeFromStep(d: Fields, u: Fields, i: nat)
    requires i < |u|
    ensures MergeFrom(d, u, i) == MergeFrom(Put(d, u[i].0, MergedValue(Lookup(d, u[i].0), u[i].1)), u, i + 1)
  {
  }

  /** In a dict, a key does not come back later. */
  lemma UniqueLater(u: Fields, j: nat)
    requires UniqueKeys(u) && j < |u|
    ensures u[j].0 !in Keys(u[j + 1..])
  {
    var later := u[j + 1..];
    forall m | 0 <= m < |later| ensures Keys(later)[m] != u[j].0 {
      assert later[m] == u[j + 1 + m];
    }
  }

  /**
   * A key of `u` ends up with the recursive merge when both its old and its
   * new value are dicts, and with its new value otherwise.
   */
  lemma MergeAt(d: Fields, u: Fields, j: nat)
    requires UniqueKeys(u) && j < |u|
    ensures Lookup(Merge(d, u), u[j].0) == Some(MergedValue(Lookup(d, u[j].0), u[j].1))
    ensures !u[j].1.JObj? ==> Lookup(Merge(d, u), u[j].0) == Some(u[j].1)
  {
    UniqueLater(u, j);
    MergeFromSkipTo(d, u, 0, j, u[j].0);
    MergeFromAtHere(d, u, j);
  }

  /** The update loop. */
  method UpdateNested(d: Fields, u: Fields) returns (r: Fields)
    ensures r == Merge(d, u)
    decreases JObj(u), 1
  {
    r := d;
    var i := 0;
    while i < |u|
      invariant 0 <= i <= |u|
      invariant MergeFrom(r, u, i) == Merge(d, u)
      decreases |u| - i
    {
      assert u[i] in u;
      ghost var before := r;
      r := MergeMember(r, u[i].0, u[i].1);
      MergeFromStep(before, u, i);
      i := i + 1;
    }
  }

  /** The loop body: merge into the dict already under `k` when both are dicts, else overwrite or add. */
  method MergeMember(d: Fields, k: string, v: Json) returns (r: Fields)
    ensures r == Put(d, k, MergedValue(Lookup(d, k), v))
    decreases v, 2
  {
    var prev := Lookup(d, k);
    if v.JObj? && prev.Some? && prev.value.JObj? {
      assert JObj(v.fields) == v;
      var merged := UpdateNested(prev.value.fields, v.fields);
      r := Put(d, k, JObj(merged));
    } else {
      r := Put(d, k, v);
    }
  }

  // ---------------------------------------------------------------------
  // The settings object
  // ---------------------------------------------------------------------

  /** Rebuilds the dicts walked by `set`, innermost first: `stack[j]` is the dict found under `parts[..j]`. */
  function Rebuild(stack: seq<Fields>, parts: seq<string>, innermost: Fields): Fields
    requires |stack| == |parts|
    decreases |stack|
  {
    if stack == [] then innermost
    else
      var n := |stack| - 1;
      Rebuild(stack[..n], parts[..n], Put(stack[n], parts[n], JObj(innermost)))
  }

  class Config {
    var root: Fields

    constructor (root: Fields)
      ensures this.root == root
    {
      this.root := root;
    }

    /** `get(key, default)`. */
    function Get(key: string, default: Json): (r: Json)
      reads this
      ensures GetPath(JObj(root), Split(key)).Some? ==> r == GetPath(JObj(root), Split(key)).value
      ensures GetPath(JObj(root), Split(key)).None? ==> r == default
    {
      match GetPath(JObj(root), Split(key))
      case Some(x) => x
      case None => default
    }

    /**
     * `set(key, value)`: the walk down the segments but the last, then the
     * assignment; a failed walk raises before anything is written.
     */
    method Set(key: string, value: Json) returns (r: Result<(), SetError>)
      modifies this
      ensures SetPath(old(root), Split(key), value).Ok? ==> r.Ok? && root == SetPath(old(root), Split(key), value).value
      ensures SetPath(old(root), Split(key), value).Err? ==> r == Err(SetPath(old(root), Split(key), value).error) && root == old(root)
      ensures r.Ok? ==> GetPath(JObj(root), Split(key)) == Some(value)
    {
      var parts := Split(key);
      var outcome := SetIn(root, parts, value);
      match outcome
      case Err(e) =>
        return Err(e);
      case Ok(updated) =>
        GetAfterSet(root, parts, value);
        root := updated;
        return Ok(());
    }
  }

  /**
   * The loop of `set` on a value: walk down the segments but the last,
   * remembering each dict passed, then store the value and put the dicts
   * back together from the innermost out.
   */
  method SetIn(fs: Fields, parts: seq<string>, value: Json) returns (r: Result<Fields, SetError>)
    requires |parts| >= 1
    ensures r == SetPath(fs, parts, value)
  {
    var n := |parts| - 1;
    var stack: seq<Fields> := [];
    var cur := fs;
    var i := 0;
    while i < n
      invariant 0 <= i <= n && |stack| == i
      invariant SetPath(fs, parts, value) == Lift(stack, parts[..i], SetPath(cur, parts[i..], value))
    {
      var part := parts[i];
      var sub := Lookup(cur, part);
      if sub.Some? && !sub.value.JObj? {
        WalkBlocked(stack, parts, i, cur, value);
        return Err(NotADict(part));
      }
      WalkAdvance(stack, parts, i, cur, value);
      stack := stack + [cur];
      cur := Under(cur, part);
      i := i + 1;
    }
    assert parts[n..] == [parts[n]];
    r := RebuildIn(stack, parts[..n], Put(cur, parts[n], value));
    return Ok(r.value);
  }

  /** One level of the walk of `set`, from the dict `cur` with the segments `ps` still to go. */
  lemma WalkStep(cur: Fields, ps: seq<string>, value: Json)
    requires |ps| > 1
    ensures Lookup(cur, ps[0]).Some? && !Lookup(cur, ps[0]).value.JObj? ==> SetPath(cur, ps, value) == Err(NotADict(ps[0]))
    ensures !(Lookup(cur, ps[0]).Some? && !Lookup(cur, ps[0]).value.JObj?) ==>
      SetPath(cur, ps, value) == Nest(cur, ps[0], SetPath(Under(cur, ps[0]), ps[1..], value))
  {
  }

  /** The walk stops at segment `i` when its value is there and is not a dict. */
  lemma WalkBlocked(stack: seq<Fields>, parts: seq<string>, i: nat, cur: Fields, value: Json)
    requires |stack| == i && i + 1 < |parts|
    requires Lookup(cur, parts[i]).Some? && !Lookup(cur, parts[i]).value.JObj?
    ensures Lift(stack, parts[..i], SetPath(cur, parts[i..], value)) == Err(NotADict(parts[i]))
  {
    WalkStep(cur, parts[i..], value);
  }

  /** The walk goes one level down from `cur`, into the dict under segment `i`. */
  lemma WalkAdvance(stack: seq<Fields>, parts: seq<string>, i: nat, cur: Fields, value: Json)
    requires |stack| == i && i + 1 < |parts|
    requires !(Lookup(cur, parts[i]).Some? && !Lookup(cur, parts[i]).value.JObj?)
    ensures Lift(stack + [cur], parts[..i + 1], SetPath(Under(cur, parts[i]), parts[i + 1..], value)) ==
      Lift(stack, parts[..i], SetPath(cur, parts[i..], value))
  {
    assert parts[i..][0] == parts[i] && parts[i..][1..] == parts[i + 1..];
    WalkStep(cur, parts[i..], value);
    assert parts[..i] + [parts[i]] == parts[..i + 1];
    LiftPush(stack, parts[..i], cur, parts[i], SetPath(Under(cur, parts[i]), parts[i + 1..], value));
  }

  /** Putting the walked dicts back together, innermost first. */
  method RebuildIn(stack: seq<Fields>, parts: seq<string>, innermost: Fields) returns (r: Result<Fields, SetError>)
    requires |stack| == |parts|
    ensures r == Lift(stack, parts, Ok(innermost))
  {
    var built := innermost;
    var j := |stack|;
    assert stack[..j] == stack && parts[..j] == parts;
    while j > 0
      invariant 0 <= j <= |stack|
      invariant Rebuild(stack[..j], parts[..j], built) == Rebuild(stack, parts, innermost)
    {
      assert stack[..j][..j - 1] == stack[..j - 1] && parts[..j][..j - 1] == parts[..j - 1];
      j := j - 1;
      built := Put(stack[j], parts[j], JObj(built));
    }
    assert stack[..0] == [] && parts[..0] == [];
    return Ok(built);
  }

  /** The outcome of `set` on the whole config, given the outcome at the dict reached after walking `parts` via `stack`. */
  function Lift(stack: seq<Fields>, parts: seq<string>, inner: Result<Fields, SetError>): Result<Fields, SetError>
    requires |stack| == |parts|
  {
    match inner
    case Err(e) => Err(e)
    case Ok(f) => Ok(Rebuild(stack, parts, f))
  }

  /** Descending one more level in the walk of `set`. */
  lemma LiftPush(stack: seq<Fields>, parts: seq<string>, cur: Fields, part: string, inner: Result<Fields, SetError>)
    requires |stack| == |parts|
    ensures Lift(stack + [cur], parts + [part], inner) == Lift(stack, parts, Nest(cur, part, inner))
  {
    if inner.Ok? {
      assert (stack + [cur])[..|stack|] == stack && (parts + [part])[..|parts|] == parts;
    }
  }

  /** `get_config(key, default)`: the same lookup on the one shared settings object. */
  function GetConfig(config: Config, key: string, default: Json): (r: Json)
    reads config
    ensures GetPath(JObj(config.root), Split(key)).Some? ==> r == GetPath(JObj(config.root), Split(key)).value
    ensures GetPath(JObj(config.root), Split(key)).None? ==> r == default
  {
    config.Get(key, default)
  }
}
