/**
 * The editor's list of entries (json_editor.py): which list `load_data_file`
 * takes out of a loaded document, and how `delete_selected` removes the
 * selected rows by index.
 */
module EditorData {
  import opened Wrappers
  import opened JsonValue

  /** A loaded document that is neither a list nor a dict: `.items()` raises and the data stay as they were. */
  datatype LoadError = NotAContainer

  // ---------------------------------------------------------------------
  // Which list a document holds
  // ---------------------------------------------------------------------

  /** The index of the first member whose value is a list, in key order. */
  function FirstList(fs: Fields): (r: Option<nat>)
    ensures r.Some? ==> r.value < |fs| && fs[r.value].1.JArr? && forall j :: 0 <= j < r.value ==> !fs[j].1.JArr?
    ensures r.None? ==> forall j :: 0 <= j < |fs| ==> !fs[j].1.JArr?
  {
    if fs == [] then None
    else if fs[0].1.JArr? then Some(0)
    else match FirstList(fs[1..])
      case None => None
      case Some(i) => Some(i + 1)
  }

  /**
   * The entries of a loaded document: a list is taken as it is; a dict
   * gives its first list-valued member, or else becomes the only entry.
   */
  function Collection(doc: Json): (r: Result<seq<Json>, LoadError>)
    ensures doc.JArr? ==> r == Ok(doc.items)
    ensures r.Err? <==> !doc.JArr? && !doc.JObj?
  {
    match doc
    case JArr(items) => Ok(items)
    case JObj(fs) =>
      (match FirstList(fs)
       case Some(i) => Ok(fs[i].1.items)
       case None => Ok([doc]))
    case _ => Err(NotAContainer)
  }

  /** A dict with a list-valued member gives the first such list. */
  lemma CollectionOfObject(doc: Json, i: nat)
    requires doc.JObj? && i < |doc.fields| && doc.fields[i].1.JArr?
    requires forall j :: 0 <= j < i ==> !doc.fields[j].1.JArr?
    ensures Collection(doc) == Ok(doc.fields[i].1.items)
  {
  }

  /** A dict with no list-valued member becomes a list holding just that dict. */
  lemma CollectionOfRecord(doc: Json)
    requires doc.JObj? && forall j :: 0 <= j < |doc.fields| ==> !doc.fields[j].1.JArr?
    ensures Collection(doc) == Ok([doc])
  {
  }

  // ---------------------------------------------------------------------
  // Deleting by index
  // ---------------------------------------------------------------------

  /** `del s[i]` when `0 <= i < len(s)`; any other index leaves `s` as it is. */
  function DeleteAt(s: seq<Json>, i: int): (r: seq<Json>)
    ensures 0 <= i < |s| ==> |r| == |s| - 1
    ensures !(0 <= i < |s|) ==> r == s
  {
    if 0 <= i < |s| then s[..i] + s[i + 1..] else s
  }

  /** The deletion loop: each index in turn, against the list as the earlier deletions left it. */
  function DeleteEach(s: seq<Json>, indices: seq<int>): (r: seq<Json>)
    ensures |s| - |indices| <= |r| <= |s|
  {
    if indices == [] then s else DeleteEach(DeleteAt(s, indices[0]), indices[1..])
  }

  /** The elements of `s` whose positions are not in `d`, in order. */
  function Kept(s: seq<Json>, d: set<int>): (r: seq<Json>)
    ensures |r| <= |s|
  {
    if s == [] then []
    else
      var n := |s| - 1;
      Kept(s[..n], d) + if n in d then [] else [s[n]]
  }

  predicate SortedDesc(s: seq<int>) {
    forall i, j :: 0 <= i < j < |s| ==> s[i] >= s[j]
  }

  /** `indices.sort(reverse=True)`: the same indices, largest first. */
  function SortDesc(xs: seq<int>): (r: seq<int>)
    ensures multiset(r) == multiset(xs)
    ensures SortedDesc(r)
  {
    if xs == [] then []
    else
      assert xs == [xs[0]] + xs[1..];
      Insert(xs[0], SortDesc(xs[1..]))
  }

  function Insert(x: int, s: seq<int>): (r: seq<int>)
    requires SortedDesc(s)
    ensures multiset(r) == multiset(s) + multiset{x}
    ensures SortedDesc(r)
    ensures |r| == |s| + 1 && (r[0] == x || (s != [] && r[0] == s[0]))
  {
    if s == [] || x >= s[0] then
      ConsSorted(x, s);
      [x] + s
    else
      assert s == [s[0]] + s[1..];
      var t := Insert(x, s[1..]);
      ConsSorted(s[0], t);
      [s[0]] + t
  }

  /** Putting a value at least the first in front keeps a list sorted. */
  lemma ConsSorted(y: int, t: seq<int>)
    requires SortedDesc(t) && (t == [] || y >= t[0])
    ensures SortedDesc([y] + t)
  {
    var r := [y] + t;
    forall i, j | 0 <= i < j < |r| ensures r[i] >= r[j] {
      if i == 0 {
        assert r[j] == t[j - 1];
      } else {
        assert r[i] == t[i - 1] && r[j] == t[j - 1];
      }
    }
  }

  /** No index occurs twice, as for the rows of one selection. */
  predicate Distinct(xs: seq<int>) {
    forall i, j :: 0 <= i < j < |xs| ==> xs[i] != xs[j]
  }

  lemma DistinctSorted(xs: seq<int>)
    requires Distinct(xs)
    ensures StrictlyDesc(SortDesc(xs))
  {
    var r := SortDesc(xs);
    forall i, j | 0 <= i < j < |r| ensures r[i] > r[j] {
      if r[i] == r[j] {
        TwoOccurrences(r, i, j);
        DistinctCount(xs, r[i]);
      }
    }
  }

  lemma TwoOccurrences(r: seq<int>, i: nat, j: nat)
    requires i < j < |r| && r[i] == r[j]
    ensures multiset(r)[r[i]] >= 2
  {
    assert r == r[..j] + r[j..];
    assert r[i] in r[..j];
    assert r[j..][0] == r[j];
    assert multiset(r) == multiset(r[..j]) + multiset(r[j..]);
  }

  lemma {:induction false} DistinctCount(xs: seq<int>, x: int)
    requires Distinct(xs)
    ensures multiset(xs)[x] <= 1
  {
    if xs != [] {
      assert xs == [xs[0]] + xs[1..];
      DistinctCount(xs[1..], x);
      if xs[0] == x {
        assert x !in xs[1..] by {
          forall k | 0 <= k < |xs[1..]| ensures xs[1..][k] != x {
            assert xs[1..][k] == xs[k + 1];
          }
        }
      }
    }
  }

  /** One turn of the deletion loop. */
  lemma DeleteEachTail(s: seq<Json>, indices: seq<int>, k: nat)
    requires k < |indices|
    ensures DeleteEach(s, indices[k..]) == DeleteEach(DeleteAt(s, indices[k]), indices[k + 1..])
  {
    assert indices[k..][0] == indices[k] && indices[k..][1..] == indices[k + 1..];
  }

  /** An index beyond the list, or below zero, removes nothing. */
  lemma {:induction false} KeptIgnores(s: seq<Json>, d: set<int>, i: int)
    requires !(0 <= i < |s|)
    ensures Kept(s, d + {i}) == Kept(s, d)
  {
    if s != [] {
      KeptIgnores(s[..|s| - 1], d, i);
    }
  }

  /** Deleting index `i` first, then only smaller ones, is keeping what is not selected. */
  lemma KeptDelete(s: seq<Json>, d: set<int>, i: int)
    requires 0 <= i < |s| && forall x :: x in d ==> x < i
    ensures Kept(DeleteAt(s, i), d) == Kept(s, d + {i})
  {
    assert s == s[..i + 1] + s[i + 1..];
    assert s[..i + 1] == s[..i] + [s[i]];
    KeptAppendFree(s[..i + 1], s[i + 1..], d + {i});
    KeptIgnores(s[..i], d, i);
    KeptAppendFree(s[..i], s[i + 1..], d);
  }

  /** A tail past every selected index is kept whole. */
  lemma {:induction false} KeptAppendFree(a: seq<Json>, b: seq<Json>, d: set<int>)
    requires forall x :: x in d ==> x < |a|
    ensures Kept(a + b, d) == Kept(a, d) + b
    decreases |b|
  {
    if b == [] {
      assert a + b == a;
    } else {
      var m := |b| - 1;
      KeptAppendFree(a, b[..m], d);
      assert (a + b)[..|a + b| - 1] == a + b[..m];
      assert b == b[..m] + [b[m]];
    }
  }

  /** Deleting strictly decreasing indices one by one keeps exactly the rows not selected. */
  lemma {:induction false} DeleteEachKept(s: seq<Json>, indices: seq<int>)
    requires StrictlyDesc(indices)
    ensures DeleteEach(s, indices) == Kept(s, set x | x in indices)
  {
    if indices == [] {
      KeptNone(s);
      assert (set x | x in indices) == {};
    } else {
      var i := indices[0];
      var d := set x | x in indices[1..];
      HeadAndRest(indices);
      DeleteEachKept(DeleteAt(s, i), indices[1..]);
      if 0 <= i < |s| {
        KeptDelete(s, d, i);
      } else {
        KeptIgnores(s, d, i);
      }
    }
  }

  predicate StrictlyDesc(xs: seq<int>) {
    forall i, j :: 0 <= i < j < |xs| ==> xs[i] > xs[j]
  }

  /** The first of strictly decreasing indices is above all the others, which still decrease strictly. */
  lemma HeadAndRest(indices: seq<int>)
    requires indices != [] && StrictlyDesc(indices)
    ensures StrictlyDesc(indices[1..])
    ensures forall x :: x in indices[1..] ==> x < indices[0]
    ensures (set x | x in indices) == (set x | x in indices[1..]) + {indices[0]}
  {
    var rest := indices[1..];
    forall x | x in rest ensures x < indices[0] {
      var k :| 0 <= k < |rest| && rest[k] == x;
      assert indices[k + 1] == x;
    }
    assert indices == [indices[0]] + rest;
  }

  lemma {:induction false} KeptNone(s: seq<Json>)
    ensures Kept(s, {}) == s
  {
    if s != [] {
      KeptNone(s[..|s| - 1]);
    }
  }

  /** A row survives the deletion exactly when its index was not selected, and the survivors keep their order. */
  lemma DeleteSelectedKeeps(s: seq<Json>, indices: seq<int>)
    requires Distinct(indices)
    ensures DeleteEach(s, SortDesc(indices)) == Kept(s, set x | x in indices)
  {
    DistinctSorted(indices);
    DeleteEachKept(s, SortDesc(indices));
    var r := SortDesc(indices);
    assert (set x | x in r) == (set x | x in indices) by {
      forall x ensures x in r <==> x in indices {
        assert x in r <==> x in multiset(r);
        assert x in indices <==> x in multiset(indices);
      }
    }
  }

  // ---------------------------------------------------------------------
  // The editor's entry list
  // ---------------------------------------------------------------------

  class Editor {
    var data: seq<Json>

    constructor ()
      ensures data == []
    {
      data := [];
    }

    /** The list-choosing part of `load_data_file`, given the document `json.load` returned. */
    method LoadData(doc: Json) returns (r: Result<(), LoadError>)
      modifies this
      ensures Collection(doc).Ok? ==> r.Ok? && data == Collection(doc).value
      ensures Collection(doc).Err? ==> r == Err(NotAContainer) && data == old(data)
    {
      if doc.JArr? {
        data := doc.items;
        return Ok(());
      }
      if !doc.JObj? {
        return Err(NotAContainer);
      }
      var fs := doc.fields;
      var i := 0;
      while i < |fs|
        invariant 0 <= i <= |fs|
        invariant forall j :: 0 <= j < i ==> !fs[j].1.JArr?
      {
        if fs[i].1.JArr? {
          CollectionOfObject(doc, i);
          data := fs[i].1.items;
          return Ok(());
        }
        i := i + 1;
      }
      CollectionOfRecord(doc);
      data := [doc];
      return Ok(());
    }

    /** The deletion part of `delete_selected`, given the indices of the selected rows. */
    method DeleteSelected(selection: seq<int>)
      modifies this
      ensures data == DeleteEach(old(data), SortDesc(selection))
    {
      var indices := SortDesc(selection);
      DeleteIndices(indices);
    }

    /** `for index in indices: if 0 <= index < len(self.data): del self.data[index]`. */
    method DeleteIndices(indices: seq<int>)
      modifies this
      ensures data == DeleteEach(old(data), indices)
    {
      var k := 0;
      assert indices[k..] == indices;
      while k < |indices|
        invariant 0 <= k <= |indices|
        invariant DeleteEach(old(data), indices) == DeleteEach(data, indices[k..])
      {
        ghost var before := data;
        var index := indices[k];
        if 0 <= index < |data| {
          data := data[..index] + data[index + 1..];
        }
        DeleteEachTail(before, indices, k);
        k := k + 1;
      }
      assert indices[k..] == [];
    }
  }
}
