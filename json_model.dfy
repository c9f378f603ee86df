/**
 * The schema model and entry validator of `JsonModel` (json_model.py).
 *
 * A schema is the `__meta__` table of a model document: an ordered table
 * from field name to a field specification with a `"type"` string and an
 * optional boolean `"required"`.  Once loaded it is never changed, so it is
 * a value here: the field specifications in table order.
 */
module JsonModel {
  import opened Wrappers
  import opened JsonValue

  /** `SUPPORTED_TYPES`: the plain type names and the Python class each is checked against. */
  const SupportedTypes: map<string, PyType> :=
    map["str" := PyStr, "int" := PyInt, "float" := PyFloat, "bool" := PyBool,
        "list" := PyList, "dict" := PyDict, "object" := PyDict]

  /** One row of a loaded `__meta__` table; `required` is `False` when the key was absent. */
  datatype FieldSpec = FieldSpec(name: string, typeName: string, required: bool)

  type Schema = seq<FieldSpec>

  /** `get_field_names`: the declared field names, in table order. */
  function FieldNames(s: Schema): (ns: seq<string>)
    ensures |ns| == |s|
    ensures forall i {:trigger ns[i]} :: 0 <= i < |s| ==> ns[i] == s[i].name
  {
    if s == [] then [] else [s[0].name] + FieldNames(s[1..])
  }

  predicate UniqueNames(s: Schema) {
    forall i, j :: 0 <= i < j < |s| ==> s[i].name != s[j].name
  }

  // ---------------------------------------------------------------------
  // Loading (load_model_from_dict and _validate_meta)
  // ---------------------------------------------------------------------

  /** Why a model cannot be loaded. All but `TypeNotText` are `JsonModelError`s. */
  datatype ModelError =
    | MetaMissing                       // the document has no "__meta__"
    | MetaInvalid                       // meta is empty or not a dict
    | SpecNotObject(field: string)      // a field specification is not a dict
    | TypeMissing(field: string)        // a field specification has no "type"
    | TypeNotText(field: string)        // "type" is not a string: Python's own TypeError or AttributeError
    | UnsupportedType(field: string, typeName: string)
    | RequiredNotBool(field: string)

  /** The base type of a type string: the text before its first `[`. */
  function BaseType(t: string): (b: string)
    ensures StartsWith(t, b) && '[' !in b
    ensures |b| < |t| ==> t[|b|] == '['
  {
    if t == [] || t[0] == '[' then [] else [t[0]] + BaseType(t[1..])
  }

  /** The checks `_validate_meta` makes on one field specification, in its order. */
  function CheckSpec(name: string, spec: Json): (r: Result<FieldSpec, ModelError>)
    ensures r.Ok? ==> r.value.name == name
    ensures r.Err? ==> !r.error.MetaMissing? && !r.error.MetaInvalid? && r.error.field == name
    ensures !spec.JObj? ==> r == Err(SpecNotObject(name))
  {
    if !spec.JObj? then Err(SpecNotObject(name))
    else match Lookup(spec.fields, "type")
      case None => Err(TypeMissing(name))
      case Some(t) =>
        if !t.JStr? then Err(TypeNotText(name))
        else if BaseType(t.s) !in SupportedTypes then Err(UnsupportedType(name, t.s))
        else match Lookup(spec.fields, "required")
          case None => Ok(FieldSpec(name, t.s, false))
          case Some(q) => if q.JBool? then Ok(FieldSpec(name, t.s, q.b)) else Err(RequiredNotBool(name))
  }

  /** A field specification that loading accepts, stated without the order of the checks. */
  predicate WellFormedSpec(spec: Json) {
    && spec.JObj?
    && Lookup(spec.fields, "type").Some? && Lookup(spec.fields, "type").value.JStr?
    && BaseType(Lookup(spec.fields, "type").value.s) in SupportedTypes
    && (Lookup(spec.fields, "required").None? || Lookup(spec.fields, "required").value.JBool?)
  }

  lemma CheckSpecAccepts(name: string, spec: Json)
    ensures CheckSpec(name, spec).Ok? <==> WellFormedSpec(spec)
    ensures CheckSpec(name, spec).Ok? ==>
      && Lookup(spec.fields, "type") == Some(JStr(CheckSpec(name, spec).value.typeName))
      && CheckSpec(name, spec).value.required == (Lookup(spec.fields, "required") == Some(JBool(true)))
  {

  }

  /** Which error a malformed dict specification raises, following the order of the checks. */
  lemma CheckSpecRejects(name: string, spec: Json)
    requires spec.JObj?
    ensures Lookup(spec.fields, "type").None? ==> CheckSpec(name, spec) == Err(TypeMissing(name))
    ensures CheckSpec(name, spec) == Err(TypeNotText(name)) <==>
      Lookup(spec.fields, "type").Some? && !Lookup(spec.fields, "type").value.JStr?
    ensures (CheckSpec(name, spec).Err? && CheckSpec(name, spec).error.UnsupportedType?) <==>
      && Lookup(spec.fields, "type").Some? && Lookup(spec.fields, "type").value.JStr?
      && BaseType(Lookup(spec.fields, "type").value.s) !in SupportedTypes
    ensures CheckSpec(name, spec).Err? && CheckSpec(name, spec).error.UnsupportedType? ==>
      CheckSpec(name, spec).error == UnsupportedType(name, Lookup(spec.fields, "type").value.s)
    ensures CheckSpec(name, spec) == Err(RequiredNotBool(name)) <==>
      && Lookup(spec.fields, "type").Some? && Lookup(spec.fields, "type").value.JStr?
      && BaseType(Lookup(spec.fields, "type").value.s) in SupportedTypes
      && Lookup(spec.fields, "required").Some? && !Lookup(spec.fields, "required").value.JBool?
  {
  }

  /** The loop of `_validate_meta` over the table: the first bad field raises. */
  function CheckFields(fs: Fields): (r: Result<Schema, ModelError>)
    ensures r.Ok? <==> forall i :: 0 <= i < |fs| ==> CheckSpec(fs[i].0, fs[i].1).Ok?
    ensures r.Ok? ==> (|r.value| == |fs| &&
      forall i :: 0 <= i < |fs| ==> r.value[i] == CheckSpec(fs[i].0, fs[i].1).value)
  {
    if fs == [] then Ok([])
    else match CheckSpec(fs[0].0, fs[0].1)
      case Err(e) => Err(e)
      case Ok(f) =>
        match CheckFields(fs[1..])
        case Err(e) => Err(e)
        case Ok(rest) => Ok([f] + rest)
  }

  /** The index of the first field whose specification is rejected, or `|fs|` when there is none. */
  function FirstBad(fs: Fields): (k: nat)
    ensures k <= |fs|
    ensures forall j :: 0 <= j < k ==> CheckSpec(fs[j].0, fs[j].1).Ok?
    ensures k < |fs| ==> CheckSpec(fs[k].0, fs[k].1).Err?
  {
    if fs == [] || CheckSpec(fs[0].0, fs[0].1).Err? then 0
    else
      var k := FirstBad(fs[1..]);
      assert forall j :: 1 <= j < k + 1 ==> fs[j] == fs[1..][j - 1];
      k + 1
  }

  /** A failed table reports the error of its first bad field. */
  lemma {:induction false} CheckFieldsFirstError(fs: Fields)
    requires CheckFields(fs).Err?
    ensures FirstBad(fs) < |fs|
    ensures CheckSpec(fs[FirstBad(fs)].0, fs[FirstBad(fs)].1) == Err(CheckFields(fs).error)
  {
    if CheckSpec(fs[0].0, fs[0].1).Ok? {
      CheckFieldsFirstError(fs[1..]);
    }
  }

  /** `_validate_meta`: a non-empty dict whose every specification is well formed. */
  function ValidateMeta(meta: Json): (r: Result<Schema, ModelError>)
    ensures (!meta.JObj? || meta.fields == []) ==> r == Err(MetaInvalid)
    ensures r.Ok? <==> (meta.JObj? && meta.fields != [] &&
      forall i :: 0 <= i < |meta.fields| ==> WellFormedSpec(meta.fields[i].1))
    ensures r.Ok? ==> FieldNames(r.value) == Keys(meta.fields)
  {
    if !meta.JObj? || meta.fields == [] then Err(MetaInvalid)
    else
      var r := CheckFields(meta.fields);
      forall i | 0 <= i < |meta.fields|
        ensures CheckSpec(meta.fields[i].0, meta.fields[i].1).Ok? <==> WellFormedSpec(meta.fields[i].1)
      {
        CheckSpecAccepts(meta.fields[i].0, meta.fields[i].1);
      }
      r
  }

  /** What `_validate_meta` accepts: a non-empty dict whose every specification is well formed. */
  predicate Loadable(meta: Json) {
    meta.JObj? && meta.fields != [] && forall i :: 0 <= i < |meta.fields| ==> WellFormedSpec(meta.fields[i].1)
  }

  /** `load_model_from_dict`: the document must hold `"__meta__"`, which must pass `_validate_meta`. */
  function LoadModelFromDict(doc: Fields): (r: Result<Schema, ModelError>)
    ensures "__meta__" !in Keys(doc) ==> r == Err(MetaMissing)
    ensures Lookup(doc, "__meta__").Some? ==> r == ValidateMeta(Lookup(doc, "__meta__").value)
    ensures r.Ok? <==> ("__meta__" in Keys(doc) && Loadable(Lookup(doc, "__meta__").value))
    ensures r.Ok? ==> FieldNames(r.value) == Keys(Lookup(doc, "__meta__").value.fields)
  {
    match Lookup(doc, "__meta__")
    case None => Err(MetaMissing)
    case Some(meta) => ValidateMeta(meta)
  }

  /** A loaded schema declares each field once when its `__meta__` table has unique keys, as a dict has. */
  lemma LoadedNamesUnique(doc: Fields, meta: Json)
    requires Lookup(doc, "__meta__") == Some(meta) && meta.JObj? && UniqueKeys(meta.fields)
    requires LoadModelFromDict(doc).Ok?
    ensures UniqueNames(LoadModelFromDict(doc).value)
    ensures FieldNames(LoadModelFromDict(doc).value) == Keys(meta.fields)
  {
    var s := LoadModelFromDict(doc).value;
    assert FieldNames(s) == Keys(meta.fields);
    forall i, j | 0 <= i < j < |s| ensures s[i].name != s[j].name {
      assert FieldNames(s)[i] == meta.fields[i].0 && FieldNames(s)[j] == meta.fields[j].0;
    }
  }

  // ---------------------------------------------------------------------
  // Violations (validate_entry)
  // ---------------------------------------------------------------------

  /** One finding of `validate_entry`; `Message` gives the text the editor shows. */
  datatype Violation =
    | Missing(field: string)
    | WrongType(field: string, expected: string, got: string)
    | NotAList(field: string)
    | BadItem(index: nat, field: string, expected: string, got: string)
    | Undefined(field: string)

  function Quote(f: string): string {
    "'" + f + "'"
  }

  function Message(v: Violation): string {
    match v
    case Missing(f) => "Campo obrigatório " + Quote(f) + " está ausente"
    case WrongType(f, t, got) => "Campo " + Quote(f) + (" deve ser do tipo " + t + ", recebido " + got)
    case NotAList(f) => "Campo " + Quote(f) + " deve ser uma lista"
    case BadItem(i, f, t, got) =>
      ("Item " + NatToString(i) + " em ") + Quote(f) + (" deve ser do tipo " + t + ", recebido " + got)
    case Undefined(f) => "Campo " + Quote(f) + " não está definido no modelo"
  }

  predicate ContainsAt(s: string, part: string, i: int) {
    0 <= i <= |s| - |part| && s[i..i + |part|] == part
  }

  ghost predicate Contains(s: string, part: string) {
    exists i :: ContainsAt(s, part, i)
  }

  lemma ContainsMiddle(a: string, q: string, b: string)
    ensures Contains(a + q + b, q)
  {
    assert ContainsAt(a + q + b, q, |a|);
  }

  /** Every message names its field between single quotes, as the editor's tests look for. */
  lemma MessageQuotesField(v: Violation)
    ensures Contains(Message(v), Quote(v.field))
  {
    match v
    case Missing(f) => ContainsMiddle("Campo obrigatório ", Quote(f), " está ausente");
    case WrongType(f, t, got) => ContainsMiddle("Campo ", Quote(f), " deve ser do tipo " + t + ", recebido " + got);
    case NotAList(f) => ContainsMiddle("Campo ", Quote(f), " deve ser uma lista");
    case BadItem(i, f, t, got) =>
      ContainsMiddle("Item " + NatToString(i) + " em ", Quote(f), " deve ser do tipo " + t + ", recebido " + got);
    case Undefined(f) => ContainsMiddle("Campo ", Quote(f), " não está definido no modelo");
  }

  /** The item type of a `list[T]` type string, `field_type[5:-1]`. */
  function ListInner(t: string): (inner: string)
    requires StartsWith(t, "list[") && EndsWith(t, "]")
    ensures t == "list[" + inner + "]"
  {
    assert t[..5] == "list[" && t[|t| - 1..] == "]";
    assert t[4] == '[' && t[|t| - 1] == ']';
    t[5..|t| - 1]
  }

  /** `Item i em ...` violations for the items of a `list[T]` value, in list order. */
  function ItemErrors(field: string, inner: string, k: PyType, items: seq<Json>): (r: seq<Violation>)
    ensures forall j :: 0 <= j < |r| ==>
      r[j].BadItem? && r[j].field == field && r[j].expected == inner && r[j].index < |items| &&
      r[j].got == TypeName(items[r[j].index])
  {
    if items == [] then []
    else
      var n := |items| - 1;
      assert forall i :: 0 <= i < n ==> items[..n][i] == items[i];
      ItemErrors(field, inner, k, items[..n]) +
        if IsInstance(items[n], k) then [] else [BadItem(n, field, inner, TypeName(items[n]))]
  }

  /** Each item violation is for an item that is not an instance of the item type, in increasing index order. */
  lemma {:induction false} ItemErrorsSound(field: string, inner: string, k: PyType, items: seq<Json>)
    ensures forall j :: 0 <= j < |ItemErrors(field, inner, k, items)| ==>
      !IsInstance(items[ItemErrors(field, inner, k, items)[j].index], k)
    ensures forall j1, j2 :: 0 <= j1 < j2 < |ItemErrors(field, inner, k, items)| ==>
      ItemErrors(field, inner, k, items)[j1].index < ItemErrors(field, inner, k, items)[j2].index
  {
    if items != [] {
      var n := |items| - 1;
      ItemErrorsSound(field, inner, k, items[..n]);
      assert forall i :: 0 <= i < n ==> items[..n][i] == items[i];
    }
  }

  /** Every item that is not an instance of the item type has a violation carrying its index. */
  lemma {:induction false} ItemErrorsComplete(field: string, inner: string, k: PyType, items: seq<Json>, i: nat)
    requires i < |items| && !IsInstance(items[i], k)
    ensures exists j :: 0 <= j < |ItemErrors(field, inner, k, items)| && ItemErrors(field, inner, k, items)[j].index == i
  {
    var n := |items| - 1;
    var before := ItemErrors(field, inner, k, items[..n]);
    var r := ItemErrors(field, inner, k, items);
    assert r[..|before|] == before;
    if i < n {
      assert items[..n][i] == items[i];
      ItemErrorsComplete(field, inner, k, items[..n], i);
      var j :| 0 <= j < |before| && before[j].index == i;
      assert r[j] == before[j];
    } else {
      assert r[|before|].index == i;
    }
  }

  /** The type check of one present, non-null value against a type string. */
  function ValueErrors(name: string, t: string, v: Json): (r: seq<Violation>)
    ensures forall j :: 0 <= j < |r| ==> r[j].field == name && !r[j].Missing? && !r[j].Undefined?
  {
    if t in SupportedTypes then
      if IsInstance(v, SupportedTypes[t]) then [] else [WrongType(name, t, TypeName(v))]
    else if StartsWith(t, "list[") && EndsWith(t, "]") then
      if !v.JArr? then [NotAList(name)]
      else if ListInner(t) in SupportedTypes then
        ItemErrors(name, ListInner(t), SupportedTypes[ListInner(t)], v.items)
      else []
    else []
  }

  /** The first pass of `validate_entry` for one declared field. */
  function FieldErrors(f: FieldSpec, entry: Fields): (r: seq<Violation>)
    ensures forall j :: 0 <= j < |r| ==> r[j].field == f.name && !r[j].Undefined?
  {
    var val := Lookup(entry, f.name);
    if f.required && (val.None? || val.value.JNull?) then [Missing(f.name)]
    else if val.Some? && !val.value.JNull? then ValueErrors(f.name, f.typeName, val.value)
    else []
  }

  /** The first pass over all declared fields, in schema order. */
  function DeclaredErrors(s: Schema, entry: Fields): (r: seq<Violation>)
    ensures forall j :: 0 <= j < |r| ==> !r[j].Undefined? && r[j].field in FieldNames(s)
  {
    if s == [] then []
    else
      var first := FieldErrors(s[0], entry);
      var rest := DeclaredErrors(s[1..], entry);
      assert FieldNames(s) == [s[0].name] + FieldNames(s[1..]);
      first + rest
  }

  /** The second pass: one `Undefined` per key of the entry the schema does not declare, in key order. */
  function ExtraErrors(s: Schema, entry: Fields): (r: seq<Violation>)
    ensures forall j :: 0 <= j < |r| ==> r[j].Undefined? && r[j].field !in FieldNames(s)
  {
    if entry == [] then []
    else
      var k := entry[0].0;
      (if k in FieldNames(s) then [] else [Undefined(k)]) + ExtraErrors(s, entry[1..])
  }

  /**
   * `validate_entry`: every declared-field violation, in schema order,
   * followed by every undeclared key, in the entry's key order.
   */
  function ValidateEntry(s: Schema, entry: Fields): (r: seq<Violation>)
    ensures forall j :: 0 <= j < |r| ==> (r[j].Undefined? <==> r[j].field !in FieldNames(s))
  {
    DeclaredErrors(s, entry) + ExtraErrors(s, entry)
  }

  /**
   * The violations of a declared field come first, in schema order; the
   * violations for undeclared keys of the entry follow them all.
   */
  lemma ViolationsOrdered(s: Schema, entry: Fields)
    ensures var r := ValidateEntry(s, entry);
      && (forall j :: 0 <= j < |r| && !r[j].Undefined? ==> r[j].field in FieldNames(s))
      && (forall j :: 0 <= j < |r| && r[j].Undefined? ==> r[j].field in Keys(entry) && r[j].field !in FieldNames(s))
      && (forall j1, j2 :: 0 <= j1 < j2 < |r| && r[j1].Undefined? ==> r[j2].Undefined?)
  {
    ExtraErrorsKeys(s, entry);
  }

  /**
   * Each key of the entry that the schema does not declare is reported, and
   * no other key is; it is reported once per occurrence, so once in a dict.
   */
  lemma {:induction false} ExtraErrorsReports(s: Schema, entry: Fields, k: string)
    ensures Undefined(k) in ExtraErrors(s, entry) <==> k in Keys(entry) && k !in FieldNames(s)
    ensures multiset(ExtraErrors(s, entry))[Undefined(k)] == if k in FieldNames(s) then 0 else multiset(Keys(entry))[k]
  {
    if entry != [] {
      var first: seq<Violation> := if entry[0].0 in FieldNames(s) then [] else [Undefined(entry[0].0)];
      assert ExtraErrors(s, entry) == first + ExtraErrors(s, entry[1..]);
      assert Keys(entry) == [entry[0].0] + Keys(entry[1..]);
      ExtraErrorsReports(s, entry[1..], k);
    }
  }

  /** The second pass names only keys of the entry. */
  lemma ExtraErrorsKeys(s: Schema, entry: Fields)
    ensures forall j :: 0 <= j < |ExtraErrors(s, entry)| ==> ExtraErrors(s, entry)[j].field in Keys(entry)
  {
    var x := ExtraErrors(s, entry);
    forall j | 0 <= j < |x| ensures x[j].field in Keys(entry) {
      assert x[j] == Undefined(x[j].field) && x[j] in x;
      ExtraErrorsReports(s, entry, x[j].field);
    }
  }

  /** The violations name keys of `ks`, each one further on in `ks` than the one before. */
  predicate InKeyOrder(r: seq<Violation>, ks: seq<string>) {
    forall j1, j2 :: 0 <= j1 < j2 < |r| ==>
      && r[j1].field in ks && r[j2].field in ks
      && IndexOf(ks, r[j1].field) < IndexOf(ks, r[j2].field)
  }

  lemma ShiftedKeys(k: string, r: seq<Violation>, ks: seq<string>)
    requires forall j :: 0 <= j < |r| ==> r[j].field in ks && r[j].field != k
    ensures forall j :: 0 <= j < |r| ==> IndexOf([k] + ks, r[j].field) == 1 + IndexOf(ks, r[j].field)
  {
    forall j | 0 <= j < |r| ensures IndexOf([k] + ks, r[j].field) == 1 + IndexOf(ks, r[j].field) {
      IndexOfCons(k, ks, r[j].field);
    }
  }

  /** Key order survives putting in front of the keys one that no violation names. */
  lemma InKeyOrderSkip(k: string, r: seq<Violation>, ks: seq<string>)
    requires InKeyOrder(r, ks)
    requires forall j :: 0 <= j < |r| ==> r[j].field in ks && r[j].field != k
    ensures InKeyOrder(r, [k] + ks)
  {
    ShiftedKeys(k, r, ks);
  }

  /** Key order survives putting a key in front of the keys and a violation naming it in front of the violations. */
  lemma InKeyOrderPrepend(v: Violation, r: seq<Violation>, ks: seq<string>)
    requires InKeyOrder(r, ks)
    requires forall j :: 0 <= j < |r| ==> r[j].field in ks && r[j].field != v.field
    ensures InKeyOrder([v] + r, [v.field] + ks)
  {
    ShiftedKeys(v.field, r, ks);
    IndexOfCons(v.field, ks, v.field);
    var all := [v] + r;
    forall j1, j2 | 0 <= j1 < j2 < |all|
      ensures all[j1].field in [v.field] + ks && all[j2].field in [v.field] + ks
      ensures IndexOf([v.field] + ks, all[j1].field) < IndexOf([v.field] + ks, all[j2].field)
    {
      assert all[j2] == r[j2 - 1];
      if j1 > 0 {
        assert all[j1] == r[j1 - 1];
      }
    }
  }

  /** With each key once, the undeclared keys are reported in the entry's key order. */
  lemma {:induction false} ExtraErrorsInKeyOrder(s: Schema, entry: Fields)
    requires UniqueKeys(entry)
    ensures InKeyOrder(ExtraErrors(s, entry), Keys(entry))
  {
    if entry != [] {
      var k := entry[0].0;
      var rest := entry[1..];
      var first: seq<Violation> := if k in FieldNames(s) then [] else [Undefined(k)];
      var r := ExtraErrors(s, rest);
      assert ExtraErrors(s, entry) == first + r;
      UniqueTail(entry);
      ExtraErrorsInKeyOrder(s, rest);
      ExtraErrorsKeys(s, rest);
      assert Keys(entry) == [k] + Keys(rest);
      if k in FieldNames(s) {
        InKeyOrderSkip(k, r, Keys(rest));
      } else {
        InKeyOrderPrepend(Undefined(k), r, Keys(rest));
      }
    }
  }

  // ---------------------------------------------------------------------
  // What the validator reports about one declared field
  // ---------------------------------------------------------------------

  /** The violations that name `name`, in order. */
  function About(vs: seq<Violation>, name: string): (r: seq<Violation>)
    ensures forall j :: 0 <= j < |r| ==> r[j].field == name
  {
    if vs == [] then [] else (if vs[0].field == name then [vs[0]] else []) + About(vs[1..], name)
  }

  /** `About` keeps exactly the violations that name `name`. */
  lemma {:induction false} AboutMembers(vs: seq<Violation>, name: string, v: Violation)
    ensures v in About(vs, name) <==> v in vs && v.field == name
  {
    if vs != [] {
      var h := if vs[0].field == name then [vs[0]] else [];
      assert About(vs, name) == h + About(vs[1..], name);
      assert vs == [vs[0]] + vs[1..];
      AboutMembers(vs[1..], name, v);
    }
  }

  lemma {:induction false} AboutAppend(a: seq<Violation>, b: seq<Violation>, name: string)
    ensures About(a + b, name) == About(a, name) + About(b, name)
  {
    if a == [] {
      assert a + b == b;
    } else {
      AboutAppend(a[1..], b, name);
      AboutAppendStep(a, b, name);
    }
  }

  /** One step of `AboutAppend`: from the rest of `a` to all of it. */
  lemma AboutAppendStep(a: seq<Violation>, b: seq<Violation>, name: string)
    requires a != []
    requires About(a[1..] + b, name) == About(a[1..], name) + About(b, name)
    ensures About(a + b, name) == About(a, name) + About(b, name)
  {
    var h: seq<Violation> := if a[0].field == name then [a[0]] else [];
    var x, y := About(a[1..], name), About(b, name);
    calc {
      About(a + b, name);
    == { HeadAppend(a, b); AboutCons(a[0], a[1..] + b, name); }
      h + (x + y);
    == { assert h + (x + y) == (h + x) + y; }
      (h + x) + y;
    == { assert About(a, name) == h + x; }
      About(a, name) + y;
    }
  }

  lemma HeadAppend<T>(a: seq<T>, b: seq<T>)
    requires a != []
    ensures a + b == [a[0]] + (a[1..] + b)
  {
    assert (a + b)[1..] == a[1..] + b;
  }

  /** `About` of a list led by `x`: `x` if it names `name`, then the rest. */
  lemma AboutCons(x: Violation, rest: seq<Violation>, name: string)
    ensures About([x] + rest, name) == (if x.field == name then [x] else []) + About(rest, name)
  {
    assert ([x] + rest)[1..] == rest;
  }

  lemma {:induction false} AboutAll(vs: seq<Violation>, name: string)
    requires forall j :: 0 <= j < |vs| ==> vs[j].field == name
    ensures About(vs, name) == vs
  {
    if vs != [] {
      AboutAll(vs[1..], name);
    }
  }

  lemma AboutNone(vs: seq<Violation>, name: string)
    requires forall j :: 0 <= j < |vs| ==> vs[j].field != name
    ensures About(vs, name) == []
  {
  }

  lemma {:induction false} DeclaredIsolated(s: Schema, entry: Fields, i: nat)
    requires UniqueNames(s) && i < |s|
    ensures About(DeclaredErrors(s, entry), s[i].name) == FieldErrors(s[i], entry)
  {
    if i == 0 {
      DeclaredIsolatedFirst(s, entry);
    } else {
      DeclaredSkipFirst(s, entry, s[i].name);
      assert s[1..][i - 1] == s[i];
      TailUnique(s);
      DeclaredIsolated(s[1..], entry, i - 1);
    }
  }

  /** The first field's violations say nothing about another name. */
  lemma DeclaredSkipFirst(s: Schema, entry: Fields, n: string)
    requires s != [] && s[0].name != n
    ensures About(DeclaredErrors(s, entry), n) == About(DeclaredErrors(s[1..], entry), n)
  {
    var first := FieldErrors(s[0], entry);
    var rest := DeclaredErrors(s[1..], entry);
    assert DeclaredErrors(s, entry) == first + rest;
    AboutAppend(first, rest, n);
    AboutNone(first, n);
  }

  lemma TailUnique(s: Schema)
    requires UniqueNames(s) && s != []
    ensures UniqueNames(s[1..])
  {
    forall a, b | 0 <= a < b < |s| - 1 ensures s[1..][a].name != s[1..][b].name {
      assert s[1..][a] == s[a + 1] && s[1..][b] == s[b + 1];
    }
  }

  lemma DeclaredIsolatedFirst(s: Schema, entry: Fields)
    requires UniqueNames(s) && s != []
    ensures About(DeclaredErrors(s, entry), s[0].name) == FieldErrors(s[0], entry)
  {
    var n := s[0].name;
    var first := FieldErrors(s[0], entry);
    var rest := DeclaredErrors(s[1..], entry);
    AboutAppend(first, rest, n);
    AboutAll(first, n);
    forall j | 0 <= j < |rest| ensures rest[j].field != n {
      var m :| 0 <= m < |s[1..]| && FieldNames(s[1..])[m] == rest[j].field;
      assert s[m + 1].name == rest[j].field;
    }
    AboutNone(rest, n);
  }

  /**
   * With each field declared once, the violations naming a declared field
   * are exactly that field's first-pass violations: no other field, and no
   * undeclared key, adds to them.
   */
  lemma FieldErrorsIsolated(s: Schema, entry: Fields, i: nat)
    requires UniqueNames(s) && i < |s|
    ensures About(ValidateEntry(s, entry), s[i].name) == FieldErrors(s[i], entry)
  {
    var n := s[i].name;
    DeclaredIsolated(s, entry, i);
    AboutAppend(DeclaredErrors(s, entry), ExtraErrors(s, entry), n);
    assert FieldNames(s)[i] == n;
    AboutNone(ExtraErrors(s, entry), n);
  }

  /** A required field that is absent or `None` gets exactly one violation, the missing one, and no type check. */
  lemma MissingRequiredReported(s: Schema, entry: Fields, i: nat)
    requires UniqueNames(s) && i < |s| && s[i].required
    requires Lookup(entry, s[i].name).None? || Lookup(entry, s[i].name) == Some(JNull)
    ensures About(ValidateEntry(s, entry), s[i].name) == [Missing(s[i].name)]
  {
    FieldErrorsIsolated(s, entry, i);
  }

  /**
   * A present, non-null value of a field whose type is a plain supported name
   * gets one type violation exactly when it is not an instance of that name's
   * class (so `int` accepts booleans, `float` rejects integers, `dict` and
   * `object` accept any object).
   */
  lemma PlainTypeChecked(s: Schema, entry: Fields, i: nat, v: Json)
    requires UniqueNames(s) && i < |s| && s[i].typeName in SupportedTypes
    requires Lookup(entry, s[i].name) == Some(v) && v != JNull
    ensures About(ValidateEntry(s, entry), s[i].name) ==
      if IsInstance(v, SupportedTypes[s[i].typeName]) then []
      else [WrongType(s[i].name, s[i].typeName, TypeName(v))]
  {
    FieldErrorsIsolated(s, entry, i);
  }

  /**
   * A present, non-null value of a `list[T]` field: a non-list gets one
   * "must be a list" violation; a list gets the item violations for `T`, or
   * none when `T` is not a supported name.
   */
  lemma TypedListChecked(s: Schema, entry: Fields, i: nat, v: Json)
    requires UniqueNames(s) && i < |s|
    requires StartsWith(s[i].typeName, "list[") && EndsWith(s[i].typeName, "]")
    requires Lookup(entry, s[i].name) == Some(v) && v != JNull
    ensures var t := ListInner(s[i].typeName);
      About(ValidateEntry(s, entry), s[i].name) ==
        if !v.JArr? then [NotAList(s[i].name)]
        else if t in SupportedTypes then ItemErrors(s[i].name, t, SupportedTypes[t], v.items)
        else []
  {
    FieldErrorsIsolated(s, entry, i);
    ListFormNotPlain(s[i].typeName);
  }

  /** Python's class check as the validator applies it: a bool is an int, an int is not a float. */
  lemma IsInstanceQuirks(b: bool, n: int)
    ensures IsInstance(JBool(b), SupportedTypes["int"])
    ensures !IsInstance(JInt(n), SupportedTypes["float"])
    ensures !IsInstance(JBool(b), SupportedTypes["float"])
  {
  }

  // ---------------------------------------------------------------------
  // Editing a valid entry
  // ---------------------------------------------------------------------

  /** The first pass reads an entry only through the declared names. */
  lemma {:induction false} DeclaredErrorsAgree(s: Schema, e1: Fields, e2: Fields)
    requires forall j :: 0 <= j < |s| ==> Lookup(e1, s[j].name) == Lookup(e2, s[j].name)
    ensures DeclaredErrors(s, e1) == DeclaredErrors(s, e2)
  {
    if s != [] {
      assert Lookup(e1, s[0].name) == Lookup(e2, s[0].name);
      DeclaredErrorsAgree(s[1..], e1, e2);
    }
  }

  lemma {:induction false} DeclaredNone(s: Schema, entry: Fields, j: nat)
    requires DeclaredErrors(s, entry) == [] && j < |s|
    ensures FieldErrors(s[j], entry) == []
  {
    if j > 0 {
      DeclaredNone(s[1..], entry, j - 1);
    }
  }

  lemma {:induction false} DeclaredSingle(s: Schema, entry: Fields, i: nat)
    requires i < |s|
    requires forall j :: 0 <= j < |s| && j != i ==> FieldErrors(s[j], entry) == []
    ensures DeclaredErrors(s, entry) == FieldErrors(s[i], entry)
  {
    if i == 0 {
      NoDeclaredErrors(s[1..], entry);
    } else {
      assert FieldErrors(s[0], entry) == [];
      DeclaredSingle(s[1..], entry, i - 1);
    }
  }

  /** Removing a required field from a valid entry leaves exactly one violation, naming that field. */
  lemma RemoveRequiredField(s: Schema, entry: Fields, i: nat)
    requires UniqueNames(s) && UniqueKeys(entry) && i < |s| && s[i].required
    requires ValidateEntry(s, entry) == []
    ensures ValidateEntry(s, Remove(entry, s[i].name)) == [Missing(s[i].name)]
  {
    var e' := Remove(entry, s[i].name);
    assert DeclaredErrors(s, e') == [Missing(s[i].name)] by {
      RemovedDeclared(s, entry, i);
    }
    assert ExtraErrors(s, e') == [] by {
      assert ExtraErrors(s, entry) == [];
      ExtraErrorsSubset(s, entry, e');
    }
  }

  lemma RemovedDeclared(s: Schema, entry: Fields, i: nat)
    requires UniqueNames(s) && UniqueKeys(entry) && i < |s| && s[i].required
    requires DeclaredErrors(s, entry) == []
    ensures DeclaredErrors(s, Remove(entry, s[i].name)) == [Missing(s[i].name)]
  {
    var n := s[i].name;
    var e' := Remove(entry, n);
    forall j | 0 <= j < |s| && j != i ensures FieldErrors(s[j], e') == [] {
      DeclaredNone(s, entry, j);
      assert Lookup(e', s[j].name) == Lookup(entry, s[j].name);
    }
    DeclaredSingle(s, e', i);
  }

  /** An entry whose every key is declared has no undeclared-key violation. */
  lemma {:induction false} ExtraErrorsNone(s: Schema, entry: Fields)
    requires forall i :: 0 <= i < |entry| ==> entry[i].0 in FieldNames(s)
    ensures ExtraErrors(s, entry) == []
  {
    if entry != [] {
      ExtraErrorsNone(s, entry[1..]);
    }
  }

  lemma ExtraErrorsSubset(s: Schema, entry: Fields, e': Fields)
    requires ExtraErrors(s, entry) == []
    requires forall x :: x in e' ==> x in entry
    ensures ExtraErrors(s, e') == []
  {
    forall p | 0 <= p < |e'| ensures e'[p].0 in FieldNames(s) {
      assert e'[p] in e';
      var q :| 0 <= q < |entry| && entry[q] == e'[p];
      assert Keys(entry)[q] == e'[p].0;
      ExtraErrorsReports(s, entry, e'[p].0);
    }
    ExtraErrorsNone(s, e');
  }

  lemma {:induction false} ExtraErrorsAppend(s: Schema, entry: Fields, k: string, v: Json)
    requires k !in FieldNames(s)
    ensures ExtraErrors(s, entry + [(k, v)]) == ExtraErrors(s, entry) + [Undefined(k)]
  {
    if entry != [] {
      assert (entry + [(k, v)])[1..] == entry[1..] + [(k, v)];
      ExtraErrorsAppend(s, entry[1..], k, v);
    }
  }

  lemma {:induction false} LookupAppend(entry: Fields, k: string, v: Json, n: string)
    requires n != k
    ensures Lookup(entry + [(k, v)], n) == Lookup(entry, n)
  {
    if entry != [] {
      assert (entry + [(k, v)])[1..] == entry[1..] + [(k, v)];
      LookupAppend(entry[1..], k, v, n);
    }
  }

  /** Adding an undeclared key to a valid entry gives exactly one violation, naming that key. */
  lemma AddUndeclaredField(s: Schema, entry: Fields, k: string, v: Json)
    requires ValidateEntry(s, entry) == [] && k !in FieldNames(s)
    ensures ValidateEntry(s, entry + [(k, v)]) == [Undefined(k)]
  {
    forall j | 0 <= j < |s| ensures Lookup(entry + [(k, v)], s[j].name) == Lookup(entry, s[j].name) {
      assert FieldNames(s)[j] == s[j].name;
      LookupAppend(entry, k, v, s[j].name);
    }
    DeclaredErrorsAgree(s, entry + [(k, v)], entry);
    ExtraErrorsAppend(s, entry, k, v);
  }

  // ---------------------------------------------------------------------
  // validate_data
  // ---------------------------------------------------------------------

  /**
   * `validate_data`: maps the index of every entry that has violations to
   * those violations, and no other index.
   */
  /** The errors of each entry, in order. */
  function EntryErrors(s: Schema, data: seq<Fields>): (r: seq<seq<Violation>>)
    ensures |r| == |data|
  {
    if data == [] then [] else EntryErrors(s, data[..|data| - 1]) + [ValidateEntry(s, data[|data| - 1])]
  }

  lemma {:induction false} EntryErrorsAt(s: Schema, data: seq<Fields>, i: nat)
    requires i < |data|
    ensures EntryErrors(s, data)[i] == ValidateEntry(s, data[i])
  {
    var n := |data| - 1;
    var prev := EntryErrors(s, data[..n]);
    assert EntryErrors(s, data) == prev + [ValidateEntry(s, data[n])];
    if i < n {
      EntryErrorsAt(s, data[..n], i);
      assert data[..n][i] == data[i];
    }
  }

  /** The report built from the first `n` error lists: index to errors, for the entries that have any. */
  function Reported(errors: seq<seq<Violation>>, n: nat): map<nat, seq<Violation>>
    requires n <= |errors|
  {
    if n == 0 then map[]
    else if errors[n - 1] != [] then Reported(errors, n - 1)[n - 1 := errors[n - 1]]
    else Reported(errors, n - 1)
  }

  lemma {:induction false} ReportedIndex(errors: seq<seq<Violation>>, n: nat, i: nat)
    requires n <= |errors|
    ensures i in Reported(errors, n) <==> i < n && errors[i] != []
    ensures i in Reported(errors, n) ==> Reported(errors, n)[i] == errors[i]
  {
    if n > 0 {
      ReportedIndex(errors, n - 1, i);
    }
  }

  /** The report holds an entry's index exactly when that entry has errors, and then its errors. */
  lemma ReportedEntries(s: Schema, data: seq<Fields>, i: nat)
    ensures i in Reported(EntryErrors(s, data), |data|) <==> i < |data| && ValidateEntry(s, data[i]) != []
    ensures i in Reported(EntryErrors(s, data), |data|) ==> Reported(EntryErrors(s, data), |data|)[i] == ValidateEntry(s, data[i])
  {
    ReportedIndex(EntryErrors(s, data), |data|, i);
    if i < |data| {
      EntryErrorsAt(s, data, i);
    }
  }

  /** `validate_data`: each entry validated in turn, indexed by its position. */
  method ValidateData(s: Schema, data: seq<Fields>) returns (r: map<nat, seq<Violation>>)
    ensures r == Reported(EntryErrors(s, data), |data|)
  {
    ghost var all := EntryErrors(s, data);
    r := map[];
    var i := 0;
    while i < |data|
      invariant 0 <= i <= |data|
      invariant r == Reported(all, i)
    {
      var errors := ValidateEntry(s, data[i]);
      assert errors == all[i] by {
        EntryErrorsAt(s, data, i);
      }
      if errors != [] {
        r := r[i := errors];
      }
      i := i + 1;
    }
  }

  // ---------------------------------------------------------------------
  // create_empty_entry
  // ---------------------------------------------------------------------

  /** The value `create_empty_entry` gives a required field of type `t`; `None` when it sets nothing. */
  function DefaultValue(t: string): Option<Json> {
    if t == "str" then Some(JStr(""))
    else if t == "int" then Some(JInt(0))
    else if t == "float" then Some(JFloat(0.0))
    else if t == "bool" then Some(JBool(false))
    else if t == "list" || StartsWith(t, "list[") then Some(JArr([]))
    else if t == "dict" || t == "object" then Some(JObj([]))
    else None
  }

  /** What `create_empty_entry` stores for one field: `None` for an optional one, the zero value for a required one. */
  function EmptyValue(f: FieldSpec): Option<Json> {
    if f.required then DefaultValue(f.typeName) else Some(JNull)
  }

  /** `create_empty_entry`: each field in table order, required ones set to their type's zero, optional ones to `None`. */
  function CreateEmptyEntry(s: Schema): Fields {
    if s == [] then []
    else
      var e := CreateEmptyEntry(s[..|s| - 1]);
      var f := s[|s| - 1];
      match EmptyValue(f)
      case Some(d) => Put(e, f.name, d)
      case None => e
  }

  lemma {:induction false} EmptyEntryUndeclared(s: Schema, n: string)
    requires forall j :: 0 <= j < |s| ==> s[j].name != n
    ensures Lookup(CreateEmptyEntry(s), n) == None
  {
    if s != [] {
      var m := |s| - 1;
      assert forall j :: 0 <= j < m ==> s[..m][j] == s[j];
      EmptyEntryUndeclared(s[..m], n);
      if EmptyValue(s[m]).Some? {
        LookupPut(CreateEmptyEntry(s[..m]), s[m].name, EmptyValue(s[m]).value, n);
      }
    }
  }

  /** The new entry holds, for each declared field, `None` when optional and its type's zero when required. */
  lemma {:induction false} EmptyEntryLookup(s: Schema, i: nat)
    requires UniqueNames(s) && i < |s|
    ensures Lookup(CreateEmptyEntry(s), s[i].name) == EmptyValue(s[i])
  {
    var m := |s| - 1;
    var e := CreateEmptyEntry(s[..m]);
    var n := s[i].name;
    assert forall j :: 0 <= j < m ==> s[..m][j] == s[j];
    if EmptyValue(s[m]).Some? {
      LookupPut(e, s[m].name, EmptyValue(s[m]).value, n);
    }
    if i == m {
      if EmptyValue(s[m]).None? {
        EmptyEntryUndeclared(s[..m], n);
      }
    } else {
      EmptyEntryLookup(s[..m], i);
    }
  }

  lemma FieldNamesSnoc(s: Schema)
    requires s != []
    ensures FieldNames(s) == FieldNames(s[..|s| - 1]) + [s[|s| - 1].name]
  {
    var m := |s| - 1;
    FieldNamesPrefix(s, m);
    LastSplit(FieldNames(s));
  }

  /** The names of a prefix of the table are the prefix of its names. */
  lemma FieldNamesPrefix(s: Schema, m: nat)
    requires m <= |s|
    ensures FieldNames(s[..m]) == FieldNames(s)[..m]
  {
    forall j | 0 <= j < m ensures FieldNames(s[..m])[j] == FieldNames(s)[j] {
      assert s[..m][j] == s[j];
    }
  }

  lemma LastSplit<T>(xs: seq<T>)
    requires xs != []
    ensures xs == xs[..|xs| - 1] + [xs[|xs| - 1]]
  {
  }

  /** When every required type has a zero value, the new entry has exactly the declared keys, in table order. */
  lemma {:induction false} EmptyEntryKeys(s: Schema)
    requires UniqueNames(s)
    requires forall i :: 0 <= i < |s| ==> EmptyValue(s[i]).Some?
    ensures Keys(CreateEmptyEntry(s)) == FieldNames(s)
  {
    if s != [] {
      var m := |s| - 1;
      assert forall j :: 0 <= j < m ==> s[..m][j] == s[j];
      EmptyEntryKeys(s[..m]);
      FieldNamesSnoc(s);
      assert s[m].name !in FieldNames(s[..m]) by {
        forall j | 0 <= j < m ensures FieldNames(s[..m])[j] != s[m].name {
          assert FieldNames(s[..m])[j] == s[j].name;
        }
      }
    }
  }

  lemma ListFormNotPlain(t: string)
    requires StartsWith(t, "list[")
    ensures t !in SupportedTypes
  {
    assert t[4] == "list["[4];
    assert "float"[4] == 't' && "object"[4] == 'c';
  }

  lemma DefaultConforms(name: string, t: string)
    requires DefaultValue(t).Some?
    ensures ValueErrors(name, t, DefaultValue(t).value) == []
  {
    if StartsWith(t, "list[") {
      ListFormNotPlain(t);
      if EndsWith(t, "]") {
        assert ItemErrors(name, ListInner(t), PyStr, []) == [];
      }
    }
  }

  lemma {:induction false} NoDeclaredErrors(s: Schema, entry: Fields)
    requires forall i :: 0 <= i < |s| ==> FieldErrors(s[i], entry) == []
    ensures DeclaredErrors(s, entry) == []
  {
    if s != [] {
      assert FieldErrors(s[0], entry) == [];
      NoDeclaredErrors(s[1..], entry);
    }
  }

  /**
   * The entry `create_empty_entry` builds conforms to the model whenever
   * every required field's type has a zero value (a supported name, `list`
   * or `list[...]`).
   */
  /** Each field is declared once and each required type has a zero value. */
  predicate Fillable(s: Schema) {
    && UniqueNames(s)
    && forall i :: 0 <= i < |s| && s[i].required ==> DefaultValue(s[i].typeName).Some?
  }

  lemma EmptyEntryValid(s: Schema)
    requires Fillable(s)
    ensures ValidateEntry(s, CreateEmptyEntry(s)) == []
  {
    var e := CreateEmptyEntry(s);
    EmptyEntryDeclared(s);
    EmptyEntryExtra(s);
  }

  lemma EmptyEntryDeclared(s: Schema)
    requires Fillable(s)
    ensures DeclaredErrors(s, CreateEmptyEntry(s)) == []
  {
    var e := CreateEmptyEntry(s);
    forall i | 0 <= i < |s| ensures FieldErrors(s[i], e) == [] {
      EmptyFieldConforms(s, i);
    }
    NoDeclaredErrors(s, e);
  }

  lemma EmptyFieldConforms(s: Schema, i: nat)
    requires UniqueNames(s) && i < |s|
    requires s[i].required ==> DefaultValue(s[i].typeName).Some?
    ensures FieldErrors(s[i], CreateEmptyEntry(s)) == []
  {
    EmptyEntryLookup(s, i);
    EmptyValueConforms(s[i], CreateEmptyEntry(s));
  }

  lemma EmptyValueConforms(f: FieldSpec, entry: Fields)
    requires Lookup(entry, f.name) == EmptyValue(f)
    requires f.required ==> DefaultValue(f.typeName).Some?
    ensures FieldErrors(f, entry) == []
  {
    if f.required {
      DefaultConforms(f.name, f.typeName);
    }
  }

  lemma EmptyEntryExtra(s: Schema)
    requires Fillable(s)
    ensures ExtraErrors(s, CreateEmptyEntry(s)) == []
  {
    var e := CreateEmptyEntry(s);
    EmptyEntryKeys(s);
    forall i | 0 <= i < |e| ensures e[i].0 in FieldNames(s) {
      assert Keys(e)[i] == e[i].0;
    }
    ExtraErrorsNone(s, e);
  }

  /**
   * Loading accepts any type whose text before `[` is supported, such as
   * `str[x]`, but `create_empty_entry` sets nothing for it, so a required
   * field of that type leaves the new entry with a missing-field violation.
   */
  lemma EmptyEntryOfOddType()
    ensures var doc := [("__meta__", JObj([("a", JObj([("type", JStr("str[x]")), ("required", JBool(true))]))]))];
      && LoadModelFromDict(doc) == Ok([FieldSpec("a", "str[x]", true)])
      && CreateEmptyEntry([FieldSpec("a", "str[x]", true)]) == []
      && ValidateEntry([FieldSpec("a", "str[x]", true)], []) == [Missing("a")]
  {
    OddTypeLoads();
    var s := [FieldSpec("a", "str[x]", true)];
    OddTypeNoDefault();
    assert s[..0] == [];
    assert FieldErrors(s[0], []) == [Missing("a")];
    assert DeclaredErrors(s, []) == [Missing("a")] + DeclaredErrors(s[1..], []);
  }

  lemma OddTypeNoDefault()
    ensures DefaultValue("str[x]") == None
  {
    var t := "str[x]";
    assert |t| == 6 && t[0] == 's' && t[1] == 't';
    assert !StartsWith(t, "list[") by {
      assert t[..5][0] != "list["[0];
    }
  }

  lemma OddTypeLoads()
    ensures LoadModelFromDict([("__meta__", JObj([("a", JObj([("type", JStr("str[x]")), ("required", JBool(true))]))]))])
      == Ok([FieldSpec("a", "str[x]", true)])
  {
    var spec := JObj([("type", JStr("str[x]")), ("required", JBool(true))]);
    assert BaseType("str[x]") == "str";
    assert Lookup(spec.fields, "type") == Some(JStr("str[x]"));
    assert Lookup(spec.fields, "required") == Some(JBool(true));
    assert CheckSpec("a", spec) == Ok(FieldSpec("a", "str[x]", true));
    var fs := [("a", spec)];
    assert fs[0] == ("a", spec);
    var r := CheckFields(fs);
    assert r.Ok? && |r.value| == 1 && r.value[0] == FieldSpec("a", "str[x]", true);
    assert r.value == [FieldSpec("a", "str[x]", true)];
  }

  // ---------------------------------------------------------------------
  // Field lookups
  // ---------------------------------------------------------------------

  /** `get_field_type`: the declared type string, or `None` for an undeclared name. */
  function GetFieldType(s: Schema, name: string): (r: Option<string>)
    ensures r.None? <==> name !in FieldNames(s)
    ensures r.Some? ==> exists i :: 0 <= i < |s| && s[i].name == name && s[i].typeName == r.value
  {
    if s == [] then None
    else if s[0].name == name then Some(s[0].typeName)
    else
      var r := GetFieldType(s[1..], name);
      assert FieldNames(s) == [s[0].name] + FieldNames(s[1..]);
      assert r.Some? ==> exists i :: 0 <= i < |s[1..]| && s[1..][i].name == name && s[1..][i].typeName == r.value;
      r
  }

  /** `is_field_required`: the declared flag, or false for an undeclared name. */
  function IsFieldRequired(s: Schema, name: string): (r: bool)
    ensures name !in FieldNames(s) ==> !r
    ensures r ==> exists i :: 0 <= i < |s| && s[i].name == name && s[i].required
    ensures UniqueNames(s) ==> (r <==> exists i :: 0 <= i < |s| && s[i].name == name && s[i].required)
  {
    if s == [] then false
    else if s[0].name == name then
      assert UniqueNames(s) ==> forall i :: 1 <= i < |s| ==> s[i].name != name;
      s[0].required
    else
      var r := IsFieldRequired(s[1..], name);
      assert FieldNames(s) == [s[0].name] + FieldNames(s[1..]);
      assert r ==> exists i :: 0 <= i < |s[1..]| && s[1..][i].name == name && s[1..][i].required;
      assert UniqueNames(s) ==> UniqueNames(s[1..]);
      assert forall i :: 1 <= i < |s| ==> s[i] == s[1..][i - 1];
      r
  }
}
