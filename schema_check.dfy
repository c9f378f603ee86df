/**
 * `validate_json_schema` from json_utils.py: a looser checker than the
 * model's own `validate_entry`, with its own messages.  It walks the
 * `__meta__` section in order, then the keys of the data, and collects
 * error messages.  A single generic "does not match the type" error is
 * added for a field only while no error at all has been collected yet.
 */
module SchemaCheck {
  import opened Wrappers
  import opened JsonValue
  import JsonModel

  /** One error message of `validate_json_schema`; `Text` renders it. */
  datatype SchemaError =
    | NoMeta
    | BadSpec(field: string)
    | RequiredMissing(field: string)
    | TypeUnspecified(field: string)
    | ItemWrong(index: nat, field: string, inner: string)
    | Mismatch(field: string, typeName: string)
    | Undeclared(field: string)

  /** The ways the function fails with a Python exception instead of returning. */
  datatype Crash =
    | MetaNotObject            // `meta.items()` on a value that is not a dict
    | TypeNotText(field: string)  // `field_type.startswith` on a type that is not a string

  /** The word the item message uses for each checked item type. */
  function ItemWord(inner: string): string {
    if inner == "str" then "string"
    else if inner == "int" then "inteiro"
    else if inner == "float" then "número"
    else "booleano"
  }

  function Text(e: SchemaError): string {
    match e
    case NoMeta => "Esquema não contém seção __meta__"
    case BadSpec(f) => "Especificação inválida para o campo " + JsonModel.Quote(f)
    case RequiredMissing(f) => "Campo obrigatório " + JsonModel.Quote(f) + " está ausente"
    case TypeUnspecified(f) => "Tipo não especificado para o campo " + JsonModel.Quote(f)
    case ItemWrong(i, f, inner) => ("Item " + NatToString(i) + " em ") + JsonModel.Quote(f) + (" deve ser " + ItemWord(inner))
    case Mismatch(f, t) => "Valor do campo " + JsonModel.Quote(f) + (" não corresponde ao tipo " + t)
    case Undeclared(f) => "Campo " + JsonModel.Quote(f) + " não está definido no esquema"
  }

  /** Every message but the missing-section one names its field between single quotes. */
  lemma TextQuotesField(e: SchemaError)
    requires !e.NoMeta?
    ensures JsonModel.Contains(Text(e), JsonModel.Quote(e.field))
  {
    match e
    case BadSpec(f) =>
      var a := "Especificação inválida para o campo ";
      JsonModel.ContainsMiddle(a, JsonModel.Quote(f), "");
      assert a + JsonModel.Quote(f) + "" == Text(e);
    case RequiredMissing(f) => JsonModel.ContainsMiddle("Campo obrigatório ", JsonModel.Quote(f), " está ausente");
    case TypeUnspecified(f) =>
      var a := "Tipo não especificado para o campo ";
      JsonModel.ContainsMiddle(a, JsonModel.Quote(f), "");
      assert a + JsonModel.Quote(f) + "" == Text(e);
    case ItemWrong(i, f, inner) =>
      JsonModel.ContainsMiddle("Item " + NatToString(i) + " em ", JsonModel.Quote(f), " deve ser " + ItemWord(inner));
    case Mismatch(f, t) => JsonModel.ContainsMiddle("Valor do campo ", JsonModel.Quote(f), " não corresponde ao tipo " + t);
    case Undeclared(f) => JsonModel.ContainsMiddle("Campo ", JsonModel.Quote(f), " não está definido no esquema");
  }

  // ---------------------------------------------------------------------
  // Type tests
  // ---------------------------------------------------------------------

  /** The plain type tests of the `elif` chain: `float` takes any number, `int` takes a boolean. */
  predicate SimpleMatch(t: string, v: Json) {
    || (t == "str" && v.JStr?)
    || (t == "int" && IsInstance(v, PyInt))
    || (t == "float" && (IsInstance(v, PyInt) || IsInstance(v, PyFloat)))
    || (t == "bool" && v.JBool?)
    || (t == "list" && v.JArr?)
    || ((t == "dict" || t == "object") && v.JObj?)
  }

  /** The item test of a `list[...]` type; an item type other than the four listed accepts every item. */
  predicate ItemOk(inner: string, item: Json) {
    if inner == "str" || inner == "int" || inner == "float" || inner == "bool" then SimpleMatch(inner, item)
    else true
  }

  /** `field_type[5:-1]`, with Python's slice clamping (`"list["` gives the empty string). */
  function Inner(t: string): string {
    Slice(t, 5, -1)
  }

  /** What a value of type `t` must look like for the field to raise no error. */
  predicate Conforms(t: string, v: Json) {
    if StartsWith(t, "list[") && v.JArr? then forall i :: 0 <= i < |v.items| ==> ItemOk(Inner(t), v.items[i])
    else SimpleMatch(t, v)
  }

  /** The item messages for a list value, in item order. */
  function ItemErrs(field: string, inner: string, items: seq<Json>): (r: seq<SchemaError>)
    ensures forall j :: 0 <= j < |r| ==>
      r[j].ItemWrong? && r[j].field == field && r[j].inner == inner && r[j].index < |items| &&
      !ItemOk(inner, items[r[j].index])
  {
    if items == [] then []
    else
      var n := |items| - 1;
      assert forall i :: 0 <= i < n ==> items[..n][i] == items[i];
      ItemErrs(field, inner, items[..n]) + if ItemOk(inner, items[n]) then [] else [ItemWrong(n, field, inner)]
  }

  /** The list is reported clean exactly when every item passes its test. */
  lemma {:induction false} ItemErrsEmpty(field: string, inner: string, items: seq<Json>)
    ensures ItemErrs(field, inner, items) == [] <==> forall i :: 0 <= i < |items| ==> ItemOk(inner, items[i])
  {
    if items != [] {
      var n := |items| - 1;
      assert forall i :: 0 <= i < n ==> items[..n][i] == items[i];
      ItemErrsEmpty(field, inner, items[..n]);
    }
  }

  /** Every item that fails its test is reported, with its index, and no other item is. */
  lemma {:induction false} ItemErrsComplete(field: string, inner: string, items: seq<Json>, i: nat)
    ensures ItemWrong(i, field, inner) in ItemErrs(field, inner, items) <==> i < |items| && !ItemOk(inner, items[i])
  {
    if items != [] {
      var n := |items| - 1;
      var last: seq<SchemaError> := if ItemOk(inner, items[n]) then [] else [ItemWrong(n, field, inner)];
      assert ItemErrs(field, inner, items) == ItemErrs(field, inner, items[..n]) + last;
      ItemErrsComplete(field, inner, items[..n], i);
      InConcat(ItemWrong(i, field, inner), ItemErrs(field, inner, items[..n]), last);
      if i < n {
        assert items[..n][i] == items[i];
      }
    }
  }

  /** The item messages come in item order, one per item at most. */
  lemma {:induction false} ItemErrsOrdered(field: string, inner: string, items: seq<Json>)
    ensures forall j, k :: 0 <= j < k < |ItemErrs(field, inner, items)| ==>
      ItemErrs(field, inner, items)[j].index < ItemErrs(field, inner, items)[k].index
  {
    if items != [] {
      var n := |items| - 1;
      ItemErrsOrdered(field, inner, items[..n]);
    }
  }

  // ---------------------------------------------------------------------
  // The pass over `__meta__`
  // ---------------------------------------------------------------------

  /** `field_spec.get("required", False)`. */
  function RequiredFlag(spec: Fields): Json {
    match Lookup(spec, "required")
    case None => JBool(false)
    case Some(q) => q
  }

  /**
   * The errors after checking field `name` when `acc` have been collected
   * so far.  With `intended` false this is the code as written: the
   * generic mismatch error is added only when `acc` is empty.  With
   * `intended` true it is added whenever the field's value fails its type
   * and no item error was given for it.
   */
  function FieldStep(acc: seq<SchemaError>, name: string, spec: Json, data: Fields, intended: bool)
    : (r: Result<seq<SchemaError>, Crash>)
    ensures r.Ok? ==> |acc| <= |r.value| && r.value[..|acc|] == acc
    ensures r.Ok? ==> forall j :: |acc| <= j < |r.value| ==>
      !r.value[j].NoMeta? && !r.value[j].Undeclared? && r.value[j].field == name
    ensures r.Ok? && !intended ==> forall j :: |acc| <= j < |r.value| && r.value[j].Mismatch? ==> j == 0
    ensures r.Err? ==> r.error == TypeNotText(name)
    ensures r.Err? <==>
      && spec.JObj? && Lookup(data, name).Some? && !Lookup(data, name).value.JNull?
      && Lookup(spec.fields, "type").Some? && !Lookup(spec.fields, "type").value.JStr?
  {
    if !spec.JObj? then Ok(acc + [BadSpec(name)])
    else
      var val := Lookup(data, name);
      if Truthy(RequiredFlag(spec.fields)) && (val.None? || val.value.JNull?) then Ok(acc + [RequiredMissing(name)])
      else if val.None? || val.value.JNull? then Ok(acc)
      else match Lookup(spec.fields, "type")
        case None => Ok(acc + [TypeUnspecified(name)])
        case Some(t) =>
          if !t.JStr? then Err(TypeNotText(name))
          else if StartsWith(t.s, "list[") && val.value.JArr? then Ok(acc + ItemErrs(name, Inner(t.s), val.value.items))
          else if SimpleMatch(t.s, val.value) then Ok(acc)
          else if acc == [] || intended then Ok(acc + [Mismatch(name, t.s)])
          else Ok(acc)
  }

  /** The `for field_name, field_spec in meta.items()` loop over the first `|meta|` entries. */
  function MetaPass(meta: Fields, data: Fields, intended: bool): Result<seq<SchemaError>, Crash> {
    if meta == [] then Ok([])
    else
      var n := |meta| - 1;
      match MetaPass(meta[..n], data, intended)
      case Err(e) => Err(e)
      case Ok(acc) => FieldStep(acc, meta[n].0, meta[n].1, data, intended)
  }

  /** The closing loop: one error per key of the data that `meta` does not declare, in the data's order. */
  function ExtraPass(declared: seq<string>, data: Fields): (r: seq<SchemaError>)
    ensures forall j :: 0 <= j < |r| ==> r[j].Undeclared? && r[j].field !in declared
  {
    if data == [] then []
    else
      var n := |data| - 1;
      ExtraPass(declared, data[..n]) + if data[n].0 in declared then [] else [Undeclared(data[n].0)]
  }

  function Check(data: Fields, schema: Fields, intended: bool): (r: Result<seq<SchemaError>, Crash>)
    ensures Lookup(schema, "__meta__").None? ==> r == Ok([NoMeta])
    ensures r.Ok? && Lookup(schema, "__meta__").Some? ==> (
      && Lookup(schema, "__meta__").value.JObj?
      && var meta := Lookup(schema, "__meta__").value.fields;
         MetaPass(meta, data, intended).Ok? && r.value == MetaPass(meta, data, intended).value + ExtraPass(Keys(meta), data))
    ensures r.Err? <==> (Lookup(schema, "__meta__").Some? &&
      (!Lookup(schema, "__meta__").value.JObj? || MetaPass(Lookup(schema, "__meta__").value.fields, data, intended).Err?))
  {
    match Lookup(schema, "__meta__")
    case None => Ok([NoMeta])
    case Some(m) =>
      if !m.JObj? then Err(MetaNotObject)
      else match MetaPass(m.fields, data, intended)
        case Err(e) => Err(e)
        case Ok(acc) => Ok(acc + ExtraPass(Keys(m.fields), data))
  }

  /** `validate_json_schema` as written. */
  function SchemaErrors(data: Fields, schema: Fields): Result<seq<SchemaError>, Crash> {
    Check(data, schema, false)
  }

  /** `validate_json_schema` with the generic mismatch error given for every ill-typed field. */
  function SchemaErrorsIntended(data: Fields, schema: Fields): Result<seq<SchemaError>, Crash> {
    Check(data, schema, true)
  }

  // ---------------------------------------------------------------------
  // Properties
  // ---------------------------------------------------------------------

  /** A present value that conforms to its declared type adds no error, whatever came before. */
  lemma ConformingAccepted(acc: seq<SchemaError>, name: string, spec: Json, data: Fields, intended: bool, t: string, v: Json)
    requires spec.JObj? && Lookup(spec.fields, "type") == Some(JStr(t))
    requires Lookup(data, name) == Some(v) && !v.JNull? && Conforms(t, v)
    ensures FieldStep(acc, name, spec, data, intended) == Ok(acc)
  {
    if StartsWith(t, "list[") && v.JArr? {
      ItemErrsEmpty(name, Inner(t), v.items);
      assert acc + ItemErrs(name, Inner(t), v.items) == acc;
    }
  }

  /** `float` takes an int, as `isinstance(v, (int, float))` does. */
  lemma FloatAcceptsInt(acc: seq<SchemaError>, name: string, spec: Json, data: Fields, intended: bool, v: Json)
    requires spec.JObj? && Lookup(spec.fields, "type") == Some(JStr("float"))
    requires Lookup(data, name) == Some(v) && v.JInt?
    ensures FieldStep(acc, name, spec, data, intended) == Ok(acc)
  {
    ConformingAccepted(acc, name, spec, data, intended, "float", v);
  }

  /** `list[float]` takes a list of ints and floats. */
  lemma FloatListAcceptsInts(acc: seq<SchemaError>, name: string, spec: Json, data: Fields, intended: bool, v: Json)
    requires spec.JObj? && Lookup(spec.fields, "type") == Some(JStr("list[float]"))
    requires Lookup(data, name) == Some(v) && v.JArr?
    requires forall j :: 0 <= j < |v.items| ==> v.items[j].JInt? || v.items[j].JFloat?
    ensures FieldStep(acc, name, spec, data, intended) == Ok(acc)
  {
    ListFloatType();
    ConformingAccepted(acc, name, spec, data, intended, "list[float]", v);
  }

  /** `list[float]` is a list type whose items are checked as `float`. */
  lemma ListFloatType()
    ensures StartsWith("list[float]", "list[") && Inner("list[float]") == "float"
  {
    assert "list[float]"[..5] == "list[";
    assert "list[float]"[5..10] == "float";
  }

  /** A specification that is not a dict adds exactly its one error, and the pass moves to the next field. */
  lemma BadSpecSkipped(meta: Fields, data: Fields, intended: bool, i: nat)
    requires i < |meta| && !meta[i].1.JObj? && MetaPass(meta[..i], data, intended).Ok?
    ensures MetaPass(meta[..i + 1], data, intended) == Ok(MetaPass(meta[..i], data, intended).value + [BadSpec(meta[i].0)])
  {
    MetaPassStep(meta, data, intended, i);
  }

  /** The undeclared-key errors come after every other error. */
  lemma UndeclaredLast(data: Fields, schema: Fields, intended: bool)
    requires Check(data, schema, intended).Ok?
    ensures forall j, k ::
      (0 <= j < k < |Check(data, schema, intended).value| && Check(data, schema, intended).value[j].Undeclared?) ==>
      Check(data, schema, intended).value[k].Undeclared?
  {
    var m := Lookup(schema, "__meta__");
    if m.Some? {
      MetaPassShape(m.value.fields, data, intended);
      var acc := MetaPass(m.value.fields, data, intended).value;
      var r := Check(data, schema, intended).value;
      assert r == acc + ExtraPass(Keys(m.value.fields), data);
      assert forall j :: 0 <= j < |acc| ==> !r[j].Undeclared?;
      assert forall j :: |acc| <= j < |r| ==> r[j].Undeclared?;
    }
  }

  /** The keys of all members but the last are keys of the whole; so is the last one's. */
  lemma KeysInit(meta: Fields)
    requires meta != []
    ensures forall k :: k in Keys(meta[..|meta| - 1]) ==> k in Keys(meta)
    ensures meta[|meta| - 1].0 in Keys(meta)
  {
    var n := |meta| - 1;
    assert Keys(meta)[n] == meta[n].0;
    forall k | k in Keys(meta[..n]) ensures k in Keys(meta) {
      var j :| 0 <= j < n && Keys(meta[..n])[j] == k;
      assert Keys(meta)[j] == k;
    }
  }

  /**
   * What the pass over `__meta__` reports: errors about declared fields
   * only, and an exception only for a declared field whose type is not text.
   */
  lemma MetaPassShape(meta: Fields, data: Fields, intended: bool)
    ensures MetaPass(meta, data, intended).Ok? ==> forall j :: 0 <= j < |MetaPass(meta, data, intended).value| ==>
      var e := MetaPass(meta, data, intended).value[j];
      !e.NoMeta? && !e.Undeclared? && e.field in Keys(meta)
    ensures MetaPass(meta, data, intended).Err? ==>
      MetaPass(meta, data, intended).error.TypeNotText? && MetaPass(meta, data, intended).error.field in Keys(meta)
  {
    MetaPassErrors(meta, data, intended);
    MetaPassRaises(meta, data, intended);
  }

  lemma {:induction false} MetaPassErrors(meta: Fields, data: Fields, intended: bool)
    ensures MetaPass(meta, data, intended).Ok? ==> forall j :: 0 <= j < |MetaPass(meta, data, intended).value| ==>
      var e := MetaPass(meta, data, intended).value[j];
      !e.NoMeta? && !e.Undeclared? && e.field in Keys(meta)
  {
    if meta != [] {
      KeysInit(meta);
      MetaPassErrors(meta[..|meta| - 1], data, intended);
    }
  }

  lemma {:induction false} MetaPassRaises(meta: Fields, data: Fields, intended: bool)
    ensures MetaPass(meta, data, intended).Err? ==>
      MetaPass(meta, data, intended).error.TypeNotText? && MetaPass(meta, data, intended).error.field in Keys(meta)
  {
    if meta != [] {
      KeysInit(meta);
      MetaPassRaises(meta[..|meta| - 1], data, intended);
    }
  }

  /** As written, the pass over `__meta__` reports at most one generic mismatch, and only first. */
  lemma {:induction false} MetaPassMismatchFirst(meta: Fields, data: Fields)
    ensures MetaPass(meta, data, false).Ok? ==>
      forall j :: 0 < j < |MetaPass(meta, data, false).value| ==> !MetaPass(meta, data, false).value[j].Mismatch?
  {
    if meta != [] {
      var n := |meta| - 1;
      MetaPassMismatchFirst(meta[..n], data);
    }
  }

  /**
   * Each key of the data outside `declared` is reported by the closing pass,
   * and no other key is; it is reported once per occurrence, so once in a dict.
   */
  lemma {:induction false} ExtraPassReports(declared: seq<string>, data: Fields, k: string)
    ensures Undeclared(k) in ExtraPass(declared, data) <==> k in Keys(data) && k !in declared
    ensures multiset(ExtraPass(declared, data))[Undeclared(k)] == if k in declared then 0 else multiset(Keys(data))[k]
  {
    if data != [] {
      var n := |data| - 1;
      var last: seq<SchemaError> := if data[n].0 in declared then [] else [Undeclared(data[n].0)];
      assert ExtraPass(declared, data) == ExtraPass(declared, data[..n]) + last;
      KeysLast(data, k);
      KeysSnoc(data);
      ExtraPassReports(declared, data[..n], k);
      InConcat(Undeclared(k), ExtraPass(declared, data[..n]), last);
    }
  }

  /** The keys are the keys short of the last member, then the last key. */
  lemma KeysSnoc(fs: Fields)
    requires fs != []
    ensures Keys(fs) == Keys(fs[..|fs| - 1]) + [fs[|fs| - 1].0]
  {
    KeysPrefix(fs, |fs| - 1);
    assert Keys(fs) == Keys(fs)[..|fs| - 1] + [Keys(fs)[|fs| - 1]];
  }

  /** The undeclared-key errors name keys of `ks`, each one further on in `ks` than the one before. */
  predicate UndeclaredInOrder(r: seq<SchemaError>, ks: seq<string>) {
    forall j1, j2 :: 0 <= j1 < j2 < |r| && r[j1].Undeclared? && r[j2].Undeclared? ==>
      && r[j1].field in ks && r[j2].field in ks
      && IndexOf(ks, r[j1].field) < IndexOf(ks, r[j2].field)
  }

  /** Every undeclared-key error names a key of `ks`. */
  predicate UndeclaredAmong(r: seq<SchemaError>, ks: seq<string>) {
    forall j :: 0 <= j < |r| && r[j].Undeclared? ==> r[j].field in ks
  }

  /** Key order survives appending a key to the keys. */
  lemma UndeclaredInOrderSkip(r: seq<SchemaError>, ks: seq<string>, x: string)
    requires UndeclaredInOrder(r, ks) && UndeclaredAmong(r, ks)
    ensures UndeclaredInOrder(r, ks + [x]) && UndeclaredAmong(r, ks + [x])
  {
    forall j | 0 <= j < |r| && r[j].Undeclared? ensures IndexOf(ks + [x], r[j].field) == IndexOf(ks, r[j].field) {
      IndexOfSnoc(ks, x, r[j].field);
    }
  }

  /** Key order survives appending a new key to the keys and its error to the errors. */
  lemma UndeclaredInOrderAppend(r: seq<SchemaError>, ks: seq<string>, x: string)
    requires UndeclaredInOrder(r, ks) && UndeclaredAmong(r, ks) && x !in ks
    ensures UndeclaredInOrder(r + [Undeclared(x)], ks + [x]) && UndeclaredAmong(r + [Undeclared(x)], ks + [x])
  {
    UndeclaredInOrderSkip(r, ks, x);
    IndexOfLast(ks, x);
    var all := r + [Undeclared(x)];
    forall j1, j2 | 0 <= j1 < j2 < |all| && all[j1].Undeclared? && all[j2].Undeclared?
      ensures all[j1].field in ks + [x] && all[j2].field in ks + [x]
      ensures IndexOf(ks + [x], all[j1].field) < IndexOf(ks + [x], all[j2].field)
    {
      assert all[j1] == r[j1];
      if j2 < |r| {
        assert all[j2] == r[j2];
      }
    }
    forall j | 0 <= j < |all| && all[j].Undeclared? ensures all[j].field in ks + [x] {
      if j < |r| {
        assert all[j] == r[j];
      }
    }
  }

  /** With each key once, the closing pass reports the undeclared keys in the data's key order. */
  lemma {:induction false} ExtraPassInKeyOrder(declared: seq<string>, data: Fields)
    requires UniqueKeys(data)
    ensures UndeclaredInOrder(ExtraPass(declared, data), Keys(data))
    ensures UndeclaredAmong(ExtraPass(declared, data), Keys(data))
  {
    if data != [] {
      var n := |data| - 1;
      var r := ExtraPass(declared, data[..n]);
      UniqueInit(data);
      ExtraPassInKeyOrder(declared, data[..n]);
      KeysSnoc(data);
      if data[n].0 in declared {
        assert ExtraPass(declared, data) == r;
        UndeclaredInOrderSkip(r, Keys(data[..n]), data[n].0);
      } else {
        assert ExtraPass(declared, data) == r + [Undeclared(data[n].0)];
        UndeclaredInOrderAppend(r, Keys(data[..n]), data[n].0);
      }
    }
  }

  /** A key of `fs` is a key of all but its last member, or the last member's key. */
  lemma KeysLast(fs: Fields, k: string)
    requires fs != []
    ensures k in Keys(fs) <==> k in Keys(fs[..|fs| - 1]) || k == fs[|fs| - 1].0
  {
    var n := |fs| - 1;
    KeysPrefix(fs, n);
    InSnoc(k, Keys(fs));
  }

  /** The keys of a prefix are the prefix of the keys. */
  lemma KeysPrefix(fs: Fields, n: nat)
    requires n <= |fs|
    ensures Keys(fs[..n]) == Keys(fs)[..n]
  {
    forall i | 0 <= i < n ensures Keys(fs[..n])[i] == Keys(fs)[i] {
      assert fs[..n][i] == fs[i];
    }
  }

  lemma InSnoc<T>(x: T, s: seq<T>)
    requires s != []
    ensures x in s <==> x in s[..|s| - 1] || x == s[|s| - 1]
  {
    assert s == s[..|s| - 1] + [s[|s| - 1]];
  }

  lemma InConcat<T>(x: T, a: seq<T>, b: seq<T>)
    ensures x in a + b <==> x in a || x in b
  {
  }

  /** As written, a generic mismatch error can only be the first error reported. */
  lemma MismatchOnlyFirst(data: Fields, schema: Fields)
    requires SchemaErrors(data, schema).Ok?
    ensures forall j :: 0 < j < |SchemaErrors(data, schema).value| ==> !SchemaErrors(data, schema).value[j].Mismatch?
  {
    var m := Lookup(schema, "__meta__");
    if m.Some? {
      MetaPassMismatchFirst(m.value.fields, data);
      var acc := MetaPass(m.value.fields, data, false).value;
      var r := SchemaErrors(data, schema).value;
      assert r == acc + ExtraPass(Keys(m.value.fields), data);
      assert forall j :: |acc| <= j < |r| ==> r[j].Undeclared?;
    }
  }

  /** The pass over the first `i + 1` fields is the pass over the first `i`, then field `i`. */
  lemma MetaPassStep(meta: Fields, data: Fields, intended: bool, i: nat)
    requires i < |meta| && MetaPass(meta[..i], data, intended).Ok?
    ensures MetaPass(meta[..i + 1], data, intended) ==
      FieldStep(MetaPass(meta[..i], data, intended).value, meta[i].0, meta[i].1, data, intended)
  {
    assert meta[..i + 1][..i] == meta[..i];
    assert meta[..i + 1][i] == meta[i];
  }

  /** A pass that has raised over the first `i` fields raises the same over the first `i + 1`. */
  lemma MetaPassStepErr(meta: Fields, data: Fields, intended: bool, i: nat)
    requires i < |meta| && MetaPass(meta[..i], data, intended).Err?
    ensures MetaPass(meta[..i + 1], data, intended) == MetaPass(meta[..i], data, intended)
  {
    assert meta[..i + 1][..i] == meta[..i];
  }

  /** Errors are only ever appended: the errors after a prefix of `meta` start the errors after all of it. */
  lemma MetaPassPrefix(meta: Fields, data: Fields, intended: bool, i: nat)
    requires i <= |meta| && MetaPass(meta, data, intended).Ok?
    ensures MetaPass(meta[..i], data, intended).Ok?
    ensures MetaPass(meta[..i], data, intended).value <= MetaPass(meta, data, intended).value
  {
    assert meta[..|meta|] == meta;
    MetaPassPrefixUpTo(meta, data, intended, i, |meta|);
  }

  lemma {:induction false} MetaPassPrefixUpTo(meta: Fields, data: Fields, intended: bool, i: nat, k: nat)
    requires i <= k <= |meta| && MetaPass(meta[..k], data, intended).Ok?
    ensures MetaPass(meta[..i], data, intended).Ok?
    ensures MetaPass(meta[..i], data, intended).value <= MetaPass(meta[..k], data, intended).value
    decreases k - i
  {
    if i < k {
      MetaPassOkBefore(meta, data, intended, k);
      MetaPassPrefixUpTo(meta, data, intended, i, k - 1);
      PrefixTrans(MetaPass(meta[..i], data, intended).value, MetaPass(meta[..k - 1], data, intended).value,
        MetaPass(meta[..k], data, intended).value);
    }
  }

  /** A pass that got through `k` fields got through `k - 1`, with fewer errors. */
  lemma MetaPassOkBefore(meta: Fields, data: Fields, intended: bool, k: nat)
    requires 0 < k <= |meta| && MetaPass(meta[..k], data, intended).Ok?
    ensures MetaPass(meta[..k - 1], data, intended).Ok?
    ensures MetaPass(meta[..k - 1], data, intended).value <= MetaPass(meta[..k], data, intended).value
  {
    if MetaPass(meta[..k - 1], data, intended).Err? {
      MetaPassStepErr(meta, data, intended, k - 1);
    } else {
      MetaPassStep(meta, data, intended, k - 1);
    }
  }

  lemma PrefixTrans<T>(a: seq<T>, b: seq<T>, c: seq<T>)
    requires a <= b && b <= c
    ensures a <= c
  {
    assert c[..|a|] == b[..|a|];
  }

  /** The errors after the field at index `i` are the errors before it, passed through `FieldStep`. */
  lemma MetaPassAt(meta: Fields, data: Fields, intended: bool, i: nat)
    requires i < |meta| && MetaPass(meta, data, intended).Ok?
    ensures MetaPass(meta[..i], data, intended).Ok?
    ensures FieldStep(MetaPass(meta[..i], data, intended).value, meta[i].0, meta[i].1, data, intended).Ok?
    ensures FieldStep(MetaPass(meta[..i], data, intended).value, meta[i].0, meta[i].1, data, intended).value
      <= MetaPass(meta, data, intended).value
  {
    MetaPassPrefix(meta, data, intended, i + 1);
    assert meta[..i + 1][..i] == meta[..i];
    assert meta[..i + 1][i] == meta[i];
  }

  /** A required field whose value is missing or `None` is reported as missing. */
  lemma RequiredMissingReported(data: Fields, schema: Fields, m: Fields, i: nat)
    requires Lookup(schema, "__meta__") == Some(JObj(m)) && i < |m|
    requires m[i].1.JObj? && Truthy(RequiredFlag(m[i].1.fields))
    requires Lookup(data, m[i].0).None? || Lookup(data, m[i].0) == Some(JNull)
    requires SchemaErrors(data, schema).Ok?
    ensures RequiredMissing(m[i].0) in SchemaErrors(data, schema).value
  {
    MetaPassAt(m, data, false, i);
    var acc := MetaPass(m[..i], data, false).value;
    var after := FieldStep(acc, m[i].0, m[i].1, data, false).value;
    assert after[|acc|] == RequiredMissing(m[i].0);
    var all := MetaPass(m, data, false).value;
    assert SchemaErrors(data, schema).value[..|all|] == all;
    assert SchemaErrors(data, schema).value[|acc|] == all[|acc|] == after[|acc|];
  }

  /**
   * Each key of the data that `__meta__` does not declare is reported, and no
   * other key is; it is reported once per occurrence, so once in a dict.
   */
  lemma UndeclaredReported(data: Fields, schema: Fields, m: Fields, k: string)
    requires Lookup(schema, "__meta__") == Some(JObj(m)) && SchemaErrors(data, schema).Ok?
    ensures Undeclared(k) in SchemaErrors(data, schema).value <==> k in Keys(data) && k !in Keys(m)
    ensures multiset(SchemaErrors(data, schema).value)[Undeclared(k)] == if k in Keys(m) then 0 else multiset(Keys(data))[k]
  {
    MetaPassShape(m, data, false);
    ExtraPassReports(Keys(m), data, k);
    var acc := MetaPass(m, data, false).value;
    var extra := ExtraPass(Keys(m), data);
    assert SchemaErrors(data, schema).value == acc + extra;
    assert Undeclared(k) !in acc by {
      forall j | 0 <= j < |acc| ensures acc[j] != Undeclared(k) {
      }
    }
    assert multiset(acc)[Undeclared(k)] == 0;
  }

  /** With each key once, the undeclared keys are reported in the data's key order. */
  lemma UndeclaredInKeyOrder(data: Fields, schema: Fields, m: Fields)
    requires Lookup(schema, "__meta__") == Some(JObj(m)) && SchemaErrors(data, schema).Ok? && UniqueKeys(data)
    ensures UndeclaredInOrder(SchemaErrors(data, schema).value, Keys(data))
  {
    MetaPassShape(m, data, false);
    ExtraPassInKeyOrder(Keys(m), data);
    var acc := MetaPass(m, data, false).value;
    var extra := ExtraPass(Keys(m), data);
    assert SchemaErrors(data, schema).value == acc + extra;
    assert forall j :: 0 <= j < |acc| ==> !acc[j].Undeclared?;
    UndeclaredInOrderBehind(acc, extra, Keys(data));
  }

  /** Errors that are not undeclared-key errors, put in front, leave the key order of the rest. */
  lemma UndeclaredInOrderBehind(acc: seq<SchemaError>, r: seq<SchemaError>, ks: seq<string>)
    requires forall j :: 0 <= j < |acc| ==> !acc[j].Undeclared?
    requires UndeclaredInOrder(r, ks)
    ensures UndeclaredInOrder(acc + r, ks)
  {
    var all := acc + r;
    forall j | 0 <= j < |acc| ensures !all[j].Undeclared? {
      assert all[j] == acc[j];
    }
    forall j1, j2 | 0 <= j1 < j2 < |all| && all[j1].Undeclared? && all[j2].Undeclared?
      ensures all[j1].field in ks && all[j2].field in ks
      ensures IndexOf(ks, all[j1].field) < IndexOf(ks, all[j2].field)
    {
      assert all[j1] == r[j1 - |acc|] && all[j2] == r[j2 - |acc|];
    }
  }

  /**
   * As written, a field whose value has the wrong type produces no error
   * at all once an earlier field has produced one: here `b` holds a
   * string where an `int` is declared, and only the missing `a` is
   * reported.
   */
  lemma MismatchHidden()
    ensures var meta := [("a", JObj([("type", JStr("int")), ("required", JBool(true))])), ("b", JObj([("type", JStr("int"))]))];
      var data := [("b", JStr("x"))];
      && !Conforms("int", JStr("x"))
      && SchemaErrors(data, [("__meta__", JObj(meta))]) == Ok([RequiredMissing("a")])
  {
    var sa := JObj([("type", JStr("int")), ("required", JBool(true))]);
    var sb := JObj([("type", JStr("int"))]);
    var meta := [("a", sa), ("b", sb)];
    var data := [("b", JStr("x"))];
    assert Lookup(data, "a") == None;
    assert Lookup(sa.fields, "required") == Some(JBool(true));
    assert meta[..1][..0] == [];
    assert FieldStep([], "a", sa, data, false) == Ok([RequiredMissing("a")]);
    assert MetaPass(meta[..1][..0], data, false) == Ok([]);
    assert meta[..1][0] == ("a", sa);
    assert MetaPass(meta[..1], data, false) == Ok([RequiredMissing("a")]);
    assert Lookup(sb.fields, "type") == Some(JStr("int"));
    assert Lookup(sb.fields, "required") == None;
    assert Lookup(data, "b") == Some(JStr("x"));
    assert FieldStep([RequiredMissing("a")], "b", sb, data, false) == Ok([RequiredMissing("a")]);
    assert MetaPass(meta, data, false) == Ok([RequiredMissing("a")]);
    assert Keys(meta) == ["a", "b"];
    assert ExtraPass(["a", "b"], data) == [] by {
      assert data[..0] == [];
    }
    var schema := [("__meta__", JObj(meta))];
    assert Lookup(schema, "__meta__") == Some(JObj(meta));
    assert ExtraPass(Keys(meta), data) == [];
    assert [RequiredMissing("a")] + ExtraPass(Keys(meta), data) == [RequiredMissing("a")];
    assert Check(data, schema, false) == Ok([RequiredMissing("a")]);
    assert !StartsWith("int", "list[");
  }

  /** With the correction, every ill-typed present value gets an error naming its field. */
  lemma FieldStepReports(acc: seq<SchemaError>, name: string, spec: Json, data: Fields, t: string, v: Json)
    requires spec.JObj? && Lookup(spec.fields, "type") == Some(JStr(t))
    requires Lookup(data, name) == Some(v) && !v.JNull? && !Conforms(t, v)
    ensures FieldStep(acc, name, spec, data, true).Ok?
    ensures |FieldStep(acc, name, spec, data, true).value| > |acc|
  {
    if StartsWith(t, "list[") && v.JArr? {
      ItemErrsEmpty(name, Inner(t), v.items);
    }
  }

  lemma IllTypedReported(data: Fields, schema: Fields, m: Fields, i: nat, t: string)
    requires Lookup(schema, "__meta__") == Some(JObj(m)) && i < |m|
    requires m[i].1.JObj? && Lookup(m[i].1.fields, "type") == Some(JStr(t))
    requires Lookup(data, m[i].0).Some? && !Lookup(data, m[i].0).value.JNull?
    requires !Conforms(t, Lookup(data, m[i].0).value)
    requires SchemaErrorsIntended(data, schema).Ok?
    ensures exists j ::
      && 0 <= j < |SchemaErrorsIntended(data, schema).value|
      && !SchemaErrorsIntended(data, schema).value[j].NoMeta?
      && SchemaErrorsIntended(data, schema).value[j].field == m[i].0
  {
    MetaPassAt(m, data, true, i);
    var acc := MetaPass(m[..i], data, true).value;
    FieldStepReports(acc, m[i].0, m[i].1, data, t, Lookup(data, m[i].0).value);
    var after := FieldStep(acc, m[i].0, m[i].1, data, true).value;
    var all := MetaPass(m, data, true).value;
    var r := SchemaErrorsIntended(data, schema).value;
    assert r[..|all|] == all;
    assert r[|acc|] == after[|acc|];
  }

  // ---------------------------------------------------------------------
  // The function itself, loop by loop
  // ---------------------------------------------------------------------

  /** The body of the loop over `__meta__` for one field, with the inner loop over list items. */
  method CheckField(errors: seq<SchemaError>, name: string, spec: Json, data: Fields)
    returns (r: Result<seq<SchemaError>, Crash>)
    ensures r == FieldStep(errors, name, spec, data, false)
  {
    if !spec.JObj? {
      return Ok(errors + [BadSpec(name)]);
    }
    var required := RequiredFlag(spec.fields);
    var val := Lookup(data, name);
    if Truthy(required) && (val.None? || val.value.JNull?) {
      return Ok(errors + [RequiredMissing(name)]);
    }
    if val.None? || val.value.JNull? {
      return Ok(errors);
    }
    var t := Lookup(spec.fields, "type");
    if t.None? {
      return Ok(errors + [TypeUnspecified(name)]);
    }
    var fieldType := t.value;
    var value := val.value;
    var acc := errors;
    var valid := false;
    if fieldType.JStr? && SimpleMatch(fieldType.s, value) {
      valid := true;
    } else if !fieldType.JStr? {
      return Err(TypeNotText(name));
    } else if StartsWith(fieldType.s, "list[") && value.JArr? {
      acc, valid := CheckItems(errors, name, Inner(fieldType.s), value.items);
    }
    if !valid && acc == [] {
      acc := acc + [Mismatch(name, fieldType.s)];
    }
    return Ok(acc);
  }

  /** The inner loop over the items of a `list[...]` value. */
  method CheckItems(errors: seq<SchemaError>, name: string, inner: string, items: seq<Json>)
    returns (acc: seq<SchemaError>, allValid: bool)
    ensures acc == errors + ItemErrs(name, inner, items)
    ensures allValid <==> ItemErrs(name, inner, items) == []
  {
    acc := errors;
    allValid := true;
    var i := 0;
    while i < |items|
      invariant 0 <= i <= |items|
      invariant acc == errors + ItemErrs(name, inner, items[..i])
      invariant allValid <==> ItemErrs(name, inner, items[..i]) == []
    {
      assert items[..i + 1][..i] == items[..i];
      if !ItemOk(inner, items[i]) {
        acc := acc + [ItemWrong(i, name, inner)];
        allValid := false;
      }
      i := i + 1;
    }
    assert items[..i] == items;
  }

  /** `validate_json_schema(data, schema)`; `Err` stands for the exception it raises. */
  method ValidateJsonSchema(data: Fields, schema: Fields) returns (r: Result<seq<SchemaError>, Crash>)
    ensures r == SchemaErrors(data, schema)
  {
    var m := Lookup(schema, "__meta__");
    if m.None? {
      return Ok([NoMeta]);
    }
    if !m.value.JObj? {
      return Err(MetaNotObject);
    }
    var meta := m.value.fields;
    var errors := [];
    var i := 0;
    while i < |meta|
      invariant 0 <= i <= |meta|
      invariant MetaPass(meta[..i], data, false) == Ok(errors)
    {
      var step := CheckField(errors, meta[i].0, meta[i].1, data);
      MetaPassStep(meta, data, false, i);
      if step.Err? {
        MetaPassErrSticks(meta, data, i + 1);
        return step;
      }
      errors := step.value;
      i := i + 1;
    }
    assert meta[..i] == meta;
    errors := AddUndeclared(errors, Keys(meta), data);
    assert Check(data, schema, false) == Ok(errors);
    return Ok(errors);
  }

  /** The closing `for field_name in data` loop of `validate_json_schema`. */
  method AddUndeclared(errors: seq<SchemaError>, declared: seq<string>, data: Fields) returns (r: seq<SchemaError>)
    ensures r == errors + ExtraPass(declared, data)
  {
    r := errors;
    var j := 0;
    while j < |data|
      invariant 0 <= j <= |data|
      invariant r == errors + ExtraPass(declared, data[..j])
    {
      ExtraPassStep(declared, data, j);
      if data[j].0 !in declared {
        r := r + [Undeclared(data[j].0)];
      }
      j := j + 1;
    }
    assert data[..j] == data;
  }

  /** The closing pass over the first `j + 1` keys: the pass over the first `j`, then key `j`. */
  lemma ExtraPassStep(declared: seq<string>, data: Fields, j: nat)
    requires j < |data|
    ensures ExtraPass(declared, data[..j + 1]) ==
      ExtraPass(declared, data[..j]) + if data[j].0 in declared then [] else [Undeclared(data[j].0)]
  {
    assert data[..j + 1][..j] == data[..j];
    assert data[..j + 1][j] == data[j];
  }

  /** Once a field has raised, the whole pass raises the same exception. */
  lemma MetaPassErrSticks(meta: Fields, data: Fields, i: nat)
    requires i <= |meta| && MetaPass(meta[..i], data, false).Err?
    ensures MetaPass(meta, data, false) == MetaPass(meta[..i], data, false)
  {
    assert meta[..|meta|] == meta;
    MetaPassErrUpTo(meta, data, i, |meta|);
  }

  lemma {:induction false} MetaPassErrUpTo(meta: Fields, data: Fields, i: nat, k: nat)
    requires i <= k <= |meta| && MetaPass(meta[..i], data, false).Err?
    ensures MetaPass(meta[..k], data, false) == MetaPass(meta[..i], data, false)
    decreases k - i
  {
    if i < k {
      MetaPassErrUpTo(meta, data, i, k - 1);
      MetaPassStepErr(meta, data, false, k - 1);
    }
  }
}
