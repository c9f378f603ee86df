# JSON editor core, modelled in Dafny

This project models the data core of a desktop JSON editor. A *model* document holds a
`__meta__` table that declares each field of a record: its type string (`str`, `int`,
`float`, `bool`, `list`, `dict`, `object` or `list[T]`) and whether it is required. The
editor loads such a model, validates records against it, creates empty records, reads
large arrays in chunks, keeps an undo/redo history, and reads and writes dotted settings.

The modules follow the source files:

- `json_value.dfy` (`JsonValue`): JSON values. A dict is an ordered list of members, so
  key order is kept as in Python. Lookup, assignment and `del` follow Python's dict rules:
  assigning an existing key keeps its place, and a new key goes last. The module also has
  Python's `isinstance` on JSON values, where a `bool` counts as an `int` but an `int` is
  not a `float`, and the string helpers the code uses (`strip`, `startswith`, slicing).
- `json_model.dfy` (`JsonModel`): `JsonModel` from json_model.py. It covers loading and
  checking `__meta__`, `validate_entry` with its exact messages, `validate_data`,
  `create_empty_entry`, `get_field_names`, `get_field_type` and `is_field_required`. A
  loaded model is never changed, so it is a value: the field specifications in table order.
- `schema_check.dfy` (`SchemaCheck`): `validate_json_schema` from json_utils.py. It is a
  method with the source's loops, proved equal to a functional definition. Its
  exceptions are modelled as `Err`.
- `array_stream.dfy` (`ArrayStream`): `stream_json_array` from json_utils.py.
  - The file's text is a parameter, and so is `raw_decode`: it either decodes one value
    using at least one character, or fails.
  - The result is every chunk the generator yields, in order, plus the exception it
    raises after them, if any.
- `history.dfy` (`History`): `HistoryManager` from json_editor.py. It is a class whose
  methods are proved against functions on the pair of stacks.
- `editor_data.dfy` (`EditorData`): two rules of json_editor.py, as an `Editor` class
  holding the entry list.
  - Loading: which list `load_data_file` takes from a loaded document.
  - Deleting: how `delete_selected` removes the selected rows, largest index first.
- `config.dfy` (`Config`): the settings object of config.py.
  - `_update_nested_dict` is the recursive merge of user settings into the defaults.
  - `get` and `set` work on dotted keys, and `get_config` forwards to `get`.
  - `Config` is a class over the settings dict; the walks are methods with loops.

Three details of the code shape the model:
- `stream_json_array` checks the file's very first character for `[`, not the first
  non-blank one, so a file that starts with a blank is "not an array".
- Validation does not recurse into nested records. A `dict` field is checked only to be
  a dict.
- Messages are the code's Portuguese texts.

## Model

| member | source | states |
|---|---|---|
| JsonModel.FieldNames | json_model.py:218-225 | the names are the declared fields, one per field, in table order |
| JsonModel.BaseType | json_model.py:105 | the base type is the longest prefix without `[`, and it ends where the first `[` is |
| JsonModel.CheckSpec | json_model.py:94-111 | a specification that is not a dict is rejected first, as such; every rejection names the field it was found on, and an accepted spec carries that name |
| JsonModel.CheckSpecAccepts | json_model.py:94-111 | a field specification loads exactly when it is a dict with a string `type` whose base type is supported and a `required` that is absent or boolean; the loaded type is that string and required is true only for `required: true` |
| JsonModel.CheckSpecRejects | json_model.py:95-111 | a dict specification without `type` fails as missing its type; a `type` that is not a string fails as such, and only then; an unsupported base type fails naming that type, and only then; a `required` that is not a boolean fails as such, and only once the type is accepted |
| JsonModel.CheckFields | json_model.py:94-111 | loading the table succeeds exactly when every field does, giving one spec per field in order |
| JsonModel.FirstBad | json_model.py:94-111 | the index found is that of a rejected field, and every field before it is accepted |
| JsonModel.CheckFieldsFirstError | json_model.py:94-111 | a failed table fails with the error of its first rejected field |
| JsonModel.ValidateMeta | json_model.py:84-111 | a meta that is not a dict or is empty is rejected; otherwise it loads exactly when every specification is well formed, and the loaded names are its keys in order |
| JsonModel.LoadModelFromDict | json_model.py:68-82 | a document without `__meta__` is rejected as such; with `__meta__` the outcome is exactly that of validating it; loading succeeds exactly when `__meta__` is present, a non-empty dict, and every specification is well formed, and then the names are its keys in order |
| JsonModel.LoadedNamesUnique | json_model.py:68-82 | a schema loaded from a dict declares each field once, in the dict's key order |
| JsonModel.MessageQuotesField | json_model.py:129-162 | every validation message names its field between single quotes |
| JsonModel.ListInner | json_model.py:150 | the item type of `list[T]` is the `T` between `list[` and the closing `]` |
| JsonModel.ItemErrorsSound | json_model.py:153-157 | each item violation names an item of the list that is not an instance of the item type, in increasing index order |
| JsonModel.ItemErrorsComplete | json_model.py:153-157 | every item that is not an instance of the item type is reported with its index |
| JsonModel.ValueErrors | json_model.py:134-157 | the type check of a present value only ever reports type violations for that field |
| JsonModel.FieldErrors | json_model.py:126-157 | the first pass over one declared field reports only about that field, and never an undefined key |
| JsonModel.DeclaredErrors | json_model.py:126-157 | the first pass reports only declared fields |
| JsonModel.ExtraErrors | json_model.py:159-162 | the second pass reports only keys the schema does not declare |
| JsonModel.ExtraErrorsReports | json_model.py:159-162 | a key is reported as undefined exactly when the entry has it and the schema does not declare it, and then once for each time it occurs among the entry's keys (once in a dict) |
| JsonModel.ExtraErrorsInKeyOrder | json_model.py:159-162 | with each key once, the undefined-key violations follow the entry's key order |
| JsonModel.ValidateEntry | json_model.py:113-164 | a violation is an undefined-key one exactly when the field it names is not declared |
| JsonModel.ViolationsOrdered | json_model.py:113-164 | declared-field violations name declared fields, undefined-key violations name undeclared keys of the entry, and all undefined-key violations come after all others |
| JsonModel.FieldErrorsIsolated | json_model.py:126-157 | with unique names, the violations naming a declared field are exactly that field's own checks, whatever the other fields hold |
| JsonModel.MissingRequiredReported | json_model.py:127-131 | a required field that is absent or `None` gets exactly the one missing-field violation and no type check |
| JsonModel.PlainTypeChecked | json_model.py:139-143 | a present value of a plain-typed field gets no violation when it is an instance of the type's class, else exactly one wrong-type violation carrying the value's type name |
| JsonModel.TypedListChecked | json_model.py:146-157 | a present value of a `list[T]` field gets one not-a-list violation when it is not a list, else the item violations for `T` (none when `T` is not a supported type) |
| JsonModel.IsInstanceQuirks | json_model.py:16-24 | as the class table is used, a boolean passes as an `int`, and an `int` or a boolean does not pass as a `float` |
| JsonModel.DeclaredErrorsAgree | json_model.py:126-157 | the first pass reads an entry only through the declared names |
| JsonModel.RemoveRequiredField | json_model.py:113-164 | removing a required field from a valid entry leaves exactly one violation, the missing one for that field |
| JsonModel.AddUndeclaredField | json_model.py:113-164 | adding an undeclared key to a valid entry leaves exactly one violation, the undefined one for that key |
| JsonModel.EntryErrors | json_model.py:178-179 | one error list per entry |
| JsonModel.EntryErrorsAt | json_model.py:178-179 | the error list at index `i` is the validation of entry `i` |
| JsonModel.ReportedEntries | json_model.py:166-183 | the report holds index `i` exactly when entry `i` has violations, and then holds those violations |
| JsonModel.ValidateData | json_model.py:166-183 | the loop builds the report of every entry with violations, indexed by position |
| JsonModel.EmptyEntryLookup | json_model.py:185-216 | in the new entry each declared field holds `None` when optional, and its type's zero value when required (nothing when the type has none) |
| JsonModel.EmptyEntryUndeclared | json_model.py:185-216 | the new entry holds no key the schema does not declare |
| JsonModel.EmptyEntryKeys | json_model.py:185-216 | when every required type has a zero value, the new entry's keys are the declared names in table order |
| JsonModel.DefaultConforms | json_model.py:199-211 | every zero value passes the type check of its type |
| JsonModel.EmptyEntryValid | json_model.py:185-216 | when every required type has a zero value, the new entry passes validation |
| JsonModel.EmptyEntryOfOddType | json_model.py:199-211 | a required field of type `str[x]` loads, gets no value in the new entry, and so the new entry fails validation with a missing-field violation |
| JsonModel.GetFieldType | json_model.py:227-239 | the result is absent exactly for an undeclared name, else a type declared for that name |
| JsonModel.IsFieldRequired | json_model.py:241-253 | an undeclared name is not required; with unique names, a name is required exactly when its field is declared required |
| SchemaCheck.TextQuotesField | json_utils.py:304-364 | every message except the missing-section one names its field between single quotes |
| SchemaCheck.ItemErrsEmpty | json_utils.py:340-354 | a list value is reported clean exactly when every item passes its item test |
| SchemaCheck.ItemErrsComplete | json_utils.py:338-354 | item `i` is reported as wrong exactly when it exists and fails its item test |
| SchemaCheck.ItemErrsOrdered | json_utils.py:338-354 | item errors come in increasing index order |
| SchemaCheck.FieldStep | json_utils.py:302-359 | one field only appends errors, all naming that field; as written, a generic mismatch can only be the very first error; it raises exactly when the spec is a dict, the value is present and not `None`, and the declared `type` is not a string |
| SchemaCheck.ExtraPass | json_utils.py:361-364 | the closing pass reports only keys that are not declared |
| SchemaCheck.Check | json_utils.py:293-366 | a schema without `__meta__` gives only the missing-section error; the function raises exactly when `__meta__` is not a dict or a field's pass raises; otherwise the errors are those of the pass over `__meta__` followed by those of the closing pass |
| SchemaCheck.MetaPassShape | json_utils.py:302-359 | the pass over `__meta__` reports only declared fields, and raises only on a non-string type |
| SchemaCheck.MetaPassPrefix | json_utils.py:302-359 | errors are only appended: the errors after part of `__meta__` begin the errors after all of it |
| SchemaCheck.MetaPassAt | json_utils.py:302-359 | the errors after field `i` are the errors before it, passed through that field's step |
| SchemaCheck.MetaPassErrSticks | json_utils.py:302-359 | once a field has raised, the whole call raises the same exception |
| SchemaCheck.MismatchOnlyFirst | json_utils.py:358-359 | as written, a generic mismatch error can only be the first error of the result |
| SchemaCheck.RequiredMissingReported | json_utils.py:307-311 | a required field that is absent or `None` is reported as missing |
| SchemaCheck.UndeclaredReported | json_utils.py:361-364 | a key of the data is reported as undeclared exactly when `__meta__` does not declare it, and then once for each time it occurs among the data's keys (once in a dict) |
| SchemaCheck.UndeclaredInKeyOrder | json_utils.py:361-364 | with each key once, the undeclared-key errors of the result follow the data's key order |
| SchemaCheck.ExtraPassReports | json_utils.py:361-364 | the closing pass reports a key exactly when the data has it and it is not declared, and then once for each time it occurs among the data's keys (once in a dict) |
| SchemaCheck.ExtraPassInKeyOrder | json_utils.py:361-364 | with each key once, the closing pass names only keys of the data, in the data's key order |
| SchemaCheck.ConformingAccepted | json_utils.py:313-359 | a present, non-`None` value that conforms to its declared string type adds no error |
| SchemaCheck.FloatAcceptsInt | json_utils.py:327-331 | an `int` value is accepted for a `float` field |
| SchemaCheck.FloatListAcceptsInts | json_utils.py:338-354 | a list of `int` and `float` values is accepted for a `list[float]` field |
| SchemaCheck.BadSpecSkipped | json_utils.py:303-305 | a field whose specification is not a dict adds exactly one invalid-spec error and nothing else |
| SchemaCheck.UndeclaredLast | json_utils.py:361-364 | every undeclared-key error comes after all other errors |
| SchemaCheck.MismatchHidden | json_utils.py:358-359 | a concrete schema and data where a present value of the wrong type is not reported at all, because a missing-field error came first |
| SchemaCheck.FieldStepReports | json_utils.py:358-359 | with the correction, an ill-typed present value always adds an error |
| SchemaCheck.IllTypedReported | json_utils.py:358-359 | with the correction, every ill-typed present value has an error naming its field |
| SchemaCheck.CheckItems | json_utils.py:338-354 | the item loop appends exactly the item errors, and its flag is set exactly when there are none |
| SchemaCheck.CheckField | json_utils.py:302-359 | the loop body for one field computes that field's step as written |
| SchemaCheck.AddUndeclared | json_utils.py:361-364 | the closing loop appends exactly the closing pass |
| SchemaCheck.ValidateJsonSchema | json_utils.py:282-366 | the method returns the errors, or raises, exactly as the functional definition says |
| ArrayStream.ChunkedFlatten | json_utils.py:72-90 | the chunks put back together are all the items, in order |
| ArrayStream.ChunkedSizes | json_utils.py:72-90 | every chunk but the last holds exactly the chunk size, the last between one and the chunk size, and there are no chunks only when there are no items |
| ArrayStream.FullChunksPrefix | json_utils.py:72-86 | before an error, what was yielded is a prefix of the decoded items, short of them by less than one chunk, in full chunks |
| ArrayStream.ChunksOf2500 | json_utils.py:72-90 | 2500 items in chunks of 1000 come out as 1000, 1000 and 500 |
| ArrayStream.ChunksOfParts | json_utils.py:72-90 | full chunks followed by a short remainder are exactly how the items are cut |
| ArrayStream.SkipBlanks | json_utils.py:60-65 | the blank skip moves forward and stays within the text |
| ArrayStream.SkipBlanksStrip | json_utils.py:60-65 | the position computed from `lstrip` is the first non-blank position from the cursor |
| ArrayStream.Scan | json_utils.py:59-86 | a fatal decode error is reported at a position inside the text, at or after the start |
| ArrayStream.ScanErrorCause | json_utils.py:81-86 | the loop raises only at a position where the decoder fails and the stripped rest does not start with `]` |
| ArrayStream.ChunkLength | json_utils.py:73 | the effective chunk size is at least one, and is `chunk_size` when that is positive |
| ArrayStream.StreamOf | json_utils.py:35-96 | a text that is empty or does not start with `[` yields nothing and fails as not an array; a decode error lies inside the stripped text |
| ArrayStream.StripKeepsBracket | json_utils.py:51-53 | after stripping, the text still starts with `[`, so the loop starts after it |
| ArrayStream.StreamErrorCause | json_utils.py:81-86 | a decode error of the stream lies where the decoder fails on the stripped text and the rest does not start with `]` |
| ArrayStream.StreamItems | json_utils.py:56-90 | without an error, the chunks hold every decoded item in order, all chunks but the last full |
| ArrayStream.StreamItemsOnError | json_utils.py:67-86 | after a decode error, the chunks yielded are full and hold a prefix of the decoded items |
| ArrayStream.StreamChunksNonEmpty | json_utils.py:72-90 | no yielded chunk is empty |
| ArrayStream.EmptyArray | json_utils.py:81-84 | `[]` yields nothing and raises nothing |
| ArrayStream.SpaceBeforeCommaFails | json_utils.py:77-79 | only a comma right after a value is skipped: in `[1 ,2]` the decoder meets the comma and the stream raises there |
| ArrayStream.TrailingCommaEnds | json_utils.py:81-84 | in `[1,]` the failed decode at `]` ends the stream quietly after one item |
| ArrayStream.JunkAfterArrayIgnored | json_utils.py:81-84 | in `[1] junk` the failed decode at `]` ends the stream quietly, and the text after it is never read |
| ArrayStream.Collect | json_utils.py:70-75 | appending an item and yielding a full chunk keeps the items in order, the pending list short of a chunk and every yielded chunk full |
| ArrayStream.DecodeLoop | json_utils.py:59-86 | the loop yields full chunks and keeps a pending remainder that together are the decoded items, and it stops at the same fatal error |
| ArrayStream.ScanFailure | json_utils.py:81-86 | when the decoder fails at the next non-blank position, the loop ends quietly exactly when the stripped rest starts with `]`, and otherwise raises at that position |
| ArrayStream.StreamJsonArray | json_utils.py:20-96 | the method yields exactly the chunks and the error of the functional definition |
| History.Record | json_editor.py:24-31 | adding forgets the undone states, keeps the bound, appends when below the bound, and the new state is the newest |
| History.Undone | json_editor.py:33-43 | undo on an empty history changes nothing and returns nothing; otherwise the newest state moves from the history onto the redo stack; no state is lost |
| History.Redone | json_editor.py:45-52 | redo with nothing undone changes nothing and returns nothing; otherwise the most recently undone state moves back onto the history and is returned; no state is lost |
| History.CanUndoIffResult | json_editor.py:54-56 | `can_undo` holds exactly when `undo` returns a state, which is the one before the newest |
| History.CanRedoIffResult | json_editor.py:58-60 | `can_redo` holds exactly when `redo` returns a state, which is the most recently undone one |
| History.RedoAfterUndo | json_editor.py:33-52 | redo after undo restores both stacks and returns the undone state |
| History.UndoAfterRedo | json_editor.py:33-52 | undo after redo restores both stacks |
| History.RecordAllKeepsLatest | json_editor.py:24-31 | adding states one after another keeps the latest `max_history` of them, oldest first |
| History.HistoryManager.constructor | json_editor.py:19-22 | both stacks start empty, under the given bound |
| History.HistoryManager.Add | json_editor.py:24-31 | the new stacks are `Record` of the old ones, and the bound is kept |
| History.HistoryManager.Undo | json_editor.py:33-43 | the new stacks and the result are `Undone` of the old stacks |
| History.HistoryManager.Redo | json_editor.py:45-52 | the new stacks and the result are `Redone` of the old stacks |
| EditorData.FirstList | json_editor.py:1080-1083 | the index found holds a list and no earlier member does; none is found only when no member holds a list |
| EditorData.Collection | json_editor.py:1076-1086 | a list is taken as it is; loading fails exactly when the document is neither a list nor a dict |
| EditorData.CollectionOfObject | json_editor.py:1079-1083 | a dict gives its first list-valued member |
| EditorData.CollectionOfRecord | json_editor.py:1084-1086 | a dict with no list-valued member becomes a list holding only that dict |
| EditorData.Editor.LoadData | json_editor.py:1076-1086 | the entry list becomes the document's collection; on failure it is unchanged |
| EditorData.DeleteAt | json_editor.py:1389-1390 | an index inside the list removes one entry; any other index changes nothing |
| EditorData.SortDesc | json_editor.py:1385 | the indices are the same, with multiplicities, ordered largest first |
| EditorData.DeleteEach | json_editor.py:1388-1390 | each index deletes at most one entry: the list loses at most as many entries as there are indices |
| EditorData.DeleteEachKept | json_editor.py:1388-1390 | deleting strictly decreasing indices one by one keeps exactly the entries not selected, in order |
| EditorData.DeleteSelectedKeeps | json_editor.py:1384-1390 | deleting the selection largest first keeps exactly the entries whose index was not selected, in their order |
| EditorData.Editor.DeleteIndices | json_editor.py:1388-1390 | the loop leaves the list the sequence of guarded deletions gives |
| EditorData.Editor.DeleteSelected | json_editor.py:1384-1390 | the new list is the old one with the selected indices deleted largest first |
| Config.Split | config.py:139 | a key splits into at least one segment, none holding a dot |
| Config.JoinSplit | config.py:139 | joining the segments with dots gives the key back |
| Config.SplitJoin | config.py:139 | dot-free segments are exactly what splitting their join gives back |
| Config.GetPath | config.py:138-145 | the empty path gives the value itself; a path through a value that is not a dict finds nothing |
| Config.GetPathAppend | config.py:141-142 | walking `p + q` is walking `p`, then `q` from where `p` ended |
| Config.Config.Get | config.py:127-145 | the value at the dotted key when the walk finds one, else the default |
| Config.GetConfig | config.py:196-207 | the shared settings' value at the dotted key, else the default |
| Config.SetPath | config.py:155-165 | a failure names a segment before the last |
| Config.SetPathTop | config.py:159-165 | `set` leaves other top-level keys alone, stores a one-segment key directly, and otherwise stores the updated dict under the first segment |
| Config.SetPathFails | config.py:159-165 | `set` fails exactly when a proper prefix of the path reaches a value that is there and is not a dict |
| Config.SetPathFresh | config.py:160-161 | under missing segments `set` creates the dicts and cannot fail |
| Config.GetAfterSet | config.py:147-165 | after a successful `set(key, v)`, `get(key)` finds `v` |
| Config.SetPathElsewhere | config.py:147-165 | a successful `set` leaves every path that leaves the key's path before its end reading as before |
| Config.SetIn | config.py:155-165 | the walk with its loop gives what the functional definition of `set` gives |
| Config.Config.Set | config.py:147-165 | the settings become the result of `set` on the old settings, or stay as they were when it raises; afterwards `get` of the key finds the value |
| Config.MergedValue | config.py:121-124 | a non-dict update value is stored as it is, and the stored value is a dict exactly when the update value is |
| Config.MergeKeys | config.py:120-125 | the merged dict holds exactly the keys of both dicts |
| Config.MergeKeeps | config.py:120-125 | keys that the update does not mention keep their values |
| Config.MergeAt | config.py:120-125 | each key of the update holds its merged value: dicts met by dicts merge recursively, everything else is overwritten |
| Config.MergeMember | config.py:121-124 | one turn of the loop stores the merged value under its key |
| Config.UpdateNested | config.py:109-125 | the loop gives the recursive merge of the update into the dict |

## Left out

- File and user I/O are not modelled: `load_model_from_file`, `save_json_with_backup`,
  `is_json_file_large`, CSV conversion, the dialogs of `load_data_file` and
  `delete_selected`, and the status bar and tree refresh. A loaded document, the file's
  text or the selected indices are parameters instead.
- `json.JSONDecoder.raw_decode` is not modelled. `StreamJsonArray` takes it as a function
  parameter, so the proofs hold for any decoder that uses at least one character per value.
- ArrayStream.StreamJsonArray: the lazy generator is modelled by everything it yields.
  Stopping early is not modelled; the consumer simply reads a prefix of the chunks.
- The `Config` singleton (`__new__`), `_load_config`, `save`, `reset`, `get_all` and the
  directory creation are not modelled. They are file I/O, or copies of the settings dict.
- Config.Config.Set and Config.UpdateNested work on dict values. The source updates the
  dicts in place, so two names for one nested dict (such as the shallow copy of
  `DEFAULT_CONFIG`) would both see the change. That aliasing is not modelled.
- Python dicts are ordered lists of members. Lemmas that need each key once (for example
  `RemoveRequiredField` and `MergeAt`) require unique keys, as every real dict has.
- Floating-point numbers are `real`. Rounding, NaN and infinities are not modelled.
- The `add_to_history` calls after loading and deleting are not modelled. They use the
  history manager, which is modelled on its own.
- EditorData.DeleteSelectedKeeps: it requires distinct indices, as the rows of one tree
  selection are. `DeleteEach` itself also models repeated indices.
- Config.Config.Get: a missing key and a type error in the walk both give the default. Other
  exceptions the source could meet on non-JSON values are not modelled.
- JsonModel.ValidateEntry and JsonModel.ValidateData: an entry is a dict. `load_data_file`
  can hand `validate_data` a list of other values (such as `[1, 2]`), where the source
  raises `TypeError` or tests substrings of a string; that behaviour is not modelled.
- JsonModel.EmptyEntryValid: it holds only when each required type has a zero value. The
  source gives none for a type such as `str[x]` that loading accepts (see
  `EmptyEntryOfOddType`).

## Findings

| source | as written | input that shows it | evidently intended | confidence | as-written member | corrected member |
|---|---|---|---|---|---|---|
| json_utils.py:358-359 | the "does not match the type" error is added only while the error list is empty, so after any earlier error (for example a missing required field) an ill-typed value is not reported at all | `__meta__` `{"a": {"type": "int", "required": true}, "b": {"type": "int"}}` with data `{"b": "x"}` gives only the missing-`a` error | avoid a duplicate message for the same field: every ill-typed present value gets an error naming its field | medium, not executed | SchemaCheck.MismatchHidden | SchemaCheck.IllTypedReported |
