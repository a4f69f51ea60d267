# QtORM model-to-SQL engine in Dafny

This project models `QModel`, the core of the QtORM object-relational
mapper. A model owns an ordered list of fields, a table name, a primary key
and a buffer of row snapshots. From these it derives four statements:

- `CREATE TABLE`;
- a multi-row `INSERT` of the buffered rows;
- a minimal `UPDATE` of the dirty fields;
- a `DELETE` by primary key.

Each operation is a pure function that returns the new model together with
the emitted statement (its SQL text and the list of bound values). Alongside
the functions there are methods that build the same text the way the C++
does: loops with a `first` flag, the placeholder group repeated and then
resized, and a running position into each batch row. Each such method is
proved equal to the declarative definition.

Modules:

- `SqlText` (`sql_text.dfy`): joining, "terminate every part then drop the
  last separator", `QString::repeated`, `?` counting, and the `Statement`
  record.
- `Fields` (`fields.dfy`): the `Field` record and its flags. Also the
  inclusion rule (a field is skipped exactly when it is a null primary key)
  and `Select`, which returns the positions of the fields that pass a test,
  in ascending order.
- `Models` (`model.dfy`): the `Model` record, the constructor state,
  setters, field registration and the typed factories. Also primary-key
  resolution (`init`), `resetModified` and `getForeignKeys`.
- `Batch` (`batch.dfy`): `clearBatch`, `addInBatch`, and `saveBatch` with
  its multi-row INSERT.
- `Persistence` (`persistence.dfy`): `save` (an insert through the batch
  path, or an UPDATE) and `remove`.
- `Schema` (`schema.dfy`): `createTableSql`.

Field values are a type parameter `V` (the source's `QVariant`). Identifier
escaping is an `Escaper` function passed to every operation, and nothing is
assumed about its output. The only exception is the placeholder-count
lemmas, which assume escaped names contain no `?`. A field's SQL type text
(`sqlDescription()`) is a `describe` function parameter. The driver's
last-insert-id is a parameter of `SaveBatch` and `Save`.

The primary key is a position in the field sequence. The plain accessors
`TableName`, `TableNumber`, `FieldsCount`, `FieldAt` and `Pk` (qmodel.cpp
lines 95-103 and 343-356) are projections. They appear in the contracts of
the setters and of `AddField`.

Two behaviours of the code are worth stating on their own:

- A second `init` after more fields were registered does not duplicate the
  key: the synthesised `id` carries the primary-key flag, so the second scan
  adopts it (`Models.InitAgainAfterAddField`).
- An UPDATE with no dirty field is still emitted, as `UPDATE t SET  WHERE k=?;`
  with an empty SET list (`Persistence.SaveAfterResetUpdatesNothing`).

## Model

| member | source | states |
|---|---|---|
| Models.NewModel | qmodel.cpp:35-53 | a new model has the given table name, table number 0, no fields, no key and an empty batch |
| Models.SetTableName | qmodel.cpp:60-63 | after renaming, the table name reads back as the new name and the fields, key, batch and table number are unchanged |
| Models.SetTableNumber | qmodel.cpp:338-346 | the table number reads back as the value set; nothing else changes |
| Models.AddField | qmodel.cpp:90-93 | the field becomes the last column, the count grows by one, earlier fields keep their positions, and the key and batch are untouched |
| Models.AddTypedField | qmodel.cpp:105-139 | the string, int, double and date-time factories append a fresh field of that kind and name and return that same field: null, not a key, not auto-increment, not modified |
| Models.FirstKey | qmodel.cpp:68-75 | the scan finds nothing exactly when no field is flagged primary key; otherwise the result is flagged and no earlier field is |
| Models.Init | qmodel.cpp:65-87 | a declared key is adopted (the first flagged field) and the fields are unchanged; with no declared or known key the fields become `[id] + old`, with `id` an int field flagged primary key and auto-increment at position 0 and exactly one more field, so the factory's append and the final remove-last cancel out; with a known key and none flagged nothing changes |
| Models.InitCreatesSingleKey | qmodel.cpp:77-87 | when no key was declared, the synthesised `id` is afterwards the only field flagged primary key |
| Models.FirstKeyAppend | qmodel.cpp:68-93 | appending a field never moves the first flagged key, when there is one |
| Models.InitKeyIsFirstFlagged | qmodel.cpp:68-75 | the key `init` settles on is flagged primary key and no field before it is |
| Models.InitIdempotent | qmodel.cpp:65-87 | running `init` twice gives the same model as running it once |
| Models.InitAgainAfterAddField | qmodel.cpp:65-93 | registering another field after `init` and running `init` again changes nothing: the key is neither duplicated nor moved |
| Models.ResetModified | qmodel.cpp:330-336 | afterwards no field is modified; names, kinds, values, null and key flags, the field count, the key, the batch and the table are unchanged |
| Models.ResetModifiedIdempotent | qmodel.cpp:330-336 | clearing the dirty flags twice equals clearing them once |
| Models.ForeignKeys | qmodel.cpp:319-328 | the caller's list is kept as a prefix; after it come exactly the foreign-key fields, one per selected position, in ascending field order |
| Fields.SelectExactly | qmodel.cpp:150-153 | a position is selected if and only if its field passes the test, as the filtering loops of `addInBatch`, `saveBatch`, `save` and `getForeignKeys` keep exactly the fields that pass |
| Fields.SelectAscending | qmodel.cpp:321-327 | the selected positions strictly ascend, so a filtered pass visits the kept fields in field order |
| Batch.ClearBatch | qmodel.cpp:141-144 | the batch becomes empty and the fields, key and table are unchanged |
| Batch.AddInBatch | qmodel.cpp:146-156 | exactly one row is appended and earlier rows are unchanged; its length is the number of fields that are not null primary keys, and entry j is the value of the j-th such field in field order |
| Batch.NullKeyNotInserted | qmodel.cpp:151-153 | a null primary key is never among the columns that are inserted or snapshotted |
| Batch.ValuesList | qmodel.cpp:187-190 | the group followed by ", ", repeated once per row and resized by two characters, is exactly the rows' groups joined by ", " with no trailing separator |
| SqlText.RepeatTrimmedIsJoin | qmodel.cpp:188-190 | for any group and separator, repeating group+separator n > 0 times and cutting off one separator gives the n groups joined by the separator |
| Batch.InsertStatement | qmodel.cpp:166-208 | the text is `INSERT INTO Esc(table) (c1, ..., ck) VALUES g, ..., g;` with one group `(?, ..., ?)` of k placeholders per buffered row; there are rows*k binds and bind i*k+j is value j of row i (row-major order) |
| Batch.RowMajorPrefix | qmodel.cpp:200-208 | the values bound for the first p rows are a prefix of the values bound for all rows |
| Batch.RowMajorIndex | qmodel.cpp:200-208 | the bind list has k values per row and value j of row i sits at position i*k+j |
| Batch.RowMajorIsConcat | qmodel.cpp:200-208 | when every row has exactly k values, the bind list is the rows concatenated one after another |
| Batch.SaveBatch | qmodel.cpp:158-217 | an empty batch emits nothing and changes nothing; otherwise it emits the multi-row INSERT, and afterwards the key holds the supplied last-insert-id and is not null, with every other attribute of the key kept. Every other field, the batch (not cleared) and the table are unchanged, whatever the execution outcome |
| Batch.InsertPlaceholdersMatchBinds | qmodel.cpp:166-208 | when escaped names contain no `?`, the INSERT text has exactly as many `?` as bound values |
| Batch.BoundValuesComeFromSnapshots | qmodel.cpp:146-208 | if every row was snapshotted while the column set was the current one, every row fits and the INSERT binds exactly those snapshots, concatenated in the order they were taken |
| Batch.BuildColumnLists | qmodel.cpp:166-185 | the single pass with the `first` flag yields the escaped included names joined by ", " and as many `?` joined by ", " |
| Batch.BindRow | qmodel.cpp:203-207 | walking the fields with a running position in the row binds exactly the row's first k values |
| Batch.BindRows | qmodel.cpp:200-208 | binding row after row yields the row-major bind list |
| Batch.BuildInsert | qmodel.cpp:166-208 | the INSERT assembled step by step, with the group wrapped, repeated and resized, is the declarative multi-row INSERT |
| Persistence.UpdateStatement | qmodel.cpp:233-265 | the text is `UPDATE Esc(table) SET ... WHERE Esc(key)=?;`; the binds are the dirty fields' values in field order followed by the key's value |
| Persistence.UpdateSetsExactlyDirty | qmodel.cpp:237-241 | a field is named in the SET list if and only if its modified flag is set |
| Persistence.Save | qmodel.cpp:219-272 | with forceInsert or a null key, the batch becomes exactly one snapshot of the fields and a one-group INSERT of the included columns is emitted, binding that snapshot; afterwards the key holds the last-insert-id and is not null, its other attributes are kept, and no other field, the table name or the table number changes. Otherwise the model is unchanged and the UPDATE is emitted |
| Persistence.Remove | qmodel.cpp:274-293 | emits `DELETE FROM Esc(table) WHERE Esc(key)=?;` with the key's value as the only bind; afterwards the key is null whatever the outcome, its other attributes are kept, and no other field, the batch or the table changes |
| Persistence.UpdatePlaceholdersMatchBinds | qmodel.cpp:251-265 | when escaped names contain no `?`, the UPDATE text has exactly as many `?` as bound values |
| Persistence.DeletePlaceholdersMatchBinds | qmodel.cpp:280-285 | when escaped names contain no `?`, the DELETE text has exactly one `?`, matching its one bind |
| Persistence.SaveAfterResetUpdatesNothing | qmodel.cpp:233-265 | after resetModified, a save of a stored row emits an UPDATE with an empty SET list that binds only the key |
| Persistence.SaveAfterRemoveInserts | qmodel.cpp:224-230 | after remove, the next plain save takes the insert path, the key is excluded from the columns, and the key then holds the new id |
| Persistence.SaveAfterInsertUpdates | qmodel.cpp:215-230 | after an insert has stored the generated key, the next plain save is an UPDATE that leaves the model unchanged |
| Persistence.BuildSetList | qmodel.cpp:234-249 | the pass with the `first` flag that skips clean fields yields the `name=?` entries of the dirty fields joined by ", " |
| Persistence.BindDirty | qmodel.cpp:259-263 | the second pass binds exactly the dirty fields' values in field order |
| Persistence.BuildUpdate | qmodel.cpp:233-265 | the UPDATE assembled step by step is the declarative UPDATE |
| Persistence.SnapshotThenRemoveMisaligns | qmodel.cpp:201-208 | a row snapshotted while the key was set and saved after remove nulled it binds the old key value to the `name` column |
| Persistence.UpdateScenario | qmodel.cpp:233-265 | for a stored row with key k where only `age` changed, save emits `UPDATE t SET age=? WHERE id=?;` with binds [age, k] |
| Persistence.InsertScenario | qmodel.cpp:224-230 | for a model with a synthesised `id`, save emits the one-row INSERT of `name` and `age` with binds [name, age], and the key then holds the generated id |
| Schema.BuildCreateTable | qmodel.cpp:295-317 | the loop that appends each definition and then ",\n" unless it is the last field builds the definitions in field order joined by ",\n", wrapped as `CREATE TABLE Esc(table) (\n...\n);` |
| Schema.CreateTableAfterInit | qmodel.cpp:295-317 | after `init` synthesises the key, the CREATE TABLE lists the `id` definition first and then every registered field's definition in registration order |
| Schema.CreateTableScenario | qmodel.cpp:295-316 | fields `name` and `age` with no declared key give, after `init`, the fields `id`, `name`, `age` and `CREATE TABLE Esc(person) (\n` + their three definitions joined by ",\n" + `\n);` |

## Left out

- Database access: `QtOrmDatabase::threadDatabase()`, the `QSqlQuery` prepare/exec/`lastError` calls and the `qDebug` logging (qmodel.cpp lines 163-164, 198, 210-213, 221-222, 257, 267-270, 284, 287-290) are not modelled. Each operation returns its statement instead of executing it. The execution outcome is not an input, because the source only logs failures and the resulting state is the same either way.
- Which connection escapes: `createTableSql` uses the default connection's driver and the other statements use the calling thread's. Both are an `Escaper` parameter here.
- Driver `escapeIdentifier`: not modelled, because it is dialect-specific. It is an uninterpreted parameter. Only the placeholder-count lemmas assume that escaped names contain no `?`.
- `QString::arg` chaining: modelled as plain concatenation. The two differ only when an escaped identifier or the column list itself contains a `%1`-style place marker, which chained `arg` calls would substitute again.
- Field classes: `QStringField`, `QIntField`, `QDoubleField`, `QDateTimeField` and `sqlDescription()` are defined in headers that are not part of this model. Kinds are tags and the type text is a `describe` parameter.
- Initial state of a new field: assumed null, not a key, not auto-increment, not modified and not a foreign key. Its value is a `blank` parameter, because that constructor is not part of this model.
- `setRawData` and `setNull` (qfield_p.h is not part of this model): `setRawData` is assumed to store the value and clear the null flag, without touching the modified flag. `setNull(true)` is assumed to set only the null flag.
- Implicit sharing of `QField` copies: the key is a position in the field sequence rather than an aliasing copy. This assumes that writing through `pk()` and through the handle a factory returns reaches the stored field. Later changes to a field's flags through such a handle are represented by building the field with those flags.
- Constructor and destructor memory management (qmodel.cpp:49-58): not modelled. Only the initial state is modelled.
- `getForeignKeys`: returns the fields themselves rather than their `QForeignKeyPrivate` pointers.
- `tableNumber`: a plain `int`. It is only stored and read back, so 32-bit width plays no part.
- Batch homogeneity: not validated, as in the source. `SaveBatch` requires every row to hold at least as many values as there are columns now (a shorter row would be read out of range in the source). Rows whose column set changed after snapshotting are accepted and bound misaligned, as `Persistence.SnapshotThenRemoveMisaligns` shows.
- Saving with no dirty field: the model emits the same empty-SET UPDATE the code emits; no statement is skipped.
- Batch.SaveBatch, Persistence.UpdateStatement, Persistence.Save, Persistence.Remove: modelled only after `init` has settled a key (`HasKey`). Before `init` the source calls `setRawData`, `isNull`, `name`, `data` and `setNull` on an unbound `QField` (qmodel.cpp lines 216, 224, 255, 265, 282, 285, 292), whose behaviour is defined in qfield_p.h, which is not part of this model.
