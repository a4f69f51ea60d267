/** Single-row persistence: `save` (an insert through the batch path, or a
    minimal UPDATE of the dirty fields) and `remove` (a DELETE by key that
    leaves the key null). */
module Persistence {
  import opened SqlText
  import opened Fields
  import opened Models
  import opened Batch

  /** Positions of the dirty fields, in field order. */
  function Dirty<V>(fs: seq<Field<V>>): seq<nat>
  {
    Select(fs, UpdateColumn)
  }

  /** The SET entries: `<escaped name>=?` for every dirty field. */
  function SetList<V>(fs: seq<Field<V>>, esc: Escaper): (r: seq<string>)
    ensures |r| == |Dirty(fs)|
  {
    var idx := Dirty(fs);
    seq(|idx|, j requires 0 <= j < |idx| => esc(fs[idx[j]].name, FieldName) + "=?")
  }

  /** The current values of the dirty fields, in field order. */
  function DirtyValues<V>(fs: seq<Field<V>>): (r: seq<V>)
    ensures |r| == |Dirty(fs)|
  {
    var idx := Dirty(fs);
    seq(|idx|, j requires 0 <= j < |idx| => fs[idx[j]].data)
  }

  /** The UPDATE of the dirty fields of the row the key identifies: one bind
      per dirty field, in field order, then the key's value for the WHERE. */
  function UpdateStatement<V>(m: Model<V>, esc: Escaper): (r: Statement<V>)
    requires HasKey(m)
    ensures r.sql == "UPDATE " + esc(m.table, TableName) + " SET " + Join(SetList(m.fields, esc), ", ")
                     + " WHERE " + esc(Pk(m).name, FieldName) + "=?;"
    ensures |r.binds| == |Dirty(m.fields)| + 1
    ensures forall j :: 0 <= j < |Dirty(m.fields)| ==> r.binds[j] == m.fields[Dirty(m.fields)[j]].data
    ensures r.binds[|Dirty(m.fields)|] == Pk(m).data
  {
    Statement(
      "UPDATE " + esc(m.table, TableName) + " SET " + Join(SetList(m.fields, esc), ", ")
        + " WHERE " + esc(Pk(m).name, FieldName) + "=?;",
      DirtyValues(m.fields) + [Pk(m).data])
  }

  /** A field is named in the SET list exactly when it is dirty. */
  lemma UpdateSetsExactlyDirty<V>(m: Model<V>, i: nat)
    requires i < |m.fields|
    ensures i in Dirty(m.fields) <==> m.fields[i].modified
  {
    SelectExactly(m.fields, UpdateColumn, i);
  }

  /** Persists the model. With `forceInsert` or a null key the batch is
      replaced by one snapshot of the fields and inserted, and the key then
      holds the driver's last-insert-id; otherwise the dirty fields are
      updated and the model is left as it is. The outcome of execution
      changes nothing. */
  function Save<V>(m: Model<V>, forceInsert: bool, esc: Escaper, lastInsertId: V): (r: (Model<V>, Option<Statement<V>>))
    requires Valid(m) && HasKey(m)
    ensures r.1.Some?
    ensures forceInsert || Pk(m).isNull ==>
      && r.0.batch == [Snapshot(m.fields)]
      && r.1.value.sql == "INSERT INTO " + esc(m.table, TableName) + " (" + Join(ColumnNames(m.fields, esc), ", ")
                          + ") VALUES " + PlaceholderGroup(|Columns(m.fields)|) + ";"
      && r.1.value.binds == Snapshot(m.fields)
      && HasKey(r.0) && r.0.pk == m.pk
      && Pk(r.0).data == lastInsertId && !Pk(r.0).isNull
      && Pk(r.0).(data := Pk(m).data, isNull := Pk(m).isNull) == Pk(m)
      && |r.0.fields| == |m.fields|
      && (forall i :: 0 <= i < |m.fields| && i != m.pk.value ==> r.0.fields[i] == m.fields[i])
      && r.0.table == m.table && r.0.tableNumber == m.tableNumber
    ensures !(forceInsert || Pk(m).isNull) ==> r.0 == m && r.1 == Some(UpdateStatement(m, esc))
  {
    if forceInsert || Pk(m).isNull then
      var one := AddInBatch(ClearBatch(m));
      assert one.batch == [Snapshot(m.fields)];
      assert Copies(PlaceholderGroup(|Columns(m.fields)|), 1) == [PlaceholderGroup(|Columns(m.fields)|)];
      RowMajorIsConcat(one.batch, |Columns(m.fields)|);
      assert Concat(one.batch) == Snapshot(m.fields) by {
        assert one.batch[..0] == [];
      }
      SaveBatch(one, esc, lastInsertId)
    else
      (m, Some(UpdateStatement(m, esc)))
  }

  /** Deletes the row the key identifies and marks the key null, whether or
      not the deletion succeeded; no other field changes. */
  function Remove<V>(m: Model<V>, esc: Escaper): (r: (Model<V>, Statement<V>))
    requires HasKey(m)
    ensures r.1.sql == "DELETE FROM " + esc(m.table, TableName) + " WHERE " + esc(Pk(m).name, FieldName) + "=?;"
    ensures r.1.binds == [Pk(m).data]
    ensures HasKey(r.0) && r.0.pk == m.pk && Pk(r.0).isNull
    ensures Pk(r.0) == Pk(m).(isNull := true)
    ensures |r.0.fields| == |m.fields|
    ensures forall i :: 0 <= i < |m.fields| && i != m.pk.value ==> r.0.fields[i] == m.fields[i]
    ensures r.0.batch == m.batch && r.0.table == m.table && r.0.tableNumber == m.tableNumber
  {
    var sql := "DELETE FROM " + esc(m.table, TableName) + " WHERE " + esc(Pk(m).name, FieldName) + "=?;";
    (WithKey(m, Pk(m).(isNull := true)), Statement(sql, [Pk(m).data]))
  }

  /** The fixed words of the UPDATE text hold no placeholder but the WHERE one. */
  lemma UpdateTextCount(tbl: string, sets: string, key: string)
    ensures Placeholders("UPDATE " + tbl + " SET " + sets + " WHERE " + key + "=?;")
         == Placeholders(tbl) + Placeholders(sets) + Placeholders(key) + 1
  {
    var a := "UPDATE " + tbl;
    PlaceholdersConcat("UPDATE ", tbl);
    var b := a + " SET ";
    PlaceholdersConcat(a, " SET ");
    var c := b + sets;
    PlaceholdersConcat(b, sets);
    var d := c + " WHERE ";
    PlaceholdersConcat(c, " WHERE ");
    var e := d + key;
    PlaceholdersConcat(d, key);
    PlaceholdersConcat(e, "=?;");
    KeyConditionCount();
    NoPlaceholders("UPDATE ");
    NoPlaceholders(" SET ");
    NoPlaceholders(" WHERE ");
  }

  /** The fixed words of the DELETE text hold no placeholder but the WHERE one. */
  lemma DeleteTextCount(tbl: string, key: string)
    ensures Placeholders("DELETE FROM " + tbl + " WHERE " + key + "=?;")
         == Placeholders(tbl) + Placeholders(key) + 1
  {
    var a := "DELETE FROM " + tbl;
    PlaceholdersConcat("DELETE FROM ", tbl);
    var b := a + " WHERE ";
    PlaceholdersConcat(a, " WHERE ");
    var c := b + key;
    PlaceholdersConcat(b, key);
    PlaceholdersConcat(c, "=?;");
    KeyConditionCount();
    NoPlaceholders("DELETE FROM ");
    NoPlaceholders(" WHERE ");
  }

  /** The UPDATE has exactly one `?` per bound value. */
  lemma UpdatePlaceholdersMatchBinds<V>(m: Model<V>, esc: Escaper)
    requires HasKey(m)
    requires PlaceholderFree(esc)
    ensures Placeholders(UpdateStatement(m, esc).sql) == |UpdateStatement(m, esc).binds|
  {
    var sets := SetList(m.fields, esc);
    forall j | 0 <= j < |sets|
      ensures Placeholders(sets[j]) == 1
    {
      assert "=?"[..1] == "=";
      PlaceholdersConcat(esc(m.fields[Dirty(m.fields)[j]].name, FieldName), "=?");
    }
    NoPlaceholders(", ");
    PlaceholdersJoin(sets, ", ");
    PlaceholdersInUniform(sets, 1);
    UpdateTextCount(esc(m.table, TableName), Join(sets, ", "), esc(Pk(m).name, FieldName));
  }

  /** The DELETE has exactly one `?`, for its one bound value. */
  lemma DeletePlaceholdersMatchBinds<V>(m: Model<V>, esc: Escaper)
    requires HasKey(m)
    requires PlaceholderFree(esc)
    ensures Placeholders(Remove(m, esc).1.sql) == |Remove(m, esc).1.binds| == 1
  {
    DeleteTextCount(esc(m.table, TableName), esc(Pk(m).name, FieldName));
  }

  /** After the dirty flags are cleared, an update names no column: the SET
      list is empty and only the key is bound. */
  lemma SaveAfterResetUpdatesNothing<V>(m: Model<V>, esc: Escaper, lastInsertId: V)
    requires Valid(m) && HasKey(m) && !Pk(m).isNull
    ensures var r := ResetModified(m);
      Save(r, false, esc, lastInsertId).1 == Some(Statement(
        "UPDATE " + esc(m.table, TableName) + " SET  WHERE " + esc(Pk(m).name, FieldName) + "=?;",
        [Pk(m).data]))
  {
    var r := ResetModified(m);
    SelectNone(r.fields, UpdateColumn);
    assert Join(SetList(r.fields, esc), ", ") == "";
    assert DirtyValues(r.fields) + [Pk(r).data] == [Pk(m).data];
    var tbl, key := esc(m.table, TableName), esc(Pk(m).name, FieldName);
    assert "UPDATE " + tbl + " SET " + "" + " WHERE " + key + "=?;"
        == "UPDATE " + tbl + " SET  WHERE " + key + "=?;";
  }

  /** A removed model is detached: the next plain save inserts it again, and
      the key (still flagged, now null) is not among the inserted columns. */
  lemma SaveAfterRemoveInserts<V>(m: Model<V>, esc: Escaper, lastInsertId: V)
    requires Valid(m) && HasKey(m) && Pk(m).primaryKey
    ensures var d := Remove(m, esc).0;
      && m.pk.value !in Columns(d.fields)
      && Save(d, false, esc, lastInsertId).0.batch == [Snapshot(d.fields)]
      && Pk(Save(d, false, esc, lastInsertId).0).data == lastInsertId
  {
    var d := Remove(m, esc).0;
    NullKeyNotInserted(d);
  }

  /** Once an insert has stored the generated key, the next plain save is an
      UPDATE and leaves the model unchanged. */
  lemma SaveAfterInsertUpdates<V>(m: Model<V>, esc: Escaper, id: V, id2: V)
    requires Valid(m) && HasKey(m)
    ensures var s := Save(m, true, esc, id).0;
      && Save(s, false, esc, id2).0 == s
      && Save(s, false, esc, id2).1 == Some(UpdateStatement(s, esc))
  {
  }

  /** Scanning one more field adds its SET entry exactly when it is dirty. */
  lemma SetListSnoc<V>(fs: seq<Field<V>>, i: nat, esc: Escaper)
    requires i < |fs|
    ensures SetList(fs[..i + 1], esc)
         == SetList(fs[..i], esc) + (if fs[i].modified then [esc(fs[i].name, FieldName) + "=?"] else [])
  {
    SelectSnoc(fs, i, UpdateColumn);
    var before := Dirty(fs[..i]);
    assert forall j :: 0 <= j < |before| ==> fs[..i + 1][before[j]] == fs[..i][before[j]];
  }

  /** Scanning one more field binds its value exactly when it is dirty. */
  lemma DirtyValuesSnoc<V>(fs: seq<Field<V>>, i: nat)
    requires i < |fs|
    ensures DirtyValues(fs[..i + 1]) == DirtyValues(fs[..i]) + (if fs[i].modified then [fs[i].data] else [])
  {
    SelectSnoc(fs, i, UpdateColumn);
    var before := Dirty(fs[..i]);
    assert forall j :: 0 <= j < |before| ==> fs[..i + 1][before[j]] == fs[..i][before[j]];
  }

  /** One step of the SET-list pass: from a list that describes the first
      `i` fields, a dirty field `i` adds `name=?`, after a ", " unless the
      list was empty, and a clean one adds nothing. */
  lemma SetListStep<V>(fs: seq<Field<V>>, i: nat, esc: Escaper, values: string)
    requires i < |fs|
    requires values == Join(SetList(fs[..i], esc), ", ")
    ensures var c := |Dirty(fs[..i])|;
      if fs[i].modified then
        && |Dirty(fs[..i + 1])| == c + 1
        && (if c == 0 then values else values + ", ") + esc(fs[i].name, FieldName) + "=?"
             == Join(SetList(fs[..i + 1], esc), ", ")
      else
        && |Dirty(fs[..i + 1])| == c
        && values == Join(SetList(fs[..i + 1], esc), ", ")
  {
    SelectSnoc(fs, i, UpdateColumn);
    SetListSnoc(fs, i, esc);
    var sets := SetList(fs[..i], esc);
    var e := esc(fs[i].name, FieldName) + "=?";
    if fs[i].modified {
      JoinSnoc(sets, e, ", ");
      assert "" + e == e;
      AppendSetEntry(if |sets| == 0 then values else values + ", ", esc(fs[i].name, FieldName));
    } else {
      assert sets + [] == sets;
    }
  }

  /** Appending a name and then `=?` appends the SET entry. */
  lemma AppendSetEntry(text: string, name: string)
    ensures text + name + "=?" == text + (name + "=?")
  {
  }

  /** The SET list, grown in one pass over the fields with a "first" flag:
      clean fields are skipped, and a ", " goes before every entry but the first. */
  method BuildSetList<V>(fs: seq<Field<V>>, esc: Escaper) returns (values: string)
    ensures values == Join(SetList(fs, esc), ", ")
  {
    values := "";
    var first := true;
    var i := 0;
    assert fs[..0] == [];
    while i < |fs|
      invariant 0 <= i <= |fs|
      invariant first <==> |Dirty(fs[..i])| == 0
      invariant values == Join(SetList(fs[..i], esc), ", ")
    {
      SetListStep(fs, i, esc, values);
      if fs[i].modified {
        if !first {
          values := values + ", ";
        }
        values := values + esc(fs[i].name, FieldName);
        values := values + "=?";
        first := false;
      }
      i := i + 1;
    }
    assert fs[..|fs|] == fs;
  }

  /** Binds the dirty fields' values in a second pass over the fields. */
  method BindDirty<V>(fs: seq<Field<V>>) returns (binds: seq<V>)
    ensures binds == DirtyValues(fs)
  {
    binds := [];
    var i := 0;
    while i < |fs|
      invariant 0 <= i <= |fs|
      invariant binds == DirtyValues(fs[..i])
    {
      DirtyValuesSnoc(fs, i);
      if fs[i].modified {
        binds := binds + [fs[i].data];
      }
      i := i + 1;
    }
    assert fs[..|fs|] == fs;
  }

  /** The UPDATE as the generator assembles it: the SET list, the key's
      name in the WHERE clause, the dirty values and the key's value last. */
  method BuildUpdate<V>(m: Model<V>, esc: Escaper) returns (sql: string, binds: seq<V>)
    requires HasKey(m)
    ensures Statement(sql, binds) == UpdateStatement(m, esc)
  {
    var values := BuildSetList(m.fields, esc);
    sql := "UPDATE " + esc(m.table, TableName) + " SET " + values + " WHERE " + esc(Pk(m).name, FieldName) + "=?;";
    binds := BindDirty(m.fields);
    binds := binds + [Pk(m).data];
  }

  /** A row buffered while the key was set and saved after `remove` nulled
      it is misaligned: the column list loses the key but the row keeps the
      key's value in front, so that value is bound to the "name" column. */
  lemma SnapshotThenRemoveMisaligns(esc: Escaper)
    ensures
      var id := Field("id", IntKind, 5, false, true, true, false, false);
      var name := Field("name", StringKind, 7, false, false, false, false, false);
      var d := Remove(AddInBatch(Model("t", 0, [id, name], Some(0), [])), esc).0;
      && d.batch == [[5, 7]]
      && Columns(d.fields) == [1]
      && RowsFit(d)
      && SaveBatch(d, esc, 9).1.value.binds == [5]
  {
    var id := Field("id", IntKind, 5, false, true, true, false, false);
    var name := Field("name", StringKind, 7, false, false, false, false, false);
    var m := Model("t", 0, [id, name], Some(0), []);
    KeyThenField(id, name);
    var d := Remove(AddInBatch(m), esc).0;
    assert d.fields == [id.(isNull := true), name];
    KeyThenField(id.(isNull := true), name);
    assert d.batch == [[5, 7]];
    assert RowMajor(d.batch, 1) == [5] by {
      assert d.batch[..0] == [];
    }
  }

  /** The columns of a key followed by an ordinary field: the key's position
      only while the key is not null. */
  lemma KeyThenField<V>(k: Field<V>, n: Field<V>)
    requires k.primaryKey && !n.primaryKey
    ensures Columns([k, n]) == if k.isNull then [1] else [0, 1]
    ensures !k.isNull ==> Snapshot([k, n]) == [k.data, n.data]
  {
    var fs := [k, n];
    SelectSnoc(fs, 0, InsertColumn);
    SelectSnoc(fs, 1, InsertColumn);
    assert fs[..2] == fs;
  }

  /** Updating a stored row after changing only `age`: the SET list names
      `age` alone, and the binds are the new age then the key. */
  lemma UpdateScenario<V>(esc: Escaper, key: V, name: V, age: V)
    ensures
      var id := Field("id", IntKind, key, false, true, true, false, false);
      var n := Field("name", StringKind, name, false, false, false, false, false);
      var a := Field("age", IntKind, age, false, false, false, true, false);
      var m := Model("person", 0, [id, n, a], Some(0), []);
      Save(m, false, esc, key).1 == Some(Statement(
        "UPDATE " + esc("person", TableName) + " SET " + esc("age", FieldName) + "=? WHERE "
          + esc("id", FieldName) + "=?;",
        [age, key]))
  {
    var id := Field("id", IntKind, key, false, true, true, false, false);
    var n := Field("name", StringKind, name, false, false, false, false, false);
    var a := Field("age", IntKind, age, false, false, false, true, false);
    var fs := [id, n, a];
    OnlyLastDirty(id, n, a);
    var e := esc("age", FieldName) + "=?";
    assert SetList(fs, esc) == [e];
    assert Join([e], ", ") == e;
    var m := Model("person", 0, fs, Some(0), []);
    assert UpdateStatement(m, esc).binds == [age] + [key] == [age, key];
    var tbl, col, k := esc("person", TableName), esc("age", FieldName), esc("id", FieldName);
    assert UpdateStatement(m, esc).sql == "UPDATE " + tbl + " SET " + (col + "=?") + " WHERE " + k + "=?;";
    UpdateTextOfOne(tbl, col, k);
  }

  /** When only the last of three fields is dirty, the UPDATE sets it alone. */
  lemma OnlyLastDirty<V>(k: Field<V>, n: Field<V>, a: Field<V>)
    requires !k.modified && !n.modified && a.modified
    ensures Dirty([k, n, a]) == [2]
    ensures DirtyValues([k, n, a]) == [a.data]
  {
    var fs := [k, n, a];
    SelectSnoc(fs, 0, UpdateColumn);
    SelectSnoc(fs, 1, UpdateColumn);
    SelectSnoc(fs, 2, UpdateColumn);
    assert fs[..3] == fs;
  }

  /** The UPDATE text for one dirty column, regrouped. */
  lemma UpdateTextOfOne(tbl: string, col: string, key: string)
    ensures "UPDATE " + tbl + " SET " + (col + "=?") + " WHERE " + key + "=?;"
         == "UPDATE " + tbl + " SET " + col + "=? WHERE " + key + "=?;"
  {
  }

  /** Saving a new row of a model with a synthesised key: a one-row INSERT
      of `name` and `age` only, after which the key holds the generated id. */
  lemma InsertScenario<V>(esc: Escaper, blank: V, name: V, age: V, generated: V)
    ensures
      var n := Field("name", StringKind, name, false, false, false, true, false);
      var a := Field("age", IntKind, age, false, false, false, false, false);
      var m := Init(Model("person", 0, [n, a], None, []), blank);
      var r := Save(m, false, esc, generated);
      && r.1 == Some(Statement(
           "INSERT INTO " + esc("person", TableName) + " (" + esc("name", FieldName) + ", " + esc("age", FieldName)
             + ") VALUES (?, ?);",
           [name, age]))
      && Pk(r.0).data == generated && !Pk(r.0).isNull
  {
    var n := Field("name", StringKind, name, false, false, false, true, false);
    var a := Field("age", IntKind, age, false, false, false, false, false);
    var m := Init(Model("person", 0, [n, a], None, []), blank);
    var fs := m.fields;
    assert fs == [fs[0], n, a] by {
      assert fs[1..] == [n, a];
    }
    NullKeyFirst(fs[0], n, a);
    var cn, ca := esc("name", FieldName), esc("age", FieldName);
    assert ColumnNames(fs, esc) == [cn, ca];
    assert Join([cn, ca], ", ") == cn + ", " + ca by {
      assert [cn, ca][..1] == [cn];
    }
    GroupOfTwo();
    InsertTextOfTwo(esc("person", TableName), cn, ca);
  }

  /** With a null key in front of two ordinary fields, the INSERT names the
      two fields and snapshots their values. */
  lemma NullKeyFirst<V>(k: Field<V>, n: Field<V>, a: Field<V>)
    requires k.primaryKey && k.isNull && !n.primaryKey && !a.primaryKey
    ensures Columns([k, n, a]) == [1, 2]
    ensures Snapshot([k, n, a]) == [n.data, a.data]
  {
    var fs := [k, n, a];
    SelectSnoc(fs, 0, InsertColumn);
    SelectSnoc(fs, 1, InsertColumn);
    SelectSnoc(fs, 2, InsertColumn);
    assert fs[..3] == fs;
  }

  /** A group of two placeholders reads `(?, ?)`. */
  lemma GroupOfTwo()
    ensures PlaceholderGroup(2) == "(?, ?)"
  {
    assert Copies("?", 2) == ["?", "?"];
    assert Copies("?", 2)[..1] == ["?"];
  }

  /** The INSERT text for two columns, regrouped. */
  lemma InsertTextOfTwo(tbl: string, cn: string, ca: string)
    ensures "INSERT INTO " + tbl + " (" + (cn + ", " + ca) + ") VALUES " + "(?, ?)" + ";"
         == "INSERT INTO " + tbl + " (" + cn + ", " + ca + ") VALUES (?, ?);"
  {
  }
}
