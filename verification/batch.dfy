/** The batch engine: snapshotting the included fields into a row, and the
    single multi-row INSERT that consumes every buffered row. */
module Batch {
  import opened SqlText
  import opened Fields
  import opened Models

  /** Positions of the fields an INSERT names (every field but a null key). */
  function Columns<V>(fs: seq<Field<V>>): seq<nat>
  {
    Select(fs, InsertColumn)
  }

  /** The escaped names of the included fields, in field order. */
  function ColumnNames<V>(fs: seq<Field<V>>, esc: Escaper): (r: seq<string>)
    ensures |r| == |Columns(fs)|
  {
    var idx := Columns(fs);
    seq(|idx|, j requires 0 <= j < |idx| => esc(fs[idx[j]].name, FieldName))
  }

  /** The current values of the included fields, in field order. */
  function Snapshot<V>(fs: seq<Field<V>>): (r: seq<V>)
    ensures |r| == |Columns(fs)|
  {
    var idx := Columns(fs);
    seq(|idx|, j requires 0 <= j < |idx| => fs[idx[j]].data)
  }

  /** Empties the batch buffer. */
  function ClearBatch<V>(m: Model<V>): (r: Model<V>)
    ensures r.batch == []
    ensures r.fields == m.fields && r.pk == m.pk && r.table == m.table && r.tableNumber == m.tableNumber
  {
    m.(batch := [])
  }

  /** Appends one snapshot row; the earlier rows and everything else stay. */
  function AddInBatch<V>(m: Model<V>): (r: Model<V>)
    ensures |r.batch| == |m.batch| + 1 && r.batch[..|m.batch|] == m.batch
    ensures var row := r.batch[|m.batch|];
      && |row| == |Columns(m.fields)|
      && forall j :: 0 <= j < |row| ==> row[j] == m.fields[Columns(m.fields)[j]].data
    ensures r.fields == m.fields && r.pk == m.pk && r.table == m.table && r.tableNumber == m.tableNumber
  {
    var b := m.batch + [Snapshot(m.fields)];
    assert b[..|m.batch|] == m.batch;
    m.(batch := b)
  }

  /** A null primary key never reaches a snapshot or a column list. */
  lemma NullKeyNotInserted<V>(m: Model<V>)
    requires HasKey(m) && Pk(m).primaryKey && Pk(m).isNull
    ensures m.pk.value !in Columns(m.fields)
  {
  }

  /** Every buffered row holds at least one value per column, so the INSERT
      can bind each of them. */
  predicate RowsFit<V>(m: Model<V>)
  {
    forall i :: 0 <= i < |m.batch| ==> |m.batch[i]| >= |Columns(m.fields)|
  }

  /** "(?, ..., ?)" with `k` placeholders. */
  function PlaceholderGroup(k: nat): string
  {
    "(" + Join(Copies("?", k), ", ") + ")"
  }

  /** The VALUES list built the generator's way: the group followed by ", ",
      repeated once per row, with the final two characters resized away. */
  function ValuesList(k: nat, rows: nat): (r: string)
    requires rows > 0
    ensures r == Join(Copies(PlaceholderGroup(k), rows), ", ")
  {
    var s := Repeat(PlaceholderGroup(k) + ", ", rows);
    RepeatTrimmedIsJoin(PlaceholderGroup(k), ", ", rows);
    s[..|s| - 2]
  }

  /** The first `k` values of every row, row after row. */
  function RowMajor<V>(rows: seq<seq<V>>, k: nat): seq<V>
    requires forall i :: 0 <= i < |rows| ==> |rows[i]| >= k
  {
    if |rows| == 0 then [] else RowMajor(rows[..|rows| - 1], k) + rows[|rows| - 1][..k]
  }

  /** Rows concatenated whole. */
  function Concat<V>(rows: seq<seq<V>>): seq<V>
  {
    if |rows| == 0 then [] else Concat(rows[..|rows| - 1]) + rows[|rows| - 1]
  }

  lemma {:induction false} RowMajorLength<V>(rows: seq<seq<V>>, k: nat)
    requires forall i :: 0 <= i < |rows| ==> |rows[i]| >= k
    ensures |RowMajor(rows, k)| == |rows| * k
  {
    if |rows| > 0 {
      RowMajorLength(rows[..|rows| - 1], k);
      assert (|rows| - 1) * k + k == |rows| * k;
    }
  }

  /** The binds of the first `p` rows are a prefix of the binds of all rows. */
  lemma {:induction false} RowMajorPrefix<V>(rows: seq<seq<V>>, k: nat, p: nat)
    requires forall i :: 0 <= i < |rows| ==> |rows[i]| >= k
    requires p <= |rows|
    ensures RowMajor(rows[..p], k) <= RowMajor(rows, k)
  {
    if p < |rows| {
      var init := rows[..|rows| - 1];
      RowMajorPrefix(init, k, p);
      assert init[..p] == rows[..p];
    } else {
      assert rows[..p] == rows;
    }
  }

  /** Value `j` of row `i` sits at position `i * k + j` of the bind list. */
  lemma RowMajorAt<V>(rows: seq<seq<V>>, k: nat, i: nat, j: nat)
    requires forall i :: 0 <= i < |rows| ==> |rows[i]| >= k
    requires i < |rows| && j < k
    ensures i * k + j < |RowMajor(rows, k)|
    ensures RowMajor(rows, k)[i * k + j] == rows[i][j]
  {
    var upto := rows[..i + 1];
    var front := RowMajor(rows[..i], k);
    assert upto[..i] == rows[..i];
    assert RowMajor(upto, k) == front + rows[i][..k];
    RowMajorLength(rows[..i], k);
    RowMajorPrefix(rows, k, i + 1);
    assert i * k + j == |front| + j;
  }

  /** The bind list has `k` values per row and value `j` of row `i` sits at
      position `i * k + j`. */
  lemma RowMajorIndex<V>(rows: seq<seq<V>>, k: nat)
    requires forall i :: 0 <= i < |rows| ==> |rows[i]| >= k
    ensures |RowMajor(rows, k)| == |rows| * k
    ensures forall i, j | 0 <= i < |rows| && 0 <= j < k ::
      i * k + j < |rows| * k && RowMajor(rows, k)[i * k + j] == rows[i][j]
  {
    RowMajorLength(rows, k);
    forall i, j | 0 <= i < |rows| && 0 <= j < k
      ensures i * k + j < |rows| * k && RowMajor(rows, k)[i * k + j] == rows[i][j]
    {
      RowMajorAt(rows, k, i, j);
    }
  }

  /** When every row is exactly `k` wide, the bind list is the plain
      concatenation of the rows. */
  lemma {:induction false} RowMajorIsConcat<V>(rows: seq<seq<V>>, k: nat)
    requires forall i :: 0 <= i < |rows| ==> |rows[i]| == k
    ensures RowMajor(rows, k) == Concat(rows)
  {
    if |rows| > 0 {
      RowMajorIsConcat(rows[..|rows| - 1], k);
      assert rows[|rows| - 1][..k] == rows[|rows| - 1];
    }
  }

  /** The multi-row INSERT for the buffered rows. */
  function InsertStatement<V>(m: Model<V>, esc: Escaper): (r: Statement<V>)
    requires |m.batch| > 0 && RowsFit(m)
    ensures var k := |Columns(m.fields)|;
      && r.sql == "INSERT INTO " + esc(m.table, TableName) + " (" + Join(ColumnNames(m.fields, esc), ", ")
                  + ") VALUES " + Join(Copies(PlaceholderGroup(k), |m.batch|), ", ") + ";"
      && |r.binds| == |m.batch| * k
      && forall i, j | 0 <= i < |m.batch| && 0 <= j < k ::
           i * k + j < |r.binds| && r.binds[i * k + j] == m.batch[i][j]
  {
    var k := |Columns(m.fields)|;
    RowMajorIndex(m.batch, k);
    Statement(
      "INSERT INTO " + esc(m.table, TableName) + " (" + Join(ColumnNames(m.fields, esc), ", ")
        + ") VALUES " + ValuesList(k, |m.batch|) + ";",
      RowMajor(m.batch, k))
  }

  /** Inserts every buffered row with one statement, then stores the driver's
      last-insert-id into the key. An empty batch emits nothing and changes
      nothing. The batch is not cleared, and the key is written whether or
      not the statement succeeded. */
  function SaveBatch<V>(m: Model<V>, esc: Escaper, lastInsertId: V): (r: (Model<V>, Option<Statement<V>>))
    requires Valid(m)
    requires |m.batch| > 0 ==> HasKey(m) && RowsFit(m)
    ensures |m.batch| == 0 ==> r == (m, None)
    ensures |m.batch| > 0 ==>
      && r.1 == Some(InsertStatement(m, esc))
      && HasKey(r.0) && r.0.pk == m.pk
      && Pk(r.0).data == lastInsertId && !Pk(r.0).isNull
      && Pk(r.0).(data := Pk(m).data, isNull := Pk(m).isNull) == Pk(m)
      && |r.0.fields| == |m.fields|
      && (forall i :: 0 <= i < |m.fields| && i != m.pk.value ==> r.0.fields[i] == m.fields[i])
      && r.0.batch == m.batch && r.0.table == m.table && r.0.tableNumber == m.tableNumber
  {
    if |m.batch| == 0 then (m, None)
    else (WithKey(m, SetRawData(Pk(m), lastInsertId)), Some(InsertStatement(m, esc)))
  }

  /** Escaped identifiers contain no `?`. */
  ghost predicate PlaceholderFree(esc: Escaper)
  {
    forall s, kind :: Placeholders(esc(s, kind)) == 0
  }

  lemma PlaceholderGroupCount(k: nat)
    ensures Placeholders(PlaceholderGroup(k)) == k
  {
    NoPlaceholders(", ");
    forall i | 0 <= i < k
      ensures Placeholders(Copies("?", k)[i]) == 1
    {
      assert "?"[..0] == "";
    }
    PlaceholdersJoin(Copies("?", k), ", ");
    PlaceholdersInUniform(Copies("?", k), 1);
    var marks := Join(Copies("?", k), ", ");
    PlaceholdersConcat("(", marks);
    PlaceholdersConcat("(" + marks, ")");
    NoPlaceholders("(");
    NoPlaceholders(")");
  }

  lemma {:induction false} ColumnNamesCount<V>(fs: seq<Field<V>>, esc: Escaper)
    requires PlaceholderFree(esc)
    ensures Placeholders(Join(ColumnNames(fs, esc), ", ")) == 0
  {
    var names := ColumnNames(fs, esc);
    NoPlaceholders(", ");
    PlaceholdersJoin(names, ", ");
    PlaceholdersInUniform(names, 0);
  }

  /** The fixed words of the INSERT text hold no placeholder. */
  lemma InsertTextCount(tbl: string, cols: string, vals: string)
    ensures Placeholders("INSERT INTO " + tbl + " (" + cols + ") VALUES " + vals + ";")
         == Placeholders(tbl) + Placeholders(cols) + Placeholders(vals)
  {
    var a := "INSERT INTO " + tbl;
    PlaceholdersConcat("INSERT INTO ", tbl);
    var b := a + " (";
    PlaceholdersConcat(a, " (");
    var c := b + cols;
    PlaceholdersConcat(b, cols);
    var d := c + ") VALUES ";
    PlaceholdersConcat(c, ") VALUES ");
    var e := d + vals;
    PlaceholdersConcat(d, vals);
    PlaceholdersConcat(e, ";");
    NoPlaceholders("INSERT INTO ");
    NoPlaceholders(" (");
    NoPlaceholders(") VALUES ");
    NoPlaceholders(";");
  }

  /** The INSERT has exactly one `?` per bound value, so every row's values
      line up with the placeholders. */
  lemma InsertPlaceholdersMatchBinds<V>(m: Model<V>, esc: Escaper)
    requires |m.batch| > 0 && RowsFit(m)
    requires PlaceholderFree(esc)
    ensures Placeholders(InsertStatement(m, esc).sql) == |InsertStatement(m, esc).binds|
  {
    var k := |Columns(m.fields)|;
    var n := |m.batch|;
    var groups := Copies(PlaceholderGroup(k), n);
    ColumnNamesCount(m.fields, esc);
    PlaceholderGroupCount(k);
    PlaceholdersJoin(groups, ", ");
    PlaceholdersInUniform(groups, k);
    InsertTextCount(esc(m.table, TableName), Join(ColumnNames(m.fields, esc), ", "), Join(groups, ", "));
  }

  /** Scanning one more field adds its escaped name exactly when it is included. */
  lemma ColumnNamesSnoc<V>(fs: seq<Field<V>>, i: nat, esc: Escaper)
    requires i < |fs|
    ensures ColumnNames(fs[..i + 1], esc)
         == ColumnNames(fs[..i], esc) + (if Included(fs[i]) then [esc(fs[i].name, FieldName)] else [])
  {
    SelectSnoc(fs, i, InsertColumn);
    var before := Columns(fs[..i]);
    assert forall j :: 0 <= j < |before| ==> fs[..i + 1][before[j]] == fs[..i][before[j]];
  }

  /** A prefix of the fields never has more columns than all of them. */
  lemma {:induction false} ColumnsGrow<V>(fs: seq<Field<V>>, j: nat)
    requires j <= |fs|
    ensures |Columns(fs[..j])| <= |Columns(fs)|
    decreases |fs| - j
  {
    if j < |fs| {
      SelectSnoc(fs, j, InsertColumn);
      ColumnsGrow(fs, j + 1);
    } else {
      assert fs[..j] == fs;
    }
  }

  /** One more `?` in the placeholder list, after a ", " unless it was empty. */
  lemma MarksStep(c: nat)
    ensures Join(Copies("?", c + 1), ", ") == (if c == 0 then "" else Join(Copies("?", c), ", ") + ", ") + "?"
  {
    JoinSnoc(Copies("?", c), "?", ", ");
    assert Copies("?", c) + ["?"] == Copies("?", c + 1);
  }

  /** The column list and the placeholder list, grown together in one pass
      over the fields with a "first" flag: a ", " goes before every entry
      but the first, and a null key is skipped. */
  method BuildColumnLists<V>(fs: seq<Field<V>>, esc: Escaper) returns (fieldList: string, placeholders: string)
    ensures fieldList == Join(ColumnNames(fs, esc), ", ")
    ensures placeholders == Join(Copies("?", |Columns(fs)|), ", ")
  {
    fieldList := "";
    placeholders := "";
    var first := true;
    ghost var names: seq<string> := [];
    var i := 0;
    assert fs[..0] == [];
    while i < |fs|
      invariant 0 <= i <= |fs|
      invariant names == ColumnNames(fs[..i], esc)
      invariant first <==> |names| == 0
      invariant fieldList == Join(names, ", ")
      invariant placeholders == Join(Copies("?", |names|), ", ")
    {
      ColumnNamesSnoc(fs, i, esc);
      if !(fs[i].primaryKey && fs[i].isNull) {
        ghost var e := esc(fs[i].name, FieldName);
        JoinSnoc(names, e, ", ");
        MarksStep(|names|);
        if !first {
          fieldList := fieldList + ", ";
          placeholders := placeholders + ", ";
        } else {
          assert "" + e == e;
        }
        fieldList := fieldList + esc(fs[i].name, FieldName);
        placeholders := placeholders + "?";
        first := false;
        names := names + [e];
      } else {
        assert names + [] == names;
      }
      i := i + 1;
    }
    assert fs[..|fs|] == fs;
  }

  /** Binds one row: a running position walks the row while the fields are
      scanned, and a null key is skipped, so the row's first k values are
      bound, k being the number of columns. */
  method BindRow<V>(fs: seq<Field<V>>, row: seq<V>) returns (binds: seq<V>)
    requires |row| >= |Columns(fs)|
    ensures binds == row[..|Columns(fs)|]
  {
    binds := [];
    var fieldIndexInBatch := 0;
    var j := 0;
    ColumnsGrow(fs, 0);
    while j < |fs|
      invariant 0 <= j <= |fs|
      invariant fieldIndexInBatch == |Columns(fs[..j])| <= |Columns(fs)|
      invariant binds == row[..fieldIndexInBatch]
    {
      SelectSnoc(fs, j, InsertColumn);
      ColumnsGrow(fs, j + 1);
      if !(fs[j].primaryKey && fs[j].isNull) {
        assert row[..fieldIndexInBatch + 1] == row[..fieldIndexInBatch] + [row[fieldIndexInBatch]];
        binds := binds + [row[fieldIndexInBatch]];
        fieldIndexInBatch := fieldIndexInBatch + 1;
      }
      j := j + 1;
    }
    assert fs[..|fs|] == fs;
  }

  /** Binds the batch row after row. */
  method BindRows<V>(fs: seq<Field<V>>, rows: seq<seq<V>>) returns (binds: seq<V>)
    requires forall i :: 0 <= i < |rows| ==> |rows[i]| >= |Columns(fs)|
    ensures binds == RowMajor(rows, |Columns(fs)|)
  {
    var k := |Columns(fs)|;
    binds := [];
    var row := 0;
    while row < |rows|
      invariant 0 <= row <= |rows|
      invariant binds == RowMajor(rows[..row], k)
    {
      var values := BindRow(fs, rows[row]);
      binds := binds + values;
      assert rows[..row + 1][..row] == rows[..row];
      row := row + 1;
    }
    assert rows[..|rows|] == rows;
  }

  /** The INSERT as the generator assembles it: the two lists, the
      placeholder group wrapped, repeated once per row and resized to drop
      the final ", ", then the bound rows. */
  method BuildInsert<V>(m: Model<V>, esc: Escaper) returns (sql: string, binds: seq<V>)
    requires |m.batch| > 0 && RowsFit(m)
    ensures Statement(sql, binds) == InsertStatement(m, esc)
  {
    var fieldList, placeholders := BuildColumnLists(m.fields, esc);
    var k := |Columns(m.fields)|;
    assert "(" + placeholders + "), " == PlaceholderGroup(k) + ", ";
    placeholders := "(" + placeholders + "), ";
    placeholders := Repeat(placeholders, |m.batch|);
    RepeatTrimmedIsJoin(PlaceholderGroup(k), ", ", |m.batch|);
    placeholders := placeholders[..|placeholders| - 2];
    assert placeholders == ValuesList(k, |m.batch|);
    sql := "INSERT INTO " + esc(m.table, TableName) + " (" + fieldList + ") VALUES " + placeholders + ";";
    binds := BindRows(m.fields, m.batch);
  }

  /** When every buffered row was snapshotted from fields with the same
      columns as now, the INSERT binds exactly those snapshots, concatenated
      in the order they were taken. */
  lemma BoundValuesComeFromSnapshots<V>(m: Model<V>, states: seq<seq<Field<V>>>, esc: Escaper)
    requires |states| > 0
    requires forall i :: 0 <= i < |states| ==> Columns(states[i]) == Columns(m.fields)
    requires m.batch == seq(|states|, i requires 0 <= i < |states| => Snapshot(states[i]))
    ensures RowsFit(m)
    ensures InsertStatement(m, esc).binds == Concat(m.batch)
  {
    var k := |Columns(m.fields)|;
    forall i | 0 <= i < |m.batch|
      ensures |m.batch[i]| == k
    {
      assert m.batch[i] == Snapshot(states[i]);
    }
    RowMajorIsConcat(m.batch, k);
  }
}
