/** Schema derivation: the CREATE TABLE statement, one column definition
    per field in field order. */
module Schema {
  import opened SqlText
  import opened Fields
  import opened Models

  /** One column definition: four spaces, the escaped name, a space and the
      field's own SQL type text (which carries its key and auto-increment
      clauses). */
  function Definition<V>(f: Field<V>, esc: Escaper, describe: Field<V> -> string): string
  {
    "    " + esc(f.name, FieldName) + " " + describe(f)
  }

  /** The column definitions of every field, in field order. */
  function ColumnDefinitions<V>(fs: seq<Field<V>>, esc: Escaper, describe: Field<V> -> string): (r: seq<string>)
    ensures |r| == |fs|
    ensures forall i :: 0 <= i < |fs| ==> r[i] == Definition(fs[i], esc, describe)
  {
    seq(|fs|, i requires 0 <= i < |fs| => Definition(fs[i], esc, describe))
  }

  /** A field put in front puts its definition in front. */
  lemma DefinitionsCons<V>(f: Field<V>, fs: seq<Field<V>>, esc: Escaper, describe: Field<V> -> string)
    ensures ColumnDefinitions([f] + fs, esc, describe)
         == [Definition(f, esc, describe)] + ColumnDefinitions(fs, esc, describe)
  {
  }

  /** The CREATE TABLE text around an escaped table name and a column list. */
  function CreateTableText(table: string, columns: string): string
  {
    "CREATE TABLE " + table + " (\n" + columns + "\n);"
  }

  /** The CREATE TABLE statement; the model is only read. */
  function CreateTableSql<V>(m: Model<V>, esc: Escaper, describe: Field<V> -> string): string
  {
    CreateTableText(esc(m.table, TableName), Join(ColumnDefinitions(m.fields, esc, describe), ",\n"))
  }

  /** Appending the four pieces of a definition one by one appends the definition. */
  lemma AppendDefinition<V>(text: string, f: Field<V>, esc: Escaper, describe: Field<V> -> string)
    ensures text + "    " + esc(f.name, FieldName) + " " + describe(f) == text + Definition(f, esc, describe)
  {
  }

  /** One pass of the generator's loop: the column list holds the first
      `i + 1` definitions joined by ",\n", followed by ",\n" unless the last
      field has been written. */
  lemma DefinitionsStep<V>(fs: seq<Field<V>>, esc: Escaper, describe: Field<V> -> string, i: nat, text: string)
    requires i < |fs|
    requires text == if i == 0 then "" else Join(ColumnDefinitions(fs, esc, describe)[..i], ",\n") + ",\n"
    ensures text + Definition(fs[i], esc, describe) == Join(ColumnDefinitions(fs, esc, describe)[..i + 1], ",\n")
  {
    var defs := ColumnDefinitions(fs, esc, describe);
    JoinSnoc(defs[..i], defs[i], ",\n");
    assert defs[..i + 1] == defs[..i] + [defs[i]];
  }

  /** The statement built the generator's way: for each field, the four
      pieces of its definition followed by ",\n" unless it is the last
      field, wrapped in the CREATE TABLE text. */
  method BuildCreateTable<V>(m: Model<V>, esc: Escaper, describe: Field<V> -> string) returns (sql: string)
    ensures sql == CreateTableSql(m, esc, describe)
  {
    var fs := m.fields;
    ghost var defs := ColumnDefinitions(fs, esc, describe);
    var fieldList := "";
    var i := 0;
    while i < |fs|
      invariant 0 <= i <= |fs|
      invariant fieldList == if i == 0 then "" else Join(defs[..i], ",\n") + (if i < |fs| then ",\n" else "")
    {
      AppendDefinition(fieldList, fs[i], esc, describe);
      DefinitionsStep(fs, esc, describe, i, fieldList);
      fieldList := fieldList + "    ";
      fieldList := fieldList + esc(fs[i].name, FieldName);
      fieldList := fieldList + " ";
      fieldList := fieldList + describe(fs[i]);
      if i != |fs| - 1 {
        fieldList := fieldList + ",\n";
      }
      i := i + 1;
    }
    assert defs[..|fs|] == defs;
    sql := "CREATE TABLE " + esc(m.table, TableName) + " (\n" + fieldList + "\n);";
  }

  /** On a model without a declared or known key, `Init` puts the "id"
      definition first and then every registered field's definition, in
      registration order. */
  lemma CreateTableAfterInit<V>(m: Model<V>, esc: Escaper, describe: Field<V> -> string, blank: V)
    requires Valid(m) && m.pk.None?
    requires forall i :: 0 <= i < |m.fields| ==> !m.fields[i].primaryKey
    ensures var r := Init(m, blank);
      var id := Definition(r.fields[0], esc, describe);
      && r.fields[0].name == "id"
      && CreateTableSql(r, esc, describe)
           == CreateTableText(esc(m.table, TableName),
                if |m.fields| == 0 then id else id + ",\n" + Join(ColumnDefinitions(m.fields, esc, describe), ",\n"))
  {
    var r := Init(m, blank);
    var rest := ColumnDefinitions(m.fields, esc, describe);
    var id := Definition(r.fields[0], esc, describe);
    assert r.fields == [r.fields[0]] + r.fields[1..];
    DefinitionsCons(r.fields[0], m.fields, esc, describe);
    JoinCons(id, rest, ",\n");
  }

  /** A model declaring `name` and `age` and no key: after `Init` the table
      has `id`, `name` and `age`, in that order. */
  lemma CreateTableScenario<V>(esc: Escaper, describe: Field<V> -> string, blank: V, name: Field<V>, age: Field<V>)
    requires name.name == "name" && age.name == "age"
    requires !name.primaryKey && !age.primaryKey
    ensures var r := Init(Model("person", 0, [name, age], None, []), blank);
      && r.fields == [r.fields[0], name, age]
      && r.fields[0].name == "id"
      && CreateTableSql(r, esc, describe)
           == CreateTableText(esc("person", TableName),
                Definition(r.fields[0], esc, describe) + ",\n"
                + Definition(name, esc, describe) + ",\n"
                + Definition(age, esc, describe))
  {
    var r := Init(Model("person", 0, [name, age], None, []), blank);
    assert r.fields == [r.fields[0], name, age];
    var defs := ColumnDefinitions(r.fields, esc, describe);
    assert defs[..2][..1] == [defs[0]];
    assert Join(defs[..2], ",\n") == defs[0] + ",\n" + defs[1];
    assert Join(defs, ",\n") == Join(defs[..2], ",\n") + ",\n" + defs[2];
  }
}
