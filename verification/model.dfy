/** The model object: a table name, an opaque table number, the ordered
    fields, the primary key and the buffer of batch rows, with field
    registration, primary-key resolution and the accessors. */
module Models {
  import opened Fields

  datatype Option<T> = None | Some(value: T)

  /** `pk` is the position of the primary key in `fields` (None until
      `Init` has found or created one). Each batch row is a snapshot of the
      included fields' values. */
  datatype Model<V> = Model(
    table: string,
    tableNumber: int,
    fields: seq<Field<V>>,
    pk: Option<nat>,
    batch: seq<seq<V>>)

  /** The key position, when there is one, names a field of the model. */
  predicate Valid<V>(m: Model<V>)
  {
    m.pk.Some? ==> m.pk.value < |m.fields|
  }

  /** The model has a usable primary key. */
  predicate HasKey<V>(m: Model<V>)
  {
    m.pk.Some? && m.pk.value < |m.fields|
  }

  /** The primary-key field. */
  function Pk<V>(m: Model<V>): Field<V>
    requires HasKey(m)
  {
    m.fields[m.pk.value]
  }

  /** Replaces the primary-key field, leaving every other field in place. */
  function WithKey<V>(m: Model<V>, f: Field<V>): (r: Model<V>)
    requires HasKey(m)
    ensures HasKey(r) && r.pk == m.pk && Pk(r) == f
    ensures |r.fields| == |m.fields|
    ensures forall i :: 0 <= i < |m.fields| && i != m.pk.value ==> r.fields[i] == m.fields[i]
    ensures r.table == m.table && r.tableNumber == m.tableNumber && r.batch == m.batch
  {
    m.(fields := m.fields[m.pk.value := f])
  }

  /** A new model for `table`: no fields, no key, an empty batch, table number 0. */
  function NewModel<V>(table: string): (r: Model<V>)
    ensures Valid(r) && !HasKey(r)
    ensures TableName(r) == table && TableNumber(r) == 0
    ensures FieldsCount(r) == 0 && r.batch == []
  {
    Model(table, 0, [], None, [])
  }

  function TableName<V>(m: Model<V>): string
  {
    m.table
  }

  /** Renames the backing table and changes nothing else. */
  function SetTableName<V>(m: Model<V>, table: string): (r: Model<V>)
    ensures TableName(r) == table
    ensures r.fields == m.fields && r.pk == m.pk && r.batch == m.batch
    ensures TableNumber(r) == TableNumber(m)
  {
    m.(table := table)
  }

  function TableNumber<V>(m: Model<V>): int
  {
    m.tableNumber
  }

  /** Sets the opaque table number and changes nothing else. */
  function SetTableNumber<V>(m: Model<V>, n: int): (r: Model<V>)
    ensures TableNumber(r) == n
    ensures r.fields == m.fields && r.pk == m.pk && r.batch == m.batch
    ensures TableName(r) == TableName(m)
  {
    m.(tableNumber := n)
  }

  function FieldsCount<V>(m: Model<V>): nat
  {
    |m.fields|
  }

  function FieldAt<V>(m: Model<V>, i: nat): Field<V>
    requires i < FieldsCount(m)
  {
    m.fields[i]
  }

  /** Registers a field as the last column; the key and the batch are untouched. */
  function AddField<V>(m: Model<V>, f: Field<V>): (r: Model<V>)
    ensures FieldsCount(r) == FieldsCount(m) + 1
    ensures FieldAt(r, FieldsCount(m)) == f
    ensures forall i :: 0 <= i < FieldsCount(m) ==> FieldAt(r, i) == FieldAt(m, i)
    ensures Valid(m) ==> Valid(r)
    ensures r.pk == m.pk && r.batch == m.batch && r.table == m.table && r.tableNumber == m.tableNumber
  {
    m.(fields := m.fields + [f])
  }

  /** The typed factories (string, int, double and date-time fields): build
      a fresh field of `kind` called `name`, register it, and return it. */
  function AddTypedField<V>(m: Model<V>, name: string, kind: FieldKind, blank: V): (r: (Model<V>, Field<V>))
    ensures r.0.fields == m.fields + [r.1]
    ensures r.1.name == name && r.1.kind == kind
    ensures r.1.isNull && !r.1.primaryKey && !r.1.autoIncrement && !r.1.modified
    ensures Valid(m) ==> Valid(r.0)
    ensures r.0.pk == m.pk && r.0.batch == m.batch && r.0.table == m.table && r.0.tableNumber == m.tableNumber
  {
    var f := NewField(name, kind, blank);
    (AddField(m, f), f)
  }

  /** The position of the first field flagged as primary key, if any. */
  function FirstKey<V>(fs: seq<Field<V>>): (r: Option<nat>)
    ensures r.None? <==> forall i :: 0 <= i < |fs| ==> !fs[i].primaryKey
    ensures r.Some? ==> r.value < |fs| && fs[r.value].primaryKey
    ensures r.Some? ==> forall j :: 0 <= j < r.value ==> !fs[j].primaryKey
  {
    if |fs| == 0 then None
    else if fs[0].primaryKey then Some(0)
    else match FirstKey(fs[1..])
      case None => None
      case Some(i) => Some(i + 1)
  }

  /** Resolves the primary key: adopt the first flagged field; failing that,
      when no key is known yet, create an auto-increment "id" field through
      the int factory (which appends it), prepend the key and drop the last
      field again. */
  function Init<V>(m: Model<V>, blank: V): (r: Model<V>)
    requires Valid(m)
    ensures Valid(r) && HasKey(r)
    ensures r.table == m.table && r.tableNumber == m.tableNumber && r.batch == m.batch
    // A declared key is adopted: the first one wins and the fields stay as they are.
    ensures FirstKey(m.fields).Some? ==> r.fields == m.fields && r.pk == FirstKey(m.fields)
    // No declared key and none known: exactly one new field, "id", in front.
    ensures FirstKey(m.fields).None? && m.pk.None? ==>
      && |r.fields| == |m.fields| + 1
      && r.fields[1..] == m.fields
      && r.pk == Some(0)
      && r.fields[0].name == "id" && r.fields[0].kind == IntKind
      && r.fields[0].primaryKey && r.fields[0].autoIncrement && r.fields[0].isNull
    // No declared key but one already known: nothing changes.
    ensures FirstKey(m.fields).None? && m.pk.Some? ==> r == m
  {
    var scanned := FirstKey(m.fields);
    var m1 := if scanned.Some? then m.(pk := scanned) else m;
    if m1.pk.Some? then m1
    else
      var made := AddTypedField(m1, "id", IntKind, blank);
      var key := made.1.(autoIncrement := true, primaryKey := true);
      var prepended := [key] + made.0.fields;
      assert prepended[..|prepended| - 1] == [key] + m.fields;
      made.0.(fields := prepended[..|prepended| - 1], pk := Some(0))
  }

  /** After `Init` on a model without a declared or known key, the
      synthesised "id" is the only field flagged as primary key. */
  lemma InitCreatesSingleKey<V>(m: Model<V>, blank: V)
    requires Valid(m) && m.pk.None?
    requires forall i :: 0 <= i < |m.fields| ==> !m.fields[i].primaryKey
    ensures var r := Init(m, blank);
      forall i :: 0 <= i < |r.fields| ==> (r.fields[i].primaryKey <==> i == 0)
  {
    var r := Init(m, blank);
    forall i | 0 < i < |r.fields|
      ensures !r.fields[i].primaryKey
    {
      assert r.fields[i] == r.fields[1..][i - 1] == m.fields[i - 1];
    }
  }

  /** The key `Init` settles on is flagged as primary key, and no field
      before it is, unless the key was already known and no field is flagged. */
  lemma InitKeyIsFirstFlagged<V>(m: Model<V>, blank: V)
    requires Valid(m)
    requires FirstKey(m.fields).Some? || m.pk.None?
    ensures var r := Init(m, blank);
      && Pk(r).primaryKey
      && forall j :: 0 <= j < r.pk.value ==> !r.fields[j].primaryKey
  {
  }

  /** `Init` is idempotent: the synthesised key carries the primary-key flag,
      so a second scan adopts it at position 0 and changes nothing. */
  lemma InitIdempotent<V>(m: Model<V>, blank: V)
    requires Valid(m)
    ensures Init(Init(m, blank), blank) == Init(m, blank)
  {
    var r := Init(m, blank);
    if FirstKey(m.fields).None? && m.pk.None? {
      assert FirstKey(r.fields) == Some(0);
    }
  }

  /** Registering more fields after `Init` and running it again neither
      duplicates nor moves the key: the earlier key is still the first
      flagged field, so the second scan adopts it. */
  lemma InitAgainAfterAddField<V>(m: Model<V>, f: Field<V>, blank: V)
    requires Valid(m)
    requires FirstKey(m.fields).Some? || m.pk.None?
    ensures var r := AddField(Init(m, blank), f);
      Init(r, blank) == r
  {
    var i := Init(m, blank);
    assert FirstKey(i.fields) == i.pk;
    FirstKeyAppend(i.fields, f);
  }

  /** Appending a field does not move the first flagged key, when there is one. */
  lemma {:induction false} FirstKeyAppend<V>(fs: seq<Field<V>>, f: Field<V>)
    requires FirstKey(fs).Some?
    ensures FirstKey(fs + [f]) == FirstKey(fs)
  {
    if !fs[0].primaryKey {
      assert (fs + [f])[1..] == fs[1..] + [f];
      FirstKeyAppend(fs[1..], f);
    }
  }

  /** Clears every dirty flag; names, values, the other flags, the key and
      the batch stay as they are. */
  function ResetModified<V>(m: Model<V>): (r: Model<V>)
    ensures |r.fields| == |m.fields|
    ensures forall i :: 0 <= i < |r.fields| ==> !r.fields[i].modified
    ensures forall i :: 0 <= i < |r.fields| ==>
      var f, g := r.fields[i], m.fields[i];
      f.name == g.name && f.kind == g.kind && f.data == g.data && f.isNull == g.isNull
      && f.primaryKey == g.primaryKey && f.autoIncrement == g.autoIncrement && f.isForeignKey == g.isForeignKey
    ensures r.pk == m.pk && r.batch == m.batch && r.table == m.table && r.tableNumber == m.tableNumber
  {
    m.(fields := seq(|m.fields|, i requires 0 <= i < |m.fields| => m.fields[i].(modified := false)))
  }

  /** Clearing the dirty flags twice is the same as clearing them once. */
  lemma ResetModifiedIdempotent<V>(m: Model<V>)
    ensures ResetModified(ResetModified(m)) == ResetModified(m)
  {
    var r := ResetModified(m);
    assert forall i :: 0 <= i < |r.fields| ==> r.fields[i].(modified := false) == r.fields[i];
  }

  /** Appends the foreign-key fields to `acc`, in field order (the positions
      `Select` returns ascend). */
  function ForeignKeys<V>(m: Model<V>, acc: seq<Field<V>>): (r: seq<Field<V>>)
    ensures |r| >= |acc| && r[..|acc|] == acc
    ensures forall f :: f in r[|acc|..] ==> f in m.fields && f.isForeignKey
    ensures forall i :: 0 <= i < |m.fields| && m.fields[i].isForeignKey ==> m.fields[i] in r[|acc|..]
    ensures var idx := Select(m.fields, ForeignKeyField);
      |r| == |acc| + |idx| && forall j :: 0 <= j < |idx| ==> r[|acc| + j] == m.fields[idx[j]]
  {
    var idx := Select(m.fields, ForeignKeyField);
    var added := seq(|idx|, j requires 0 <= j < |idx| => m.fields[idx[j]]);
    assert forall i :: 0 <= i < |m.fields| && m.fields[i].isForeignKey ==> m.fields[i] in added by {
      forall i | 0 <= i < |m.fields| && m.fields[i].isForeignKey
        ensures m.fields[i] in added
      {
        SelectComplete(m.fields, ForeignKeyField, i);
        var j :| 0 <= j < |idx| && idx[j] == i;
        assert added[j] == m.fields[i];
      }
    }
    assert (acc + added)[|acc|..] == added;
    acc + added
  }
}
