/** The field surface the model relies on: a named, typed value slot with
    the null, key, auto-increment, dirty and foreign-key flags, and the
    selection of field positions by a flag test. The field classes
    themselves (their storage and SQL type text) stay abstract. */
module Fields {

  /** The scalar kinds the typed factories create. */
  datatype FieldKind = StringKind | IntKind | DoubleKind | DateTimeKind

  /** One column of a model: its name, kind, current value and flags. */
  datatype Field<V> = Field(
    name: string,
    kind: FieldKind,
    data: V,
    isNull: bool,
    primaryKey: bool,
    autoIncrement: bool,
    modified: bool,
    isForeignKey: bool)

  /** A freshly constructed typed field: null, unmodified, not a key. */
  function NewField<V>(name: string, kind: FieldKind, blank: V): Field<V>
  {
    Field(name, kind, blank, true, false, false, false, false)
  }

  /** A field takes part in INSERT column lists and batch snapshots unless
      it is a primary key whose value is still null (the database assigns it). */
  predicate Included<V>(f: Field<V>)
  {
    !(f.primaryKey && f.isNull)
  }

  /** A field takes part in an UPDATE exactly when it is dirty. */
  predicate IsModified<V>(f: Field<V>)
  {
    f.modified
  }

  /** Fields that reference another model's table. */
  predicate IsForeignKey<V>(f: Field<V>)
  {
    f.isForeignKey
  }

  /** The field tests the model selects positions by. */
  datatype Criterion = InsertColumn | UpdateColumn | ForeignKeyField

  predicate Passes<V>(c: Criterion, f: Field<V>)
  {
    match c
    case InsertColumn => Included(f)
    case UpdateColumn => IsModified(f)
    case ForeignKeyField => IsForeignKey(f)
  }

  /** Stores a value read back from the driver; the field is no longer null. */
  function SetRawData<V>(f: Field<V>, v: V): Field<V>
  {
    f.(data := v, isNull := false)
  }

  /** Positions of the fields of `fs` that pass the test `c`, in ascending order. */
  function Select<V>(fs: seq<Field<V>>, c: Criterion): (r: seq<nat>)
    ensures |r| <= |fs|
    ensures forall j :: 0 <= j < |r| ==> r[j] < |fs| && Passes(c, fs[r[j]])
  {
    if |fs| == 0 then []
    else
      var init := Select(fs[..|fs| - 1], c);
      if Passes(c, fs[|fs| - 1]) then init + [|fs| - 1] else init
  }

  /** The selected positions ascend: the selection keeps field order. */
  lemma {:induction false} SelectAscending<V>(fs: seq<Field<V>>, c: Criterion, j: nat, l: nat)
    requires j < l < |Select(fs, c)|
    ensures Select(fs, c)[j] < Select(fs, c)[l]
  {
    var init := Select(fs[..|fs| - 1], c);
    if l < |init| {
      SelectAscending(fs[..|fs| - 1], c, j, l);
    }
  }

  /** Every position that passes the test is selected. */
  lemma {:induction false} SelectComplete<V>(fs: seq<Field<V>>, c: Criterion, i: nat)
    requires i < |fs| && Passes(c, fs[i])
    ensures i in Select(fs, c)
  {
    if i < |fs| - 1 {
      SelectComplete(fs[..|fs| - 1], c, i);
    }
  }

  /** A position is selected exactly when its field passes the test. */
  lemma SelectExactly<V>(fs: seq<Field<V>>, c: Criterion, i: nat)
    requires i < |fs|
    ensures i in Select(fs, c) <==> Passes(c, fs[i])
  {
    if Passes(c, fs[i]) {
      SelectComplete(fs, c, i);
    }
  }

  /** Scanning one more field extends the selection by that field's position
      exactly when it passes the test. */
  lemma SelectSnoc<V>(fs: seq<Field<V>>, i: nat, c: Criterion)
    requires i < |fs|
    ensures Select(fs[..i + 1], c) == Select(fs[..i], c) + (if Passes(c, fs[i]) then [i] else [])
  {
    assert fs[..i + 1][..i] == fs[..i];
  }

  /** A test that no field passes selects nothing. */
  lemma SelectNone<V>(fs: seq<Field<V>>, c: Criterion)
    requires forall i :: 0 <= i < |fs| ==> !Passes(c, fs[i])
    ensures Select(fs, c) == []
  {
  }
}
