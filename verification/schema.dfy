/**
 * Table layouts of src/schema.rs: a column is an `int` (4 bytes) or a fixed-length
 * string; a row lays its columns out back to back in declaration order. A database
 * schema maps table names to table layouts.
 */
module Schema {
  import opened Optional

  datatype ColumnKind = String(length: nat) | Int

  datatype Column = Column(name: string, kind: ColumnKind)

  datatype TableSchema = TableSchema(columns: seq<Column>)

  /** `Column::size`: bytes a column takes in a row. */
  function ColumnSize(c: Column): nat {
    match c.kind
    case Int => 4
    case String(length) => length
  }

  /** Total size of `cs` laid out back to back. */
  function SizeOf(cs: seq<Column>): nat
    decreases |cs|
  {
    if |cs| == 0 then 0 else SizeOf(cs[..|cs| - 1]) + ColumnSize(cs[|cs| - 1])
  }

  /** Sizes add up over concatenation. */
  lemma {:induction false} SizeOfAppend(a: seq<Column>, b: seq<Column>)
    ensures SizeOf(a + b) == SizeOf(a) + SizeOf(b)
    decreases |b|
  {
    if |b| == 0 {
      assert a + b == a;
    } else {
      var ab := a + b;
      assert ab[..|ab| - 1] == a + b[..|b| - 1];
      assert ab[|ab| - 1] == b[|b| - 1];
      SizeOfAppend(a, b[..|b| - 1]);
    }
  }

  /** `TableSchema::size`: the sum of the column sizes. */
  function Size(s: TableSchema): (r: nat)
    ensures forall i :: 0 <= i < |s.columns| ==> ColumnSize(s.columns[i]) <= r
  {
    forall i | 0 <= i < |s.columns|
      ensures ColumnSize(s.columns[i]) <= SizeOf(s.columns)
    {
      ColumnWithin(s.columns, i);
    }
    SizeOf(s.columns)
  }

  /** A column starts after the columns before it and ends within the row. */
  lemma {:induction false} ColumnWithin(cs: seq<Column>, i: nat)
    requires i < |cs|
    ensures SizeOf(cs[..i]) + ColumnSize(cs[i]) <= SizeOf(cs)
  {
    assert cs == cs[..i + 1] + cs[i + 1..];
    SizeOfAppend(cs[..i + 1], cs[i + 1..]);
    assert cs[..i + 1][..i] == cs[..i];
  }

  /** Position of the first column called `name`, if any. */
  function FirstIndex(cs: seq<Column>, name: string): (r: Option<nat>)
    ensures r.None? <==> forall i :: 0 <= i < |cs| ==> cs[i].name != name
    ensures r.Some? ==> r.value < |cs| && cs[r.value].name == name
    ensures r.Some? ==> forall j :: 0 <= j < r.value ==> cs[j].name != name
    decreases |cs|
  {
    if |cs| == 0 then None
    else if cs[0].name == name then Some(0)
    else
      match FirstIndex(cs[1..], name)
      case None => None
      case Some(i) => Some(i + 1)
  }

  /**
   * `TableSchema::offset`: the sum of the sizes of the columns before the first one
   * called `name`, or `None` when no column is.
   */
  method Offset(s: TableSchema, name: string) returns (r: Option<nat>)
    ensures r.None? <==> forall i :: 0 <= i < |s.columns| ==> s.columns[i].name != name
    ensures r.Some? ==> FirstIndex(s.columns, name).Some? && r.value == SizeOf(s.columns[..FirstIndex(s.columns, name).value])
  {
    var total := 0;
    var k := 0;
    while k < |s.columns|
      invariant 0 <= k <= |s.columns|
      invariant forall j :: 0 <= j < k ==> s.columns[j].name != name
      invariant total == SizeOf(s.columns[..k])
    {
      if s.columns[k].name == name {
        return Some(total);
      }
      assert s.columns[..k + 1][..k] == s.columns[..k];
      total := total + ColumnSize(s.columns[k]);
      k := k + 1;
    }
    return None;
  }

  /** A present column's offset plus its size is within the row size. */
  lemma {:induction false} OffsetWithinSize(s: TableSchema, name: string)
    requires FirstIndex(s.columns, name).Some?
    ensures var i := FirstIndex(s.columns, name).value;
      SizeOf(s.columns[..i]) + ColumnSize(s.columns[i]) <= Size(s)
  {
    ColumnWithin(s.columns, FirstIndex(s.columns, name).value);
  }

  /** Every column's own name has an offset, the first occurrence's with duplicates. */
  lemma {:induction false} EveryColumnHasOffset(s: TableSchema, i: nat)
    requires i < |s.columns|
    ensures FirstIndex(s.columns, s.columns[i].name).Some?
    ensures FirstIndex(s.columns, s.columns[i].name).value <= i
  {
  }

  datatype DatabaseSchema = DatabaseSchema(tables: map<string, TableSchema>)

  /** `DatabaseSchema::get_table_schema`. */
  function GetTableSchema(db: DatabaseSchema, name: string): (r: Option<TableSchema>)
    ensures r.Some? <==> name in db.tables
    ensures r.Some? ==> r.value == db.tables[name]
  {
    if name in db.tables then Some(db.tables[name]) else None
  }

  /** `DatabaseSchema::add_table`: `name` now maps to `schema`, replacing any earlier layout. */
  function AddTable(db: DatabaseSchema, name: string, schema: TableSchema): (r: DatabaseSchema)
    ensures r.tables.Keys == db.tables.Keys + {name}
  {
    DatabaseSchema(db.tables[name := schema])
  }

  /** Looking a table up after adding it finds the new layout; other names are unaffected. */
  lemma {:induction false} GetAfterAdd(db: DatabaseSchema, name: string, schema: TableSchema, other: string)
    ensures GetTableSchema(AddTable(db, name, schema), name) == Some(schema)
    ensures other != name ==> GetTableSchema(AddTable(db, name, schema), other) == GetTableSchema(db, other)
  {
  }

  /** `DatabaseSchema::list_tables`: every table name once, in no particular order. */
  method ListTables(db: DatabaseSchema) returns (r: seq<string>)
    ensures forall n :: n in r <==> n in db.tables
    ensures |r| == |db.tables.Keys|
  {
    r := [];
    var remaining := db.tables.Keys;
    while remaining != {}
      invariant remaining <= db.tables.Keys
      invariant forall n :: n in r <==> n in db.tables && n !in remaining
      invariant |r| + |remaining| == |db.tables.Keys|
      decreases |remaining|
    {
      var n :| n in remaining;
      r := r + [n];
      remaining := remaining - {n};
    }
  }
}
