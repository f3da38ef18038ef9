/** The staging tables the importer drives (the bulkup library is not part
    of this model; only the behaviour the importer relies on is): a table
    maps the key fields a row was requested with to the fields set on it. */
module Staging {
  import opened Wrappers

  /** A field value as the importer stages it. */
  datatype Value = Null | Str(s: string) | Bool(b: bool) | Int(n: int) | Num(x: real) | Tuple(items: seq<Value>)

  /** Named field values: the keyword arguments of `get` and `set`. */
  type Record = map<string, Value>

  /** The keyword arguments of a one-field and a two-field `get`. */
  function Key1(name: string, value: Value): Record
  {
    map[name := value]
  }

  function Key2(name1: string, value1: Value, name2: string, value2: Value): Record
  {
    map[name1 := value1, name2 := value2]
  }

  /** The value of a field, or None where the row has no such field. */
  function FieldOf(rec: Record, name: string): (r: Option<Value>)
    ensures r.Some? <==> name in rec
    ensures r.Some? ==> r.value == rec[name]
  {
    if name in rec then Some(rec[name]) else None
  }

  /** The rows after `table.get(**key)`: the row is created, with no fields
      set, when it is not there yet. */
  function Touched(rows: map<Record, Record>, key: Record): (r: map<Record, Record>)
    ensures key in r && r.Keys == rows.Keys + {key}
    ensures key in rows ==> r == rows
    ensures key !in rows ==> r[key] == map[]
    ensures forall k :: k in rows ==> r[k] == rows[k]
  {
    if key in rows then rows else rows[key := map[]]
  }

  /** The rows after `table.get(**key).set(**fields)`: the given fields
      overwrite the row's, the others are kept. */
  function Staged(rows: map<Record, Record>, key: Record, fields: Record): (r: map<Record, Record>)
    ensures r.Keys == rows.Keys + {key}
    ensures forall name :: name in fields ==> FieldOf(r[key], name) == Some(fields[name])
    ensures forall name :: name !in fields && key in rows ==> FieldOf(r[key], name) == FieldOf(rows[key], name)
    ensures forall name :: name !in fields && key !in rows ==> FieldOf(r[key], name) == None
    ensures forall k :: k in rows && k != key ==> r[k] == rows[k]
  {
    var t := Touched(rows, key);
    t[key := t[key] + fields]
  }

  /** Staging a new row sets exactly the given fields on it. */
  lemma StagedNew(rows: map<Record, Record>, key: Record, fields: Record)
    requires key !in rows
    ensures Staged(rows, key, fields) == rows[key := fields]
  {
    assert map[] + fields == fields;
  }

  /** A staging table. */
  class Table {
    var rows: map<Record, Record>

    constructor()
      ensures rows == map[]
    {
      rows := map[];
    }

    /** `get(**key)`: make sure the row exists. */
    method Get(key: Record)
      modifies this
      ensures rows == Touched(old(rows), key)
    {
      if key !in rows {
        rows := rows[key := map[]];
      }
    }

    /** `get(**key).set(**fields)`. */
    method GetSet(key: Record, fields: Record)
      modifies this
      ensures rows == Staged(old(rows), key, fields)
    {
      Get(key);
      rows := rows[key := rows[key] + fields];
    }

    /** `row.get(name)` on the row for `key`, None when the row or the field is missing. */
    function Field(key: Record, name: string): (r: Option<Value>)
      reads this
      ensures r.Some? <==> key in rows && name in rows[key]
    {
      if key in rows then FieldOf(rows[key], name) else None
    }
  }
}
