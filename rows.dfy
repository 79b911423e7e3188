/**
 * The table's inputs: rows (records that carry an `id`) and column descriptors.
 * Both are supplied by the caller and never changed by the table.
 */
module Rows {
  import opened Wrappers
  import opened Values

  /** A row identity: the source allows a number or a string. */
  type Id = Value

  /** A row: its `id` and its other properties by name. */
  datatype Row = Row(id: Id, fields: map<string, Value>)

  /**
   * A column descriptor. `key` names the column and is also the property the sort reads;
   * `dataIndex` is the property a cell displays; an absent `sortable` is false.
   */
  datatype Column = Column(key: string, title: string, dataIndex: string, sortable: bool)

  /** `row[name]`: the `id` for "id", otherwise the named property, `None` (undefined) when absent. */
  function Field(r: Row, name: string): Option<Value>
  {
    if name == "id" then Some(r.id)
    else if name in r.fields then Some(r.fields[name])
    else None
  }

  /** Every row's `name` property has the same kind: all numbers, all strings, or all absent. */
  ghost predicate AllKind(s: seq<Row>, name: string, kind: Kind)
  {
    forall r :: r in s ==> KindOf(Field(r, name)) == kind
  }

  /** No two rows share an id (the caller's responsibility). */
  ghost predicate DistinctIds(s: seq<Row>)
  {
    forall i, j :: 0 <= i < j < |s| ==> s[i].id != s[j].id
  }
}
