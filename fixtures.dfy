/** The serializer's test scenarios, stated over what a consumer reads back
    from the bytes: each bound query is serialized, the bytes are read as a
    mutation event record, and the record's fields are checked. */
module QuerySerializerScenarios {
  import opened Wrappers
  import opened JavaTypes
  import opened Schema
  import opened BoundQuery
  import opened MutationEvents
  import opened Records
  import opened QuerySerializer
  import MutationEventWire
  import TestCodec

  /** The record `serializeQuery` writes for `q`. */
  function Sent(q: BoundDMLQuery): MutationEventRecord
  {
    EventRecord(FromBoundDMLQuery(q))
  }

  /** A consumer reading the serialized bytes of `q` receives exactly the
      record that was written, so the scenarios below, stated over that
      record, hold of what is read back. */
  lemma ReceivedIsSent(q: BoundDMLQuery)
    ensures MutationEventWire.ReadEventRecord(SerializeRecord(Sent(q))) == Ok(Sent(q))
    ensures |SerializeRecord(Sent(q))| > 0
  {
  }

  /** The four `Column.create` overloads the scenarios use; a column created
      with a type only is a regular column. */
  function CreateWithKindTypeOrder(name: JavaString, kind: Kind, t: ColumnType, order: Order): Column
  {
    Column(name, Some(kind), Some(t), Some(order))
  }

  function CreateWithKindType(name: JavaString, kind: Kind, t: ColumnType): Column
  {
    Column(name, Some(kind), Some(t), None)
  }

  function CreateWithKind(name: JavaString, kind: Kind): Column
  {
    Column(name, Some(kind), None, None)
  }

  function CreateWithType(name: JavaString, t: ColumnType): Column
  {
    Column(name, Some(Regular), Some(t), None)
  }

  const EMPTY_TABLE: Table := Table("ks", "table", [])

  /** A query on `table` with the given TTL, timestamp, type and keys. */
  function Query(table: Table, ttl: Option<Int32>, timestamp: Option<Int64>, queryType: QueryType,
                 primaryKeys: JavaList<PrimaryKey>): BoundDMLQuery
  {
    BoundDMLQuery(queryType, table, ttl, timestamp, Keys(primaryKeys))
  }

  const TABLE_1: Table := Table("ks_1", "table_1", [
    CreateWithKindTypeOrder("pk_1", PartitionKey, Ascii, ASC),
    CreateWithKindType("col_1", Regular, Int),
    CreateWithKind("col_2", Regular),
    CreateWithType("col_3", Counter)])

  /** The table with its columns: keyspace and name, then per column the type
      id, order, kind and name, absent attributes read back as `null`. */
  lemma SerializesTable()
    ensures var r := Sent(Query(TABLE_1, None, None, QueryType.UPDATE, []));
      && r.table.keyspace == "ks_1" && r.table.name == "table_1"
      && r.table.columns == [
           ColumnRecord("pk_1", Some("ASC"), Some("PartitionKey"), Some(1)),
           ColumnRecord("col_1", None, Some("Regular"), Some(9)),
           ColumnRecord("col_2", None, Some("Regular"), None),
           ColumnRecord("col_3", None, Some("Regular"), Some(5))]
  {
    var cs := TABLE_1.columns;
    var rs := ColumnRecords(cs);
    assert rs == [ConstructColumn(cs[0]), ConstructColumn(cs[1]), ConstructColumn(cs[2]), ConstructColumn(cs[3])];
  }

  /** TTL and timestamp are carried when present... */
  lemma SerializesTtlAndTimestamp()
    ensures var r := Sent(Query(EMPTY_TABLE, Some(100), Some(10000), QueryType.UPDATE, []));
      r.ttl == Some(100) && r.timestamp == Some(10000)
  {
  }

  /** ...and are `null` when absent. */
  lemma SerializesAbsentTtlAndTimestamp()
    ensures var r := Sent(Query(EMPTY_TABLE, None, None, QueryType.UPDATE, []));
      r.ttl.None? && r.timestamp.None?
  {
  }

  /** The event type is the name of the mutation type; a query on a table
      without columns, with no primary key, has no columns and no
      partition keys to report. */
  lemma SerializesMutationType()
    ensures var r := Sent(Query(EMPTY_TABLE, None, None, QueryType.UPDATE, []));
      r.mutationType == "UPDATE" && r.table.columns == [] && r.partitionKeys == []
    ensures var r := Sent(Query(EMPTY_TABLE, None, None, QueryType.DELETE, []));
      r.mutationType == "DELETE"
  {
  }

  const PK_1: Column := CreateWithKindType("pk_1", PartitionKey, Int)
  const PK_2: Column := CreateWithKindType("pk_2", PartitionKey, Boolean)
  const CK_1: Column := CreateWithKindType("ck_1", Clustering, Ascii)

  /** The key of the partition-key scenario: two partition-key values and a
      clustering value, bound with the test codec. */
  function KeyValues(): (vs: seq<TypedValue>)
    ensures |vs| == 3
    ensures vs[0].column == PK_1 && vs[1].column == PK_2 && vs[2].column == CK_1
    ensures TestCodec.Decode(Int, vs[0].bytes) == Ok(TestCodec.JInt(1))
    ensures TestCodec.Decode(Boolean, vs[1].bytes) == Ok(TestCodec.JBoolean(true))
  {
    var v1 := ForJavaValue(PK_1, Int, TestCodec.JInt(1));
    var v2 := ForJavaValue(PK_2, Boolean, TestCodec.JBoolean(true));
    var v3 := ForJavaValue(CK_1, Ascii, TestCodec.JString("v"));
    assert v3.Ok? by {
      assert forall i :: 0 <= i < |"v"| ==> "v"[i] as int < 128;
    }
    [v1.value, v2.value, v3.value]
  }

  const PK_TABLE: Table := Table("ks_1", "table_1", [
    PK_1, PK_2, CK_1, CreateWithKindType("col_1", Regular, Int), CreateWithKindType("static", Static, Int)])

  /** Only the two partition-key values are serialized, in key order; their
      column records carry type id, kind and name, and their bytes decode,
      under the type their id names, to the bound values. */
  lemma SerializesPartitionKeys()
    ensures var r := Sent(Query(PK_TABLE, None, None, QueryType.UPDATE,
                                    [PrimaryKey(PK_TABLE, KeyValues())]));
      && |r.partitionKeys| == 2
      && r.partitionKeys[0].column == ColumnRecord("pk_1", None, Some("PartitionKey"), Some(9))
      && r.partitionKeys[1].column == ColumnRecord("pk_2", None, Some("PartitionKey"), Some(4))
      && FromId(9) == Some(Int) && FromId(4) == Some(Boolean)
      && TestCodec.Decode(Int, r.partitionKeys[0].value) == Ok(TestCodec.JInt(1))
      && TestCodec.Decode(Boolean, r.partitionKeys[1].value) == Ok(TestCodec.JBoolean(true))
  {
    var vs := KeyValues();
    KeyCells(vs);
    var cells := CellRecords(PartitionKeyCells(vs));
    assert cells == [ConstructCell(ToCell(vs[0])), ConstructCell(ToCell(vs[1]))];
  }

  /** The filter keeps the first two of three values when those two alone
      belong to partition-key columns. */
  lemma KeyCells(vs: seq<TypedValue>)
    requires |vs| == 3
    requires IsPartitionKeyValue(vs[0]) && IsPartitionKeyValue(vs[1]) && !IsPartitionKeyValue(vs[2])
    ensures PartitionKeyCells(vs) == [ToCell(vs[0]), ToCell(vs[1])]
  {
    var one, two := vs[..1], vs[..2];
    assert one[..0] == [] && one[0] == vs[0];
    assert PartitionKeyCells(one) == [ToCell(vs[0])];
    assert two[..1] == one && two[1] == vs[1];
    assert PartitionKeyCells(two) == [ToCell(vs[0]), ToCell(vs[1])];
    assert vs[..2] == two;
  }
}
