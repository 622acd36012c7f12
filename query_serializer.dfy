/** `QuerySerializer`: builds the mutation event of a bound query, projects
    it onto the wire schema's records and writes those as bytes. */
module QuerySerializer {
  import opened Wrappers
  import opened JavaTypes
  import opened Schema
  import opened BoundQuery
  import opened MutationEvents
  import opened Records
  import MutationEventWire

  /** `constructColumn`: the name is copied; order and kind become their
      enum names and the type its id, each `null` when absent. */
  function ConstructColumn(c: Column): (r: ColumnRecord)
    ensures r.name == c.name
    ensures r.order.None? <==> c.order.None?
    ensures r.kind.None? <==> c.kind.None?
    ensures r.typeId.None? <==> c.columnType.None?
    ensures c.columnType.Some? ==> r.typeId == Some(TypeId(c.columnType.value))
    ensures ReadColumn(r) == Ok(c)
  {
    ColumnRecord(c.name, c.order.Map(OrderName), c.kind.Map(KindName), c.columnType.Map(TypeId))
  }

  /** The column records of a column list, element by element. */
  function ColumnRecords(columns: seq<Column>): (r: seq<ColumnRecord>)
    ensures |r| == |columns|
    ensures forall i :: 0 <= i < |columns| ==> r[i] == ConstructColumn(columns[i])
  {
    seq(|columns|, i requires 0 <= i < |columns| => ConstructColumn(columns[i]))
  }

  /** Reading the column records back gives the columns, in order. */
  lemma {:induction false} ColumnRecordsRoundTrip(columns: seq<Column>)
    ensures ReadColumns(ColumnRecords(columns)) == Ok(columns)
  {
    if columns != [] {
      assert ColumnRecords(columns)[1..] == ColumnRecords(columns[1..]);
      ColumnRecordsRoundTrip(columns[1..]);
      assert columns == [columns[0]] + columns[1..];
    }
  }

  /** `constructColumns`: one column record per column of the event's
      table, in the table's order. */
  method ConstructColumns(e: MutationEvent) returns (columns: seq<ColumnRecord>)
    ensures |columns| == |e.table.columns|
    ensures forall i :: 0 <= i < |columns| ==> columns[i] == ConstructColumn(e.table.columns[i])
    ensures columns == ColumnRecords(e.table.columns)
  {
    columns := [];
    var i := 0;
    while i < |e.table.columns|
      invariant 0 <= i <= |e.table.columns|
      invariant |columns| == i
      invariant forall k :: 0 <= k < i ==> columns[k] == ConstructColumn(e.table.columns[k])
    {
      var columnRecord := ConstructColumn(e.table.columns[i]);
      columns := columns + [columnRecord];
      i := i + 1;
    }
  }

  /** `constructTable`: keyspace and name copied, with the given column
      records. */
  function ConstructTable(columns: JavaList<ColumnRecord>, e: MutationEvent): (r: TableRecord)
    ensures r.keyspace == e.table.keyspace && r.name == e.table.name && r.columns == columns
    ensures columns == ColumnRecords(e.table.columns) ==> ReadTable(r) == Ok(e.table)
  {
    ColumnRecordsRoundTrip(e.table.columns);
    TableRecord(e.table.keyspace, e.table.name, columns)
  }

  /** The record of one partition-key cell: its column's record and its
      bytes, unchanged. */
  function ConstructCell(cell: CellValue): (r: CellValueRecord)
    ensures r.column == ConstructColumn(cell.column) && r.value == cell.value
    ensures ReadCell(r) == Ok(cell)
  {
    CellValueRecord(ConstructColumn(cell.column), cell.value)
  }

  function CellRecords(cells: seq<CellValue>): (r: seq<CellValueRecord>)
    ensures |r| == |cells|
    ensures forall i :: 0 <= i < |cells| ==> r[i] == ConstructCell(cells[i])
  {
    seq(|cells|, i requires 0 <= i < |cells| => ConstructCell(cells[i]))
  }

  lemma {:induction false} CellRecordsRoundTrip(cells: seq<CellValue>)
    ensures ReadCells(CellRecords(cells)) == Ok(cells)
  {
    if cells != [] {
      assert CellRecords(cells)[1..] == CellRecords(cells[1..]);
      CellRecordsRoundTrip(cells[1..]);
      assert cells == [cells[0]] + cells[1..];
    }
  }

  /** `constructPartitionKeys`: one cell record per partition key of the
      event, in the event's order. */
  method ConstructPartitionKeys(e: MutationEvent) returns (partitionKeys: seq<CellValueRecord>)
    ensures |partitionKeys| == |e.partitionKeys|
    ensures forall i :: 0 <= i < |partitionKeys| ==>
      partitionKeys[i].column == ConstructColumn(e.partitionKeys[i].column)
      && partitionKeys[i].value == e.partitionKeys[i].value
    ensures partitionKeys == CellRecords(e.partitionKeys)
  {
    partitionKeys := [];
    var i := 0;
    while i < |e.partitionKeys|
      invariant 0 <= i <= |e.partitionKeys|
      invariant |partitionKeys| == i
      invariant forall k :: 0 <= k < i ==> partitionKeys[k] == ConstructCell(e.partitionKeys[k])
    {
      var cellValue := e.partitionKeys[i];
      var cellValueRecord := CellValueRecord(ConstructColumn(cellValue.column), cellValue.value);
      partitionKeys := partitionKeys + [cellValueRecord];
      i := i + 1;
    }
  }

  /** The record `constructMutationEventGenericRecord` produces. */
  function EventRecord(e: MutationEvent): (r: MutationEventRecord)
    ensures r.ttl.None? <==> e.ttl.None?
    ensures e.ttl.Some? ==> r.ttl == Some(e.ttl.value)
    ensures r.timestamp.None? <==> e.timestamp.None?
    ensures e.timestamp.Some? ==> r.timestamp == Some(e.timestamp.value)
    ensures r.mutationType == MutationTypeName(e.mutationEventType)
    ensures r.table.keyspace == e.table.keyspace && r.table.name == e.table.name
    ensures r.table.columns == ColumnRecords(e.table.columns)
    ensures r.partitionKeys == CellRecords(e.partitionKeys)
    ensures ReadEvent(r) == Ok(e)
  {
    ColumnRecordsRoundTrip(e.table.columns);
    CellRecordsRoundTrip(e.partitionKeys);
    MutationEventRecord(
      ConstructTable(ColumnRecords(e.table.columns), e),
      e.ttl,
      e.timestamp,
      MutationTypeName(e.mutationEventType),
      CellRecords(e.partitionKeys))
  }

  /** `constructMutationEventGenericRecord`. */
  method ConstructMutationEventGenericRecord(e: MutationEvent) returns (r: MutationEventRecord)
    ensures r == EventRecord(e)
    ensures ReadEvent(r) == Ok(e)
  {
    var columns := ConstructColumns(e);
    var table := ConstructTable(columns, e);
    var partitionKeys := ConstructPartitionKeys(e);
    r := MutationEventRecord(
      table,
      if e.ttl.Some? then Some(e.ttl.value) else None,
      if e.timestamp.Some? then Some(e.timestamp.value) else None,
      MutationTypeName(e.mutationEventType),
      partitionKeys);
  }

  /** `serializeRecord`: the record in Avro's binary encoding, which reads
      back as the same record. */
  function SerializeRecord(r: MutationEventRecord): (bytes: Bytes)
    ensures |bytes| > 0
    ensures MutationEventWire.ReadEventRecord(bytes) == Ok(r)
  {
    MutationEventWire.EventRecordRoundTrip(r);
    MutationEventWire.WriteEventRecord(r)
  }

  /** What a consumer does with the bytes: read the record, then the event
      it denotes. */
  function DeserializeEvent(bytes: Bytes): Result<MutationEvent, ReadError>
  {
    var r :- MutationEventWire.ReadEventRecord(bytes);
    ReadEvent(r)
  }

  /** `serializeQuery`: builder, then record, then bytes, with nothing else
      as input; the bytes decode to the event the builder derives. */
  method SerializeQuery(q: BoundDMLQuery) returns (bytes: Bytes)
    ensures bytes == SerializeRecord(EventRecord(FromBoundDMLQuery(q)))
    ensures |bytes| > 0
    ensures DeserializeEvent(bytes) == Ok(FromBoundDMLQuery(q))
  {
    var mutationEvent := FromBoundDMLQuery(q);
    var mutationEventRecord := ConstructMutationEventGenericRecord(mutationEvent);
    bytes := SerializeRecord(mutationEventRecord);
  }
}
