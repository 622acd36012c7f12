/** The mutation event's records in Avro's binary encoding: what
    `GenericDatumWriter` writes for the wire schema, and the reader the
    serializer's test decodes with. Records are their fields in schema
    order; every optional field is a `["null", T]` union. */
module MutationEventWire {
  import opened Wrappers
  import opened JavaTypes
  import opened AvroBinary
  import opened Records

  function WriteColumnRecord(r: ColumnRecord): Bytes
  {
    WriteString(r.name) + WriteNullableString(r.order) + WriteNullableString(r.kind)
      + WriteNullableInt(r.typeId)
  }

  function ReadColumnRecord(s: Bytes): Parsed<ColumnRecord>
  {
    var (name, s1) :- ReadString(s);
    var (order, s2) :- ReadNullableString(s1);
    var (kind, s3) :- ReadNullableString(s2);
    var (typeId, s4) :- ReadNullableInt(s3);
    Ok((ColumnRecord(name, order, kind, typeId), s4))
  }

  lemma ColumnRecordRoundTrip(r: ColumnRecord, rest: Bytes)
    ensures ReadColumnRecord(WriteColumnRecord(r) + rest) == Ok((r, rest))
  {
    var s3 := WriteNullableInt(r.typeId) + rest;
    var s2 := WriteNullableString(r.kind) + s3;
    var s1 := WriteNullableString(r.order) + s2;
    assert WriteColumnRecord(r) + rest == WriteString(r.name) + s1;
    StringRoundTrip(r.name, s1);
    NullableStringRoundTrip(r.order, s2);
    NullableStringRoundTrip(r.kind, s3);
    NullableIntRoundTrip(r.typeId, rest);
  }

  lemma ColumnRecordUndone()
    ensures Undoes(ReadColumnRecord, WriteColumnRecord)
  {
    forall r: ColumnRecord, rest: Bytes
      ensures ReadColumnRecord(WriteColumnRecord(r) + rest) == Ok((r, rest))
    {
      ColumnRecordRoundTrip(r, rest);
    }
  }

  function WriteTableRecord(r: TableRecord): Bytes
  {
    WriteString(r.keyspace) + WriteString(r.name) + WriteArray(WriteColumnRecord, r.columns)
  }

  function ReadTableRecord(s: Bytes): Parsed<TableRecord>
  {
    var (keyspace, s1) :- ReadString(s);
    var (name, s2) :- ReadString(s1);
    var (columns, s3) :- ReadArray(ReadColumnRecord, s2);
    Ok((TableRecord(keyspace, name, columns), s3))
  }

  lemma TableRecordRoundTrip(r: TableRecord, rest: Bytes)
    ensures ReadTableRecord(WriteTableRecord(r) + rest) == Ok((r, rest))
  {
    ReadTableRecordFields(r, rest);
    TableRecordBytes(r, rest);
  }

  lemma TableRecordBytes(r: TableRecord, rest: Bytes)
    ensures WriteTableRecord(r) + rest
      == WriteString(r.keyspace) + (WriteString(r.name) + (WriteArray(WriteColumnRecord, r.columns) + rest))
  {
  }

  lemma ColumnArrayRoundTrip(columns: JavaList<ColumnRecord>, rest: Bytes)
    ensures ReadArray(ReadColumnRecord, WriteArray(WriteColumnRecord, columns) + rest) == Ok((columns, rest))
  {
    ColumnRecordUndone();
    ArrayRoundTrip(WriteColumnRecord, ReadColumnRecord, columns, rest);
  }

  /** The table's fields, written one after the other, read back. */
  lemma ReadTableRecordFields(r: TableRecord, rest: Bytes)
    ensures ReadTableRecord(WriteString(r.keyspace) + (WriteString(r.name)
      + (WriteArray(WriteColumnRecord, r.columns) + rest))) == Ok((r, rest))
  {
    var s2 := WriteArray(WriteColumnRecord, r.columns) + rest;
    var s1 := WriteString(r.name) + s2;
    StringRoundTrip(r.keyspace, s1);
    StringRoundTrip(r.name, s2);
    ColumnArrayRoundTrip(r.columns, rest);
  }

  function WriteCellRecord(r: CellValueRecord): Bytes
  {
    WriteColumnRecord(r.column) + WriteBytes(r.value)
  }

  function ReadCellRecord(s: Bytes): Parsed<CellValueRecord>
  {
    var (column, s1) :- ReadColumnRecord(s);
    var (value, s2) :- ReadBytes(s1);
    Ok((CellValueRecord(column, value), s2))
  }

  lemma CellRecordUndone()
    ensures Undoes(ReadCellRecord, WriteCellRecord)
  {
    forall r: CellValueRecord, rest: Bytes
      ensures ReadCellRecord(WriteCellRecord(r) + rest) == Ok((r, rest))
    {
      var s1 := WriteBytes(r.value) + rest;
      assert WriteCellRecord(r) + rest == WriteColumnRecord(r.column) + s1;
      ColumnRecordRoundTrip(r.column, s1);
      BytesRoundTrip(r.value, rest);
    }
  }

  /** The bytes `GenericDatumWriter` writes for a mutation event record. */
  function WriteEventRecord(r: MutationEventRecord): Bytes
  {
    WriteTableRecord(r.table) + WriteNullableInt(r.ttl) + WriteNullableLong(r.timestamp)
      + WriteString(r.mutationType) + WriteArray(WriteCellRecord, r.partitionKeys)
  }

  /** The test's `toGenericRecord`: reads one record from the front of the
      bytes; what follows it is not looked at. */
  function ReadEventRecord(s: Bytes): Result<MutationEventRecord, ReadError>
  {
    match ParseEventRecord(s)
    case Ok((r, _)) => Ok(r)
    case Err(why) => Err(MalformedEvent(why))
  }

  function ParseEventRecord(s: Bytes): Parsed<MutationEventRecord>
  {
    var (table, s1) :- ReadTableRecord(s);
    var (ttl, s2) :- ReadNullableInt(s1);
    var (timestamp, s3) :- ReadNullableLong(s2);
    var (mutationType, s4) :- ReadString(s3);
    var (partitionKeys, s5) :- ReadArray(ReadCellRecord, s4);
    Ok((MutationEventRecord(table, ttl, timestamp, mutationType, partitionKeys), s5))
  }

  /** Reading back what the writer wrote gives the same record. */
  lemma {:induction false} EventRecordRoundTrip(r: MutationEventRecord)
    ensures ReadEventRecord(WriteEventRecord(r)) == Ok(r)
  {
    ParseEventRecordFields(r);
    EventRecordBytes(r);
  }

  lemma EventRecordBytes(r: MutationEventRecord)
    ensures WriteEventRecord(r) == WriteTableRecord(r.table) + (WriteNullableInt(r.ttl)
      + (WriteNullableLong(r.timestamp) + (WriteString(r.mutationType)
      + WriteArray(WriteCellRecord, r.partitionKeys))))
  {
    Reassociate(WriteTableRecord(r.table), WriteNullableInt(r.ttl), WriteNullableLong(r.timestamp),
      WriteString(r.mutationType), WriteArray(WriteCellRecord, r.partitionKeys));
  }

  lemma Reassociate(a: Bytes, b: Bytes, c: Bytes, d: Bytes, e: Bytes)
    ensures a + b + c + d + e == a + (b + (c + (d + e)))
  {
  }

  lemma CellArrayRoundTrip(cells: JavaList<CellValueRecord>, rest: Bytes)
    ensures ReadArray(ReadCellRecord, WriteArray(WriteCellRecord, cells) + rest) == Ok((cells, rest))
  {
    CellRecordUndone();
    ArrayRoundTrip(WriteCellRecord, ReadCellRecord, cells, rest);
  }

  /** The event's fields, written one after the other, read back. */
  lemma ParseEventRecordFields(r: MutationEventRecord)
    ensures ParseEventRecord(WriteTableRecord(r.table) + (WriteNullableInt(r.ttl)
      + (WriteNullableLong(r.timestamp) + (WriteString(r.mutationType)
      + WriteArray(WriteCellRecord, r.partitionKeys))))) == Ok((r, []))
  {
    var s4 := WriteArray(WriteCellRecord, r.partitionKeys);
    var s3 := WriteString(r.mutationType) + s4;
    var s2 := WriteNullableLong(r.timestamp) + s3;
    var s1 := WriteNullableInt(r.ttl) + s2;
    TableRecordRoundTrip(r.table, s1);
    NullableIntRoundTrip(r.ttl, s2);
    NullableLongRoundTrip(r.timestamp, s3);
    StringRoundTrip(r.mutationType, s4);
    CellArrayRoundTrip(r.partitionKeys, []);
    assert s4 + [] == s4;
  }
}
