/** The bound data-manipulation statement the serializer starts from: typed
    key values, primary keys, the rows a statement touches and the statement
    itself. */
module BoundQuery {
  import opened Wrappers
  import opened JavaTypes
  import opened Schema
  import TestCodec

  /** A value bound to a column, held as the raw bytes its codec produced. */
  datatype TypedValue = TypedValue(column: Column, columnType: ColumnType, bytes: ByteBuffer)

  /** `TypedValue.forJavaValue`: encodes a Java value for a column with the
      codec; fails when the codec rejects the value. */
  function ForJavaValue(column: Column, t: ColumnType, v: TestCodec.JavaValue)
    : (r: Result<TypedValue, TestCodec.CodecError>)
    ensures r.Ok? <==> TestCodec.Encode(t, v).Ok?
    ensures r.Ok? ==> r.value.column == column && r.value.columnType == t
    ensures r.Ok? ==> TestCodec.Decode(t, r.value.bytes) == Ok(v)
  {
    match TestCodec.Encode(t, v)
    case Ok(bytes) =>
      TestCodec.CodecRoundTrip(t, v);
      Ok(TypedValue(column, t, bytes))
    case Err(e) => Err(e)
  }

  /** The values of one primary key, in primary-key order; may be a prefix. */
  datatype PrimaryKey = PrimaryKey(table: Table, values: JavaList<TypedValue>)

  /** `RowsImpacted`: point mutations name their keys; range mutations carry
      nothing the event builder reads. */
  datatype RowsImpacted = Keys(primaryKeys: JavaList<PrimaryKey>) | Ranges

  datatype QueryType = INSERT | UPDATE | DELETE

  /** `BoundDMLQuery`, reduced to the parts the event builder reads. */
  datatype BoundDMLQuery = BoundDMLQuery(
    queryType: QueryType,
    table: Table,
    ttl: Option<Int32>,
    timestamp: Option<Int64>,
    rowsUpdated: RowsImpacted)
}
