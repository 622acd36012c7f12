/** The generic records the serializer fills in, laid out as the mutation
    event's wire schema lays them out, and the reader that turns a record
    back into a mutation event. `None` is the schema's `null`. */
module Records {
  import opened Wrappers
  import opened JavaTypes
  import opened Schema
  import opened MutationEvents

  datatype ColumnRecord = ColumnRecord(
    name: JavaString,
    order: Option<JavaString>,
    kind: Option<JavaString>,
    typeId: Option<Int32>)

  datatype TableRecord = TableRecord(keyspace: JavaString, name: JavaString, columns: JavaList<ColumnRecord>)

  datatype CellValueRecord = CellValueRecord(column: ColumnRecord, value: ByteBuffer)

  datatype MutationEventRecord = MutationEventRecord(
    table: TableRecord,
    ttl: Option<Int32>,
    timestamp: Option<Int64>,
    mutationType: JavaString,
    partitionKeys: JavaList<CellValueRecord>)

  /** Why a record or a byte stream does not denote a mutation event. */
  datatype ReadError =
    | UnknownTypeId(id: int)       // a type id no column type is registered under
    | MalformedEvent(what: string) // anything else that does not fit the schema

  /** The order field: `null` is an absent order, a name is parsed, and a
      name no order has is refused. */
  function ReadOrder(s: Option<string>): (r: Result<Option<Order>, ReadError>)
    ensures s.None? ==> r == Ok(None)
    ensures s.Some? ==> (r.Ok? <==> OrderFromName(s.value).Some?)
    ensures r.Ok? && s.Some? ==> r.value == OrderFromName(s.value)
    ensures r.Err? ==> r.error.MalformedEvent?
  {
    match s
    case None => Ok(None)
    case Some(name) =>
      match OrderFromName(name)
      case Some(o) => Ok(Some(o))
      case None => Err(MalformedEvent("unknown order " + name))
  }

  /** The kind field, read like the order field. */
  function ReadKind(s: Option<string>): (r: Result<Option<Kind>, ReadError>)
    ensures s.None? ==> r == Ok(None)
    ensures s.Some? ==> (r.Ok? <==> KindFromName(s.value).Some?)
    ensures r.Ok? && s.Some? ==> r.value == KindFromName(s.value)
    ensures r.Err? ==> r.error.MalformedEvent?
  {
    match s
    case None => Ok(None)
    case Some(name) =>
      match KindFromName(name)
      case Some(k) => Ok(Some(k))
      case None => Err(MalformedEvent("unknown kind " + name))
  }

  /** The type id field: `null` is an absent type, a known id is looked up,
      and an unknown one is refused. */
  function ReadTypeId(id: Option<Int32>): (r: Result<Option<ColumnType>, ReadError>)
    ensures id.None? ==> r == Ok(None)
    ensures id.Some? && FromId(id.value).Some? ==> r == Ok(FromId(id.value))
    ensures id.Some? && FromId(id.value).None? ==> r == Err(UnknownTypeId(id.value))
  {
    match id
    case None => Ok(None)
    case Some(i) =>
      match FromId(i)
      case Some(t) => Ok(Some(t))
      case None => Err(UnknownTypeId(i))
  }

  /** A column record back to a column: enum names are parsed, the type id
      is looked up, and `null` stays absent. */
  function ReadColumn(r: ColumnRecord): Result<Column, ReadError>
  {
    var order :- ReadOrder(r.order);
    var kind :- ReadKind(r.kind);
    var columnType :- ReadTypeId(r.typeId);
    Ok(Column(r.name, kind, columnType, order))
  }

  /** Reads every record of the list, in order; fails when one does. */
  function ReadColumns(rs: seq<ColumnRecord>): (r: Result<seq<Column>, ReadError>)
    ensures r.Ok? <==> forall i :: 0 <= i < |rs| ==> ReadColumn(rs[i]).Ok?
    ensures r.Ok? ==> |r.value| == |rs| && forall i :: 0 <= i < |rs| ==> ReadColumn(rs[i]) == Ok(r.value[i])
  {
    if rs == [] then Ok([])
    else
      var c :- ReadColumn(rs[0]);
      var cs :- ReadColumns(rs[1..]);
      Ok([c] + cs)
  }

  function ReadTable(r: TableRecord): Result<Table, ReadError>
  {
    var columns :- ReadColumns(r.columns);
    Ok(Table(r.keyspace, r.name, columns))
  }

  function ReadCell(r: CellValueRecord): Result<CellValue, ReadError>
  {
    var column :- ReadColumn(r.column);
    Ok(CellValue(column, r.value))
  }

  function ReadCells(rs: seq<CellValueRecord>): (r: Result<seq<CellValue>, ReadError>)
    ensures r.Ok? <==> forall i :: 0 <= i < |rs| ==> ReadCell(rs[i]).Ok?
    ensures r.Ok? ==> |r.value| == |rs| && forall i :: 0 <= i < |rs| ==> ReadCell(rs[i]) == Ok(r.value[i])
  {
    if rs == [] then Ok([])
    else
      var c :- ReadCell(rs[0]);
      var cs :- ReadCells(rs[1..]);
      Ok([c] + cs)
  }

  /** A mutation event record back to the event it denotes. */
  function ReadEvent(r: MutationEventRecord): (e: Result<MutationEvent, ReadError>)
    ensures MutationTypeFromName(r.mutationType).None? ==> e.Err?
    ensures e.Ok? <==> ReadTable(r.table).Ok? && MutationTypeFromName(r.mutationType).Some?
                       && ReadCells(r.partitionKeys).Ok?
    ensures e.Ok? ==> && e.value.table == ReadTable(r.table).value
                      && e.value.ttl == r.ttl && e.value.timestamp == r.timestamp
                      && Some(e.value.mutationEventType) == MutationTypeFromName(r.mutationType)
                      && e.value.partitionKeys == ReadCells(r.partitionKeys).value
  {
    var table :- ReadTable(r.table);
    var mutationType :- match MutationTypeFromName(r.mutationType)
      case Some(t) => Ok(t)
      case None => Err(MalformedEvent("unknown mutation type " + r.mutationType));
    var partitionKeys :- ReadCells(r.partitionKeys);
    Ok(MutationEvent(table, r.ttl, r.timestamp, mutationType, partitionKeys))
  }
}
