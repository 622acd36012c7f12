/** The mutation event and the builder that derives it from a bound query
    (`MutationEventBuilder().fromBoundDMLQuery(q).build()`). */
module MutationEvents {
  import opened Wrappers
  import opened JavaTypes
  import opened Schema
  import opened BoundQuery

  datatype MutationEventType = UPDATE | DELETE

  /** `Enum::name` for a mutation type. */
  function MutationTypeName(t: MutationEventType): string
  {
    match t
    case UPDATE => "UPDATE"
    case DELETE => "DELETE"
  }

  function MutationTypeFromName(s: string): (r: Option<MutationEventType>)
    ensures r.Some? ==> MutationTypeName(r.value) == s
    ensures forall t: MutationEventType :: MutationTypeName(t) == s ==> r == Some(t)
  {
    if s == "UPDATE" then Some(MutationEventType.UPDATE) else if s == "DELETE" then Some(MutationEventType.DELETE) else None
  }

  /** A key column with its raw value. */
  datatype CellValue = CellValue(column: Column, value: ByteBuffer)

  datatype MutationEvent = MutationEvent(
    table: Table,
    ttl: Option<Int32>,
    timestamp: Option<Int64>,
    mutationEventType: MutationEventType,
    partitionKeys: JavaList<CellValue>)

  /** Deletes stay deletes; inserts and updates are both upserts. */
  function ToMutationEventType(q: QueryType): (r: MutationEventType)
    ensures r == MutationEventType.DELETE <==> q == QueryType.DELETE
  {
    if q == QueryType.DELETE then MutationEventType.DELETE else MutationEventType.UPDATE
  }

  predicate IsPartitionKeyValue(v: TypedValue)
  {
    v.column.kind == Some(PartitionKey)
  }

  function ToCell(v: TypedValue): CellValue
  {
    CellValue(v.column, v.bytes)
  }

  /** The cells of the partition-key values, in their original order. */
  function PartitionKeyCells(values: seq<TypedValue>): (r: seq<CellValue>)
    ensures |r| <= |values|
    ensures forall j :: 0 <= j < |r| ==> r[j].column.kind == Some(PartitionKey)
  {
    if values == [] then []
    else
      var last := values[|values| - 1];
      PartitionKeyCells(values[..|values| - 1]) + if IsPartitionKeyValue(last) then [ToCell(last)] else []
  }

  /** The positions of the partition-key values, ascending. */
  function PartitionKeyPositions(values: seq<TypedValue>): seq<nat>
  {
    if values == [] then []
    else
      PartitionKeyPositions(values[..|values| - 1])
        + if IsPartitionKeyValue(values[|values| - 1]) then [|values| - 1] else []
  }

  /** `cells[j]` is the cell of the value at position `pos[j]`. */
  ghost predicate CellsAt(values: seq<TypedValue>, cells: seq<CellValue>, pos: seq<nat>)
  {
    && |pos| == |cells|
    && (forall j :: 0 <= j < |pos| ==> pos[j] < |values| && cells[j] == ToCell(values[pos[j]]))
  }

  ghost predicate Ascending(pos: seq<nat>)
  {
    forall j, k :: 0 <= j < k < |pos| ==> pos[j] < pos[k]
  }

  /** `pos` holds the positions of the partition-key values and no other. */
  ghost predicate ExactlyPartitionKeys(values: seq<TypedValue>, pos: seq<nat>)
  {
    forall i :: 0 <= i < |values| ==> (IsPartitionKeyValue(values[i]) <==> i in pos)
  }

  /** `cells` is the ordered selection, out of `values`, of exactly the
      partition-key values, found at the ascending positions `pos`. */
  ghost predicate IsOrderedSelection(values: seq<TypedValue>, cells: seq<CellValue>, pos: seq<nat>)
  {
    CellsAt(values, cells, pos) && Ascending(pos) && ExactlyPartitionKeys(values, pos)
  }

  lemma {:induction false} PartitionKeyCellsAt(values: seq<TypedValue>)
    ensures CellsAt(values, PartitionKeyCells(values), PartitionKeyPositions(values))
  {
    if values != [] {
      var init := values[..|values| - 1];
      PartitionKeyCellsAt(init);
      var pi, ci := PartitionKeyPositions(init), PartitionKeyCells(init);
      var pos, cells := PartitionKeyPositions(values), PartitionKeyCells(values);
      forall j | 0 <= j < |pi|
        ensures pos[j] < |values| && cells[j] == ToCell(values[pos[j]])
      {
        assert pos[j] == pi[j] && cells[j] == ci[j];
        assert values[pi[j]] == init[pi[j]];
      }
    }
  }

  lemma {:induction false} PartitionKeyPositionsAscending(values: seq<TypedValue>)
    ensures Ascending(PartitionKeyPositions(values))
    ensures forall j :: 0 <= j < |PartitionKeyPositions(values)| ==> PartitionKeyPositions(values)[j] < |values|
  {
    if values != [] {
      var init := values[..|values| - 1];
      PartitionKeyPositionsAscending(init);
    }
  }

  lemma {:induction false} PartitionKeyPositionsExact(values: seq<TypedValue>)
    ensures ExactlyPartitionKeys(values, PartitionKeyPositions(values))
  {
    if values != [] {
      var init := values[..|values| - 1];
      PartitionKeyPositionsExact(init);
      PartitionKeyPositionsAscending(init);
      var pi := PartitionKeyPositions(init);
      var n := |values| - 1;
      assert n !in pi;
      forall i | 0 <= i < n
        ensures IsPartitionKeyValue(values[i]) <==> i in PartitionKeyPositions(values)
      {
        assert values[i] == init[i];
      }
    }
  }

  /** The partition-key filter keeps every partition-key value, drops every
      other one, and keeps the survivors in their original order. */
  lemma PartitionKeyCellsIsOrderedSelection(values: seq<TypedValue>)
    ensures IsOrderedSelection(values, PartitionKeyCells(values), PartitionKeyPositions(values))
  {
    PartitionKeyCellsAt(values);
    PartitionKeyPositionsAscending(values);
    PartitionKeyPositionsExact(values);
  }

  /** The cells of the first primary key only; `Ranges` and an empty key
      list give none. */
  function PartitionKeysOf(rows: RowsImpacted): seq<CellValue>
  {
    match rows
    case Keys(pks) => if |pks| == 0 then [] else PartitionKeyCells(pks[0].values)
    case Ranges => []
  }

  /** `MutationEventBuilder().fromBoundDMLQuery(q).build()`. */
  function FromBoundDMLQuery(q: BoundDMLQuery): (e: MutationEvent)
    ensures e.table == q.table
    ensures e.ttl == q.ttl && e.timestamp == q.timestamp
    ensures e.mutationEventType == MutationEventType.DELETE <==> q.queryType == QueryType.DELETE
    ensures q.rowsUpdated.Ranges? || q.rowsUpdated.primaryKeys == [] ==> e.partitionKeys == []
    ensures q.rowsUpdated.Keys? && q.rowsUpdated.primaryKeys != [] ==>
      IsOrderedSelection(q.rowsUpdated.primaryKeys[0].values, e.partitionKeys,
                         PartitionKeyPositions(q.rowsUpdated.primaryKeys[0].values))
  {
    PartitionKeyCellsIsOrderedSelection(
      if q.rowsUpdated.Keys? && q.rowsUpdated.primaryKeys != [] then q.rowsUpdated.primaryKeys[0].values else []);
    MutationEvent(
      q.table,
      q.ttl,
      q.timestamp,
      ToMutationEventType(q.queryType),
      PartitionKeysOf(q.rowsUpdated))
  }
}
