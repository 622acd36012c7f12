/** `QueryInfo`: the execution statistics of one CQL statement, an immutable
    value with two factories and a merge. */
module QueryInfos {
  import opened Wrappers
  import opened JavaTypes

  datatype QueryInfo = QueryInfo(preparedCQL: JavaString, execCount: Int32, rowCount: Int32)

  /** `combine` throws `IllegalStateException` with this message. */
  datatype CombineError = IllegalStateException(message: string)

  /** `of(cql, execCount, rowCount)`: all three fields as given. */
  function OfCounts(cql: JavaString, execCount: Int32, rowCount: Int32): (r: QueryInfo)
    ensures r.preparedCQL == cql && r.execCount == execCount && r.rowCount == rowCount
  {
    QueryInfo(cql, execCount, rowCount)
  }

  /** `of(cql, rowCount)`: a statement executed once. */
  function Of(cql: JavaString, rowCount: Int32): (r: QueryInfo)
    ensures r.preparedCQL == cql && r.execCount == 1 && r.rowCount == rowCount
  {
    OfCounts(cql, 1, rowCount)
  }

  /** `combine`: statistics of the same statement are added up, with Java's
      `int` overflow; statistics of different statements are refused. */
  function Combine(i1: QueryInfo, i2: QueryInfo): (r: Result<QueryInfo, CombineError>)
    ensures r.Ok? <==> i1.preparedCQL == i2.preparedCQL
    ensures r.Err? ==> r.error == IllegalStateException(
      "Unable to combine stats from different CQL queries: " + i1.preparedCQL + " and " + i2.preparedCQL)
    ensures r.Ok? ==> r.value.preparedCQL == i1.preparedCQL
    ensures r.Ok? ==> r.value.execCount == Wrap32(i1.execCount + i2.execCount)
    ensures r.Ok? ==> r.value.rowCount == Wrap32(i1.rowCount + i2.rowCount)
    ensures r.Ok? && IsInt32(i1.execCount + i2.execCount) ==> r.value.execCount == i1.execCount + i2.execCount
    ensures r.Ok? && IsInt32(i1.rowCount + i2.rowCount) ==> r.value.rowCount == i1.rowCount + i2.rowCount
  {
    var cql := i1.preparedCQL;
    if cql != i2.preparedCQL then
      Err(IllegalStateException(
        "Unable to combine stats from different CQL queries: " + cql + " and " + i2.preparedCQL))
    else
      Ok(QueryInfo(cql, AddInt32(i1.execCount, i2.execCount), AddInt32(i1.rowCount, i2.rowCount)))
  }

  /** The order of the two arguments does not matter. */
  lemma CombineCommutative(i1: QueryInfo, i2: QueryInfo)
    ensures Combine(i1, i2).Ok? <==> Combine(i2, i1).Ok?
    ensures Combine(i1, i2).Ok? ==> Combine(i1, i2) == Combine(i2, i1)
  {
    AddInt32Commutative(i1.execCount, i2.execCount);
    AddInt32Commutative(i1.rowCount, i2.rowCount);
  }

  /** Neither does the grouping of three statistics of one statement, even
      when a count overflows. */
  lemma CombineAssociative(a: QueryInfo, b: QueryInfo, c: QueryInfo)
    requires a.preparedCQL == b.preparedCQL == c.preparedCQL
    ensures Combine(a, b).Ok? && Combine(b, c).Ok?
    ensures Combine(Combine(a, b).value, c) == Combine(a, Combine(b, c).value)
  {
    AddInt32Associative(a.execCount, b.execCount, c.execCount);
    AddInt32Associative(a.rowCount, b.rowCount, c.rowCount);
  }

  /** Combining the statistics of two single executions. */
  lemma CombineOfTwoExecutions(cql: JavaString, rows1: Int32, rows2: Int32)
    ensures Combine(Of(cql, rows1), Of(cql, rows2)) == Ok(OfCounts(cql, 2, AddInt32(rows1, rows2)))
  {
  }
}
