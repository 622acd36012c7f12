/** The schema model the serializer reads: column kinds, clustering orders,
    column types with their stable integer ids, columns and tables. */
module Schema {
  import opened Wrappers
  import opened JavaTypes

  /** `Column.Kind`. */
  datatype Kind = PartitionKey | Clustering | Regular | Static

  /** `Column.Order`, meaningful for clustering columns only. */
  datatype Order = ASC | DESC

  /** The part of `Column.Type` the model needs. Each variant has a fixed
      id; the ids are those of the CQL native protocol. */
  datatype ColumnType = Ascii | Boolean | Counter | Int

  /** `Enum::name` for a kind. */
  function KindName(k: Kind): string
  {
    match k
    case PartitionKey => "PartitionKey"
    case Clustering => "Clustering"
    case Regular => "Regular"
    case Static => "Static"
  }

  /** The reader's side of `KindName`: unknown names are rejected. */
  function KindFromName(s: string): (r: Option<Kind>)
    ensures r.Some? ==> KindName(r.value) == s
    ensures forall k: Kind :: KindName(k) == s ==> r == Some(k)
  {
    if s == "PartitionKey" then Some(PartitionKey)
    else if s == "Clustering" then Some(Clustering)
    else if s == "Regular" then Some(Regular)
    else if s == "Static" then Some(Static)
    else None
  }

  /** `Enum::name` for an order. */
  function OrderName(o: Order): string
  {
    match o
    case ASC => "ASC"
    case DESC => "DESC"
  }

  function OrderFromName(s: string): (r: Option<Order>)
    ensures r.Some? ==> OrderName(r.value) == s
    ensures forall o: Order :: OrderName(o) == s ==> r == Some(o)
  {
    if s == "ASC" then Some(ASC)
    else if s == "DESC" then Some(DESC)
    else None
  }

  /** `Column.ColumnType::id`. */
  function TypeId(t: ColumnType): Int32
  {
    match t
    case Ascii => 1
    case Boolean => 4
    case Counter => 5
    case Int => 9
  }

  /** `Column.Type.fromId`: `None` for an id no type is registered under. */
  function FromId(id: int): (r: Option<ColumnType>)
    ensures r.None? ==> forall t: ColumnType :: TypeId(t) != id
    ensures r.Some? ==> TypeId(r.value) == id
  {
    if id == 1 then Some(Ascii)
    else if id == 4 then Some(Boolean)
    else if id == 5 then Some(Counter)
    else if id == 9 then Some(Int)
    else None
  }

  /** `id` and `fromId` are mutual inverses, so no two types share an id. */
  lemma TypeIdInjective(t: ColumnType, u: ColumnType)
    ensures TypeId(t) == TypeId(u) ==> t == u
    ensures FromId(TypeId(t)) == Some(t)
  {
  }

  /** A column of a table. Every attribute but the name may be absent
      (`null` in the source). */
  datatype Column = Column(
    name: JavaString,
    kind: Option<Kind>,
    columnType: Option<ColumnType>,
    order: Option<Order>)

  /** A table: keyspace, name and the full column list, in declared order. */
  datatype Table = Table(keyspace: JavaString, name: JavaString, columns: JavaList<Column>)
}
