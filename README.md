# Change-data-capture serialization of bound queries, and query statistics

This project models two parts of the Stargate persistence and document APIs.

**Mutation event serialization.** It follows `QuerySerializer.serializeQuery` in the
persistence API. A bound INSERT, UPDATE or DELETE is first turned into a *mutation
event*:
- the table;
- the optional TTL and write timestamp;
- an UPDATE or DELETE mutation type;
- the partition-key cells of the statement's primary key.

The event is then projected onto a tree of Avro records: a table record with its column
records, the nullable TTL and timestamp, the type name, and the partition-key cell
records. Finally that tree is written in Avro's binary encoding.

The event builder itself is not part of this model, so its rules are the ones the
serializer's tests observe, plus the upsert rule of the change-data-capture design. They
are modelled as a pure function:
- a DELETE stays a DELETE and an UPDATE stays an UPDATE (observed), and an INSERT becomes
  an UPDATE (the design's upsert rule, not observed by the tests);
- TTL and timestamp are copied, and absence stays absence;
- the partition keys are the values whose column is of kind `PartitionKey`, in their
  original order.

**Query statistics.** The document API's `QueryInfo` is an immutable triple: the CQL
text, an execution count and a row count. It has two factories and a `combine` that adds
up the statistics of one statement, with Java `int` overflow.

Layout, one module per file:

- `wrappers.dfy` (`Wrappers`): `Option` and `Result`.
- `java_types.dfy` (`JavaTypes`): Java's bounded sizes as subset types, and 32-bit `int`
  addition with wrap-around (`AddInt32`), proved commutative and associative.
- `schema.dfy` (`Schema`):
  - column kinds, orders and types;
  - type ids and their inverse `FromId`;
  - columns and tables.
- `codec.dfy` (`TestCodec`): the test codec.
  - Ascii is one byte per character.
  - Boolean is one byte.
  - Counter is an 8-byte two's-complement value and Int a 4-byte one, both big-endian as
    in the CQL native protocol.
  - It comes with a round-trip lemma.
- `query.dfy` (`BoundQuery`): typed values, primary keys, the rows a statement touches,
  and the bound statement.
- `mutation_event.dfy` (`MutationEvents`): the event and the builder. The partition-key
  filter is proved to be an ordered selection: it keeps exactly the partition-key values,
  in ascending position.
- `records.dfy` (`Records`): the Avro record tree, and a reader that maps a record tree
  back to the event it denotes.
- `query_serializer.dfy` (`QuerySerializer`): the `construct*` operations.
  - The two list-building loops are methods proved equal to a per-element map.
  - `serializeQuery` is proved to round-trip: the bytes read back as the event the builder
    derives.
- `avro.dfy` (`AvroBinary`): the primitives of the Apache Avro specification,
  section "Binary Encoding".
  - Zig-zag variable-length `int`/`long`.
  - Length-prefixed `bytes`, and `string` in UTF-8 (RFC 3629).
  - Unions as a branch index followed by the value.
  - Arrays as blocks ended by a zero count.
  - Each writer has a reader that is its left inverse.
- `wire.dfy` (`MutationEventWire`): the mutation event record in that encoding, with its
  round trip.
- `query_info.dfy` (`QueryInfos`): `QueryInfo.of` (both overloads) and `combine`.
- `fixtures.dfy` (`QuerySerializerScenarios`): the serializer's test scenarios as lemmas.

## Model

| member | source | states |
|---|---|---|
| Schema.KindFromName | persistence-api/src/main/java/io/stargate/db/cdc/serde/QuerySerializer.java:114-116 | a kind name read back gives the kind whose enum name it is, and every kind's name is read back as that kind |
| Schema.OrderFromName | persistence-api/src/main/java/io/stargate/db/cdc/serde/QuerySerializer.java:111-113 | an order name read back gives the order whose enum name it is, and every order's name is read back as that order |
| Schema.FromId | persistence-api/src/test/java/io/stargate/db/cdc/serde/QuerySerializerTest.java:198-203 | `Type.fromId` finds the type whose id is given, and finds none exactly when no type has that id |
| Schema.TypeIdInjective | persistence-api/src/test/java/io/stargate/db/cdc/serde/QuerySerializerTest.java:198-203 | distinct types have distinct ids, and `fromId(t.id())` is `t` |
| TestCodec.Encode | persistence-api/src/test/java/io/stargate/db/cdc/serde/QuerySerializerTest.java:159-164 | encoding fails exactly on a value of the wrong Java type or a non-ASCII string; Int, Counter and Boolean values take 4, 8 and 1 bytes |
| TestCodec.Decode | persistence-api/src/test/java/io/stargate/db/cdc/serde/QuerySerializerTest.java:198-203 | decoding yields a Java value of the variant the column type calls for |
| TestCodec.CodecRoundTrip | persistence-api/src/test/java/io/stargate/db/cdc/serde/QuerySerializerTest.java:187-203 | decoding encoded bytes with the same type gives back the original value |
| BoundQuery.ForJavaValue | persistence-api/src/test/java/io/stargate/db/cdc/serde/QuerySerializerTest.java:159-164 | `TypedValue.forJavaValue` succeeds exactly when the codec accepts the value, keeps column and type, and its bytes decode back to the value |
| MutationEvents.MutationTypeFromName | persistence-api/src/main/java/io/stargate/db/cdc/serde/QuerySerializer.java:57-58 | a mutation type name read back gives the type whose enum name it is, and each type's name gives that type |
| MutationEvents.ToMutationEventType | persistence-api/src/test/java/io/stargate/db/cdc/serde/QuerySerializerTest.java:107-133 | the event type is DELETE exactly when the query is a DELETE |
| MutationEvents.PartitionKeyCells | persistence-api/src/test/java/io/stargate/db/cdc/serde/QuerySerializerTest.java:137-186 | the filter yields no more cells than values, and every cell's column is of kind PartitionKey |
| MutationEvents.PartitionKeyCellsAt | persistence-api/src/test/java/io/stargate/db/cdc/serde/QuerySerializerTest.java:137-186 | the j-th cell is the cell of the value at the j-th selected position |
| MutationEvents.PartitionKeyPositionsAscending | persistence-api/src/test/java/io/stargate/db/cdc/serde/QuerySerializerTest.java:137-186 | the selected positions are strictly ascending and within the value list, so order is preserved |
| MutationEvents.PartitionKeyPositionsExact | persistence-api/src/test/java/io/stargate/db/cdc/serde/QuerySerializerTest.java:137-186 | a position is selected if and only if its value belongs to a partition-key column, so clustering and other values are dropped |
| MutationEvents.PartitionKeyCellsIsOrderedSelection | persistence-api/src/test/java/io/stargate/db/cdc/serde/QuerySerializerTest.java:137-186 | the partition keys are exactly the partition-key values, in their original order |
| MutationEvents.FromBoundDMLQuery | persistence-api/src/main/java/io/stargate/db/cdc/serde/QuerySerializer.java:123-125 | the event copies table, TTL and timestamp (absence kept), is a DELETE iff the query is, has no cells for ranges or an empty key list, and otherwise holds the ordered selection of the first key's partition-key values |
| Records.ReadOrder | persistence-api/src/main/java/io/stargate/db/cdc/serde/QuerySerializer.java:111-113 | a null order field reads back as an absent order; a name is accepted exactly when it is an order's name, and then reads as that order; an unknown name is refused as a malformed event |
| Records.ReadKind | persistence-api/src/main/java/io/stargate/db/cdc/serde/QuerySerializer.java:114-116 | a null kind field reads back as an absent kind; a name is accepted exactly when it is a kind's name, and then reads as that kind; an unknown name is refused as a malformed event |
| Records.ReadTypeId | persistence-api/src/main/java/io/stargate/db/cdc/serde/QuerySerializer.java:117-119 | a null type id reads back as an absent type, a known id as the type `fromId` gives, and an id no type has is an `UnknownTypeId` error |
| Records.ReadColumns | persistence-api/src/main/java/io/stargate/db/cdc/serde/QuerySerializer.java:99-106 | the list reads exactly when every column record does; then it keeps the length and element i is what record i reads as |
| Records.ReadCells | persistence-api/src/main/java/io/stargate/db/cdc/serde/QuerySerializer.java:64-75 | the list reads exactly when every cell record does; then it keeps the length and element i is what record i reads as |
| Records.ReadEvent | persistence-api/src/main/java/io/stargate/db/cdc/serde/QuerySerializer.java:44-62 | an unknown mutation type name is refused; the record reads exactly when its table, type name and cells do, and then gives their values with TTL and timestamp as written |
| QuerySerializer.ConstructColumn | persistence-api/src/main/java/io/stargate/db/cdc/serde/QuerySerializer.java:108-121 | the name is copied; order, kind and type id are null exactly when absent; the type id is the type's id; the record reads back as the column |
| QuerySerializer.ColumnRecords | persistence-api/src/main/java/io/stargate/db/cdc/serde/QuerySerializer.java:99-106 | as many column records as columns, the i-th being the record of the i-th column |
| QuerySerializer.ColumnRecordsRoundTrip | persistence-api/src/main/java/io/stargate/db/cdc/serde/QuerySerializer.java:99-106 | reading the column records back gives the original columns, in order |
| QuerySerializer.ConstructColumns | persistence-api/src/main/java/io/stargate/db/cdc/serde/QuerySerializer.java:99-106 | the loop yields one record per column of the event's table, the i-th being `constructColumn` of the i-th column |
| QuerySerializer.ConstructTable | persistence-api/src/main/java/io/stargate/db/cdc/serde/QuerySerializer.java:91-97 | keyspace and name copied and the given column list held; with the constructed columns the record reads back as the table |
| QuerySerializer.ConstructCell | persistence-api/src/main/java/io/stargate/db/cdc/serde/QuerySerializer.java:68-71 | a cell record holds `constructColumn` of the cell's column and the value bytes unchanged, and reads back as the cell |
| QuerySerializer.CellRecords | persistence-api/src/main/java/io/stargate/db/cdc/serde/QuerySerializer.java:64-75 | as many cell records as cells, the i-th being the record of the i-th cell |
| QuerySerializer.CellRecordsRoundTrip | persistence-api/src/main/java/io/stargate/db/cdc/serde/QuerySerializer.java:64-75 | reading the cell records back gives the original cells, in order |
| QuerySerializer.ConstructPartitionKeys | persistence-api/src/main/java/io/stargate/db/cdc/serde/QuerySerializer.java:64-75 | the loop yields one record per partition key, in order, each with the column's record and the unchanged bytes |
| QuerySerializer.EventRecord | persistence-api/src/main/java/io/stargate/db/cdc/serde/QuerySerializer.java:44-62 | TTL and timestamp are null exactly when absent and otherwise the value; the type is the enum name; table and cells are the constructed ones; the record reads back as the event |
| QuerySerializer.ConstructMutationEventGenericRecord | persistence-api/src/main/java/io/stargate/db/cdc/serde/QuerySerializer.java:44-62 | the record built from the lists the two loops produce is the event's record and reads back as the event |
| QuerySerializer.SerializeRecord | persistence-api/src/main/java/io/stargate/db/cdc/serde/QuerySerializer.java:77-89 | the bytes are non-empty and decode as the same record |
| QuerySerializer.SerializeQuery | persistence-api/src/main/java/io/stargate/db/cdc/serde/QuerySerializer.java:38-42 | the bytes are builder, then record, then encoding of the query alone; they are non-empty and decode to the event the builder derives |
| AvroBinary.ReadVarInt | persistence-api/src/main/java/io/stargate/db/cdc/serde/QuerySerializer.java:82-83 | a variable-length integer consumes at least one byte |
| AvroBinary.VarIntRoundTrip | persistence-api/src/main/java/io/stargate/db/cdc/serde/QuerySerializer.java:82-83 | reading a written variable-length integer gives it back and leaves the following bytes |
| AvroBinary.LongRoundTrip | persistence-api/src/main/java/io/stargate/db/cdc/serde/QuerySerializer.java:82-83 | an Avro `long` reads back as itself, for every 64-bit value |
| AvroBinary.IntRoundTrip | persistence-api/src/main/java/io/stargate/db/cdc/serde/QuerySerializer.java:82-83 | an Avro `int` reads back as itself, for every 32-bit value |
| AvroBinary.DecodeEncodedChar | persistence-api/src/main/java/io/stargate/db/cdc/serde/QuerySerializer.java:82-83 | every character's UTF-8 form decodes to that character |
| AvroBinary.Utf8RoundTrip | persistence-api/src/main/java/io/stargate/db/cdc/serde/QuerySerializer.java:82-83 | the UTF-8 form of a string decodes to that string |
| AvroBinary.BytesRoundTrip | persistence-api/src/main/java/io/stargate/db/cdc/serde/QuerySerializer.java:82-83 | Avro `bytes` read back as the same buffer |
| AvroBinary.StringRoundTrip | persistence-api/src/main/java/io/stargate/db/cdc/serde/QuerySerializer.java:82-83 | an Avro `string` reads back as the same string |
| AvroBinary.NullableIntRoundTrip | persistence-api/src/main/java/io/stargate/db/cdc/serde/QuerySerializer.java:51-53 | a nullable `int` union reads back as the same value or null |
| AvroBinary.NullableLongRoundTrip | persistence-api/src/main/java/io/stargate/db/cdc/serde/QuerySerializer.java:54-56 | a nullable `long` union reads back as the same value or null |
| AvroBinary.NullableStringRoundTrip | persistence-api/src/main/java/io/stargate/db/cdc/serde/QuerySerializer.java:111-116 | a nullable `string` union reads back as the same string or null |
| AvroBinary.ItemsRoundTrip | persistence-api/src/main/java/io/stargate/db/cdc/serde/QuerySerializer.java:82-83 | given a reader that undoes the item writer, the written items read back in order |
| AvroBinary.ArrayRoundTrip | persistence-api/src/main/java/io/stargate/db/cdc/serde/QuerySerializer.java:82-83 | an Avro array, empty or not, reads back as the same list |
| MutationEventWire.ColumnRecordRoundTrip | persistence-api/src/main/java/io/stargate/db/cdc/serde/QuerySerializer.java:108-121 | a written column record reads back as itself |
| MutationEventWire.TableRecordRoundTrip | persistence-api/src/main/java/io/stargate/db/cdc/serde/QuerySerializer.java:91-97 | a written table record reads back as itself |
| MutationEventWire.EventRecordRoundTrip | persistence-api/src/main/java/io/stargate/db/cdc/serde/QuerySerializer.java:77-89 | a written mutation event record reads back as itself |
| JavaTypes.Wrap32 | sgv2-docsapi/src/main/java/io/stargate/sgv2/docsapi/models/QueryInfo.java:71-72 | the 32-bit result is congruent to the exact value modulo 2^32, and equal to it when it fits |
| JavaTypes.AddInt32 | sgv2-docsapi/src/main/java/io/stargate/sgv2/docsapi/models/QueryInfo.java:71-72 | Java `int` addition: the exact sum when it fits, otherwise off by exactly 2^32 |
| JavaTypes.AddInt32Associative | sgv2-docsapi/src/main/java/io/stargate/sgv2/docsapi/models/QueryInfo.java:69-73 | wrapping addition is associative |
| JavaTypes.AddInt32Commutative | sgv2-docsapi/src/main/java/io/stargate/sgv2/docsapi/models/QueryInfo.java:69-73 | wrapping addition is commutative |
| QueryInfos.OfCounts | sgv2-docsapi/src/main/java/io/stargate/sgv2/docsapi/models/QueryInfo.java:50-56 | the three fields are stored unchanged |
| QueryInfos.Of | sgv2-docsapi/src/main/java/io/stargate/sgv2/docsapi/models/QueryInfo.java:46-48 | a single execution: the execution count is 1, CQL and row count as given |
| QueryInfos.Combine | sgv2-docsapi/src/main/java/io/stargate/sgv2/docsapi/models/QueryInfo.java:58-74 | fails with `IllegalStateException` and the message naming both statements exactly when the CQL differs; otherwise keeps the CQL and adds both counts with `int` overflow, exactly when no overflow |
| QueryInfos.CombineCommutative | sgv2-docsapi/src/main/java/io/stargate/sgv2/docsapi/models/QueryInfo.java:58-74 | swapping the arguments neither changes whether combine succeeds nor a successful result (the failure message names the statements in argument order) |
| QueryInfos.CombineAssociative | sgv2-docsapi/src/main/java/io/stargate/sgv2/docsapi/models/QueryInfo.java:69-73 | for one statement, combining three statistics in either grouping gives the same result, overflow included |
| QueryInfos.CombineOfTwoExecutions | sgv2-docsapi/src/main/java/io/stargate/sgv2/docsapi/models/QueryInfo.java:46-74 | combining two single executions gives an execution count of 2 and the sum of the row counts |
| QuerySerializerScenarios.ReceivedIsSent | persistence-api/src/test/java/io/stargate/db/cdc/serde/QuerySerializerTest.java:222-229 | reading the serialized bytes yields the record that was written, and the bytes are non-empty |
| QuerySerializerScenarios.SerializesTable | persistence-api/src/test/java/io/stargate/db/cdc/serde/QuerySerializerTest.java:45-76 | the four columns give type ids 1, 9, null, 5, orders ASC then null, kinds PartitionKey then Regular (also for the column created with a type only), and their names |
| QuerySerializerScenarios.SerializesTtlAndTimestamp | persistence-api/src/test/java/io/stargate/db/cdc/serde/QuerySerializerTest.java:80-91 | TTL 100 and timestamp 10000 are serialized as exactly those values |
| QuerySerializerScenarios.SerializesAbsentTtlAndTimestamp | persistence-api/src/test/java/io/stargate/db/cdc/serde/QuerySerializerTest.java:93-105 | an absent TTL and timestamp are serialized as null, not 0 |
| QuerySerializerScenarios.SerializesMutationType | persistence-api/src/test/java/io/stargate/db/cdc/serde/QuerySerializerTest.java:107-133 | UPDATE gives "UPDATE" and DELETE gives "DELETE"; the empty table and empty key list give no columns and no partition keys |
| QuerySerializerScenarios.KeyValues | persistence-api/src/test/java/io/stargate/db/cdc/serde/QuerySerializerTest.java:155-164 | the three bound values are accepted by the test codec and belong to pk_1, pk_2 and ck_1, the first two decoding to 1 and true |
| QuerySerializerScenarios.KeyCells | persistence-api/src/test/java/io/stargate/db/cdc/serde/QuerySerializerTest.java:137-173 | of three values of which only the first two are partition-key values, exactly those two are kept, in order |
| QuerySerializerScenarios.SerializesPartitionKeys | persistence-api/src/test/java/io/stargate/db/cdc/serde/QuerySerializerTest.java:137-196 | two cells, for pk_1 and pk_2 with ids 9 and 4 and kind PartitionKey; their bytes decode under `fromId` of those ids to 1 and true |

## Left out

- The builder (`MutationEventBuilder`) is not part of this model. Its rules are taken from
  what the serializer's tests observe, plus the design's upsert rule.
- MutationEvents.ToMutationEventType maps an INSERT to UPDATE. The tests exercise only
  UPDATE and DELETE, so the INSERT case is an assumption taken from the change-data-capture
  design, in which inserts and updates are both upserts.
- MutationEvents.FromBoundDMLQuery uses only the first primary key of a `Keys` list. The
  tests pass at most one key, so this is an assumption.
  - The event of a `Ranges` statement is modelled with no partition keys.
  - The statement's source, values and modifications are not read by the builder as
    observed, so `BoundQuery.BoundDMLQuery` leaves them out.
- A typed value is modelled as carrying the column it is bound to. The tests bind values
  by column name, and here they are bound to the table's column of that name.
- `TestCodec` stands in for the test codec of Stargate's own `TypedValue` class
  (`TypedValue.Codec.testCodec()`), which is not part of this model. It covers the four column types the tests use, with the CQL native
  protocol's layouts. Type ids other than 1, 4, 5 and 9 are unknown to `FromId`.
- The Avro schema constants are not part of this model. So the layout of the wire layer
  (`avro.dfy`, `wire.dfy`) is assumed:
  - record fields in the order the record is filled;
  - nullable fields as the union `["null", T]`, with null as branch 0.
- QuerySerializer.SerializeRecord is proved against that assumed layout, not against the
  real schema.
- The Avro readers accept only the layout the writer produces: arrays in one block, and
  integers within range. Multi-block and negative-count arrays (which Avro readers also
  accept) are not read.
- `serializeRecord`'s `UncheckedIOException` path is left out. Writing to an in-memory
  stream does not fail.
- Building an Avro record by successive `put` calls on a fresh `GenericData.Record` is
  modelled as constructing an immutable record value. Nothing else holds a reference to
  the record, so no aliasing is lost.
- JavaString: strings are sequences of Unicode scalar values, because a Dafny `char` cannot
  be a surrogate. A Java `String` may hold an unpaired UTF-16 surrogate, which Avro's UTF-8
  writer replaces, so such a string would not round-trip. Unpaired surrogates are not
  modelled, and the string round trips (`AvroBinary.StringRoundTrip`,
  `MutationEventWire.ColumnRecordRoundTrip` and those built on them) hold only for
  surrogate-free strings.
- Java `null` for the non-nullable inputs (table, names, CQL text) is excluded by the
  types. Only the attributes the source treats as nullable are `Option`s.
- `QueryInfo`'s JSON and OpenAPI annotations and the generated immutable class's
  `lazyhash` caching are left out, because they do not change the values.
- These files are not modelled:
  - the REST API's row-reading integration tests (HTTP against a live server);
  - the rows resource interface (annotations only);
  - the GraphQL mapping model, which builds on a schema registry that is not part of this
    model;
  - the token resolver test (dependency injection and mocks);
  - the persistence service activator (service lifecycle).
