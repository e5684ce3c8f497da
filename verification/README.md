# A verified model of the change-data pipeline

The pipeline reads PostgreSQL's logical replication stream, publishes it through transactional Kafka batches, and
applies it to a PostgreSQL or a Feldera sink. This project models its four parts in Dafny and proves what they promise.

* **Decoding** (`Wire`, `Utf8`, `NulSearch`, `ChangeEvents`, `RelationDecoder`, `TupleDecoder`, `KeyTuple`,
  `MessageDecoder`, `Acceptance`, `OutOfRange`, `Toast`). Section 55.9 of the PostgreSQL 16 manual, "Logical Replication
  Message Formats", is written as a printer with its own octets and type OIDs, from what a message means. Each parser is
  proved to undo it, and relations and tuples that are accepted, whatever the octets, to be what it prints. The parsers
  are specification functions; the loops of the source are methods proved equal to them. A slice index out of range, at
  which the program stops, is the error `IndexPanic`.
* **Producing** (`Producer`, `ProducerRuns`, `ExactlyOnce`, `Losses`, `Sessions`, `Streaming`). The event loop and the
  transactional producer are classes whose methods are proved against state functions. `ProducerRuns` runs those
  functions over every interleaving of stream messages, failing calls, lost connections and crashes, and `Sessions`
  shows that a session of the loop, message by message, is such a run.
* **The PostgreSQL sink** (`Sql`, `SqlGrammar`, `RelationCaches`, `Database`, `PostgresSinks`, `Mirror`, `Histories`,
  `Consumer`, `Replays`, `Announcements`). The generated SQL is text; a small grammar reads it back, and a small
  semantics executes what was read. On top of that it is proved what the sink's tables hold over every history of the
  source, when that is the source's rows, and what redelivery and late announcements do to them.
* **The whole pipeline** (`ServerLogs`, `EndToEnd`). The life of the program, session by session on the octets that the
  server sends, is a run; the parts are then composed, from octets to tables.
* **The Feldera sink** (`Feldera`). Change events become insertions and deletions that maintain a table exactly.

## Main results

* Failure-free runs are exactly-once: one batch per source transaction at or below the checkpoint, with all its
  decodable events, in order, whatever the crashes (`ExactlyOnce.ExactlyOnce`). After any run, with any failures, a
  restart and enough successful deliveries publish everything above the checkpoint, whole, if and only if no transaction
  above it holds a change at which the program stops (`ExactlyOnce.RecoversIffNothingStops`); without a failed call the
  checkpoint never passes such a transaction (`ExactlyOnce.CheckpointStaysBeforeStop`).
* Whatever octets arrive in whatever session, the next message stops the program exactly when it is empty, or a relation
  that ends inside its column count, before a column that it announces or inside the type of a stored column, or, inside
  a transaction, a change one of whose tuples runs over its end in a stated way (`OutOfRange.SessionStopsIff`).
* Messages of the server that do so exist. Decoding one stops the program exactly when it carries a key tuple of seven
  columns or more, not all keys, whose front can be read as the key, or when it is an update of six columns or fewer
  whose key is lost and what is then taken for the new tuple runs over the end (`MessageDecoder.MessageStopsIff`).
  Every delete from a table of seven columns or more whose key columns come first, and are not all, is of the first
  kind (`MessageDecoder.WideDeleteStops`); `MessageDecoder.UpdateIsMisreadAndStops` is one of the second.
* From the octets the server sends, through any number of sessions that break off anywhere, with any calls failing,
  the program does what a run of the system does (`ServerLogs.LifeIsARun`). If no call of the producer fails and every
  change survives the decoder, consumers see the operations that the server means, of exactly the transactions up to
  the checkpoint (`EndToEnd.OctetsBecomeOperations`), and the sink's tables hold exactly the source's rows as of the
  checkpoint if and only if no row has changed since the sink last wrote under its key, in particular if the sink
  follows every event (`EndToEnd.OctetsBecomeTables`); in the end also under failures and restarts of the sink
  (`EndToEnd.OctetsBecomeTablesInTheEnd`).
* With arbitrary failures each transaction becomes visible at most once and in order
  (`ProducerRuns.AtMostOnceInOrder`). One at or below the checkpoint is lost if and only if some commit went through
  while it was dropped, that is, while the stream had passed it and the open Kafka transaction did not hold it
  (`Losses.LostIffCommittedOver`); `Losses.DroppedSteps` says step by step how a transaction comes to be dropped, and
  one failed begin is enough to lose one (`Losses.ALostTransaction`).
* Batches are whole source transactions unless a commit succeeds after a failed abort left part of one behind, and, for
  sources without repeated events, exactly then (`ProducerRuns.AtomicIffNoTornCommit`); such a run exists
  (`ProducerRuns.ATornBatch`). If every abort that is tried succeeds, they are whole whatever else fails
  (`ProducerRuns.AtomicIfAbortsGoThrough`).
* Decoding undoes printing for relations, tuples and messages. Conversely nothing but a printed relation is accepted,
  save that the end of a logical column may be missing (`Acceptance.AcceptedRelation`), and nothing but a printed tuple,
  save that true may be any octet but 0 (`Acceptance.AcceptedTuple`). A message decodes to what it means exactly when it
  survives a stated condition on its old tuple (`MessageDecoder.MessageDecodesIff`). A key tuple of one to six columns
  yields the key exactly when all key columns but the last fill a prefix, a wider one exactly when every column is a key
  (`KeyTuple.KeyTupleComesBackIff`). An update with a key tuple of one to six columns never decodes to what it means: it
  is refused when its key survives, and otherwise what is read carries only part of the key
  (`MessageDecoder.UpdateWithKeyTupleDecodesIff`); it can even be accepted with a wrong row
  (`MessageDecoder.UpdateIsMisread`).
* The upsert text is a statement exactly when there are columns and keys and either every column is a key or the last
  column is not one (`SqlGrammar.UpsertReadsBack`). A delete with a key tuple is decoded and binds as many values as it
  has placeholders exactly when the key columns come first and, from seven columns on, every column is a key
  (`PostgresSinks.DeleteBindsIffPrefixKeys`).
* A cached statement is the fresh one exactly when the shape it was prepared for is unchanged
  (`RelationCaches.CachedIsFreshIffShapeUnchanged`).
* What the sink supports of a relation with a key depends on the order of its columns. Rows can be written exactly
  when the upsert is a statement, that is, when every column is a key or the last is none (`Mirror.UpsertFitsIff`);
  otherwise every write is refused (`Mirror.PutIsRefused`), as for a table whose primary key is the last of its
  columns. A key can be removed exactly when the key columns come first (`Mirror.RemoveIsWrite`,
  `Mirror.RemoveIsRefused`). The sink takes an event if it merges and is supported so; it refuses any other with an
  error and its tables as they were (`Histories.EventIsHandled`).
* Over every history of the source, the sink's tables hold under each key the source's row as of the last event that
  the sink wrote there (`Histories.SinkHoldsLastWritten`). They equal the source's rows throughout if and only if
  every act of the source is followed: the sink takes the event and the row keeps its key, or nothing that the sink
  takes arrives and nothing changes (`Histories.TablesAlwaysAgreeIffFollowed`). At the end they do if and only if no
  row has changed since the sink last wrote under its key (`Histories.TablesAgreeIffUpToDate`). What is not followed
  is: an update that leaves out an unchanged toasted value and has no old row; an insert or update where the upsert is
  no statement; a delete where the key columns do not come first (all these the sink refuses); an update that moves
  its row to another key, whose old row stays; and every change of which nothing arrives, such as the truncation of a
  table that is not empty, which the reader passes over, or an update with an old key that it refuses. Under full
  identity every column is a key, so every update that changes its row moves it (`Histories.FullIdentityUpdates`).
* However events and announcements of relations are mixed, the sink's cache is the one computed afresh from all that was
  loaded and announced (`Consumer.CacheFollowsAnnouncements`), and an event is written once its relation is announced
  and is an error that changes nothing before (`Announcements.WrittenIffAnnounced`).
* Redelivery converges: whichever calls and commits fail, the tables hold the rows of a single pass as soon as every
  failure was gone back over (`Replays.ReplayConverges`), for every history of the source, refused events included
  (`Replays.HistoryReplayConverges`). An event is skipped for good if and only if a later one was
  handled and committed before it was ever handled (`Replays.SkippedIffCommittedOver`).

## Where the code and its documentation differ

* `README.MD:111` says that the LSN checkpoint is committed after the Kafka transaction. The code writes it inside the
  transaction it describes (`cdc-producer/src/main.rs:100-120`); the model follows the code.
* `README.MD:15` promises exactly-once semantics. A begin that fails, a send that fails and a commit that fails are only
  logged (`cdc-wal-reader/src/lib.rs:39-49`, `cdc-wal-reader/src/lib.rs:163-201`), so with failures a transaction can be
  lost, exactly as stated above. The promised idempotent sink writes hold, but an update that the sink does not follow,
  and an event that fails in the sink, leave the tables behind the source.
* `parse_keys` promises a key-only tuple with its size. Its early return reports one octet more than the layout
  (`cdc-wal-reader/src/decoder/tuple_data.rs:97-101`). A delete ignores the size. An update up to six columns wide is
  refused or misread because of it.

## Environment

What the model assumes of the systems around the code, all of it stated in `Producer.dfy`, `ProducerRuns.dfy` and
`Database.dfy`: beginning a transaction fails when one is open; a record is accepted only inside an open transaction,
and a refused one leaves no trace; a failed commit leaves the transaction open with its records; a failed abort leaves
it as it was; a new producer fences its predecessor and so discards what was open; consumers see committed batches
only; a commit LSN is below its end LSN, which is not above the next commit LSN; after a restart the server sends the
transactions whose commit LSN is not below where it is asked to start, and never starts below what was reported as
applied; it describes each relation again before its first use in a session, so a resent change decodes as before; a
program starts only after its predecessor has ended, since it reads the LSN before it fences the predecessor
(`cdc-producer/src/main.rs:340-352`), and a commit in between would be resent. The sink's tables have a unique
constraint on exactly the columns that the upsert names as its conflict target, the key columns, as PostgreSQL demands
of ON CONFLICT; under full identity the server flags every column as key; a table set up otherwise, for instance with
a primary key of fewer columns under full identity, refuses the upsert. Every call may fail, as an input of the model.

## Model

| member | source | states |
|---|---|---|
| NulSearch.FirstNulMeaning | cdc-wal-reader/benches/decoding.rs:187-198 | the reference search is the first NUL: it is characterised, in both directions, by a NUL at the position and none before it |
| NulSearch.Linear | cdc-wal-reader/benches/decoding.rs:187-198 | the byte-by-byte loop computes the reference |
| NulSearch.FindNullWord | cdc-wal-reader/src/decoder/relation.rs:205-255 | the vector and overlapping-word search equals the reference on every input of every length |
| NulSearch.FindNullWordPortable | cdc-wal-reader/src/decoder/relation.rs:257-274 | so does the form for other targets, on the little-endian ones |
| NulSearch.UnalignedU32 | cdc-wal-reader/benches/decoding.rs:160-185 | so does the 32-bit form |
| NulSearch.BorrowSparesFirstZero | cdc-wal-reader/src/decoder/relation.rs:245-250 | a lane's flag is right as long as every lane below it is nonzero, although the borrow can set lanes above a zero one |
| NulSearch.MaskMarksFirstZero | cdc-wal-reader/src/decoder/relation.rs:245-250 | the lowest set bit of the mask marks the first zero lane |
| NulSearch.OverlappingWord | cdc-wal-reader/src/decoder/relation.rs:241-253 | a last word that overlaps octets already scanned neither misses nor misreports a NUL |
| NulSearch.MoveMaskFindsNul | cdc-wal-reader/src/decoder/relation.rs:219-238 | the lowest set bit of the comparison mask is the first NUL of the chunk |
| NulSearch.PaddingAddsNoHit | cdc-wal-reader/src/decoder/relation.rs:216-226 | padding a short input with 0xFF changes no result |
| RelationDecoder.ReadString | cdc-wal-reader/src/decoder/relation.rs:7-21 | a C string is read with the fast search exactly as with the reference |
| RelationDecoder.Parse | cdc-wal-reader/src/decoder/relation.rs:36-115 | the column loop with its running position computes the recursive parser, errors included |
| RelationDecoder.RelationRoundTrip | cdc-wal-reader/src/decoder/relation.rs:36-182 | every printed relation is recovered whatever follows it: identity octets 0x64 and 0x66, the five type OIDs and the column flags come back as what they mean, columns flagged 2 or 3 are skipped, and the key projections are those of its columns |
| Utf8.ValidIffEncoded | cdc-wal-reader/src/decoder/relation.rs:16-20 | octets are valid UTF-8 iff they encode some code points, as section 3 of RFC 3629 encodes them |
| Acceptance.AcceptedColumn | cdc-wal-reader/src/decoder/relation.rs:140-182 | a column that is accepted is a printed one: its flag, kind and name are what its octets say; only a logical one may be cut short |
| Acceptance.AcceptedRelation | cdc-wal-reader/src/decoder/relation.rs:36-115 | whatever the octets, a relation that is accepted is the meaning of one printed there, but for the end of a logical column |
| OutOfRange.RelationStopsIff | cdc-wal-reader/src/decoder/relation.rs:36-182 | whatever the octets, parsing a relation stops the program iff it ends inside the column count, before an announced column, or inside the type of a stored column, everything before having been read |
| ChangeEvents.KeysAreTheFlaggedColumns | cdc-wal-reader/src/decoder/relation.rs:86-105 | the key positions are exactly the flagged columns |
| ChangeEvents.KeyIndexes | cdc-wal-reader/src/decoder/relation.rs:86-105 | the key positions strictly increase and lie within the columns |
| ChangeEvents.KeyFieldsAreTheProjection | cdc-wal-reader/src/decoder/relation.rs:86-105 | the key fields are the columns at the key positions |
| TupleDecoder.NumCols | cdc-wal-reader/src/decoder/tuple_data.rs:14-35 | a specialised arm computes the general column parser |
| TupleDecoder.Parse | cdc-wal-reader/src/decoder/tuple_data.rs:7-67 | dispatch over the six arms and the general loop computes one parser, so the arms agree with the loop |
| TupleDecoder.TupleRoundTrip | cdc-wal-reader/src/decoder/tuple_data.rs:7-67 | every mix of null, toasted, text and binary columns is read back, in exactly the printed length |
| TupleDecoder.ParsePrintedValue | cdc-wal-reader/src/decoder/tuple_data.rs:145-235 | each printed value is read back with its size, whatever follows it |
| TupleDecoder.NoToastUnlessUpdate | cdc-wal-reader/src/decoder/tuple_data.rs:168-174 | a tuple read with toast forbidden holds no toasted value, whatever the bytes |
| Acceptance.AcceptedValue | cdc-wal-reader/src/decoder/tuple_data.rs:145-235 | whatever the octets, a value that is accepted is a printed one of the column's kind, in its own size; a boolean is true for every octet but 0 |
| Acceptance.AcceptedTuple | cdc-wal-reader/src/decoder/tuple_data.rs:7-67 | whatever the octets, a tuple that is accepted is a printed one, column by column, toasted in updates only |
| KeyTuple.NumKeyCols | cdc-wal-reader/src/decoder/tuple_data.rs:78-112 | the loop of a specialised key arm computes the recursive key parser, early return and panics included |
| KeyTuple.ParseKeys | cdc-wal-reader/src/decoder/tuple_data.rs:70-143 | the dispatch computes the key parser |
| KeyTuple.GeneralKeys | cdc-wal-reader/src/decoder/tuple_data.rs:128-141 | the general arm reads key fields by column position and stops the program when they run out |
| KeyTuple.KeyTupleResult | cdc-wal-reader/src/decoder/tuple_data.rs:78-112 | for every full-width key tuple of one to six columns: the keys up to the first whose position reaches the number of keys less one, and the size reported |
| KeyTuple.KeyTupleIsProjectionIffPrefix | cdc-wal-reader/src/decoder/tuple_data.rs:78-112 | the result is the values at the key positions if and only if all keys but the last fill a prefix |
| KeyTuple.KeyTupleSizeIsOneTooLarge | cdc-wal-reader/src/decoder/tuple_data.rs:97-101 | up to six columns, when the whole key comes back, the size reported is the printed size plus one |
| KeyTuple.WideKeyTupleResult | cdc-wal-reader/src/decoder/tuple_data.rs:128-141 | with seven columns or more the key comes back in its printed size when every column is a key; otherwise the program stops iff the front of the tuple reads under the key fields, and the tuple is refused if it does not |
| KeyTuple.FirstKeysStop | cdc-wal-reader/src/decoder/tuple_data.rs:128-141 | when the key columns come first it does, so the program stops |
| TupleDecoder.ReadColsAsIff | cdc-wal-reader/src/decoder/tuple_data.rs:145-235 | columns read under the fields of others are read or refused, value by value, by the size or validity of their payloads |
| TupleDecoder.TupleStopsIff | cdc-wal-reader/src/decoder/tuple_data.rs:145-235 | whatever the octets, reading a tuple stops the program iff some column, all before it read, is a binary text that announces more octets than there are |
| KeyTuple.KeyTupleComesBackIff | cdc-wal-reader/src/decoder/tuple_data.rs:70-143 | for every width: the whole key comes back iff all keys but the last fill a prefix (up to six columns) or every column is a key (from seven on), and with which size |
| OutOfRange.KeyTupleStopsIff | cdc-wal-reader/src/decoder/tuple_data.rs:70-143 | whatever the octets, reading a key tuple stops the program iff a key that is reached starts beyond the end or is a text that runs over it, or, from seven columns on, the keys run out, or there are none |
| MessageDecoder.InsertRoundTrip | cdc-wal-reader/src/decoder/insert.rs:9-37 | a printed insert decodes to its row for every relation map that holds the OID |
| MessageDecoder.DeleteIsItsOldTuple | cdc-wal-reader/src/decoder/delete.rs:14-42 | a delete decodes to its old tuple, or fails as that tuple does |
| MessageDecoder.DeleteDecodesIff | cdc-wal-reader/src/decoder/delete.rs:14-42 | every delete the server sends decodes to its old row, or to its key iff that survives, whatever its width |
| MessageDecoder.UpdateIsItsTuples | cdc-wal-reader/src/decoder/update.rs:30-49 | an update is its old tuple, if any, and the new one read where the old one is said to end, with every error of either |
| MessageDecoder.UpdateRoundTrip | cdc-wal-reader/src/decoder/update.rs:13-59 | a printed update with a whole old row or none decodes to both rows; the new tuple starts where the old one ends |
| MessageDecoder.UpdateWithKeyTupleDecodesIff | cdc-wal-reader/src/decoder/update.rs:30-49 | an update with a key tuple decodes to what it means iff the tuple has seven columns or more, all of them keys; up to six columns it is refused when the key survives, and anything read otherwise carries fewer values than the key |
| MessageDecoder.UpdateIsMisread | cdc-wal-reader/src/decoder/update.rs:30-49 | a key tuple of six columns after which every new row is read as a single null, with half the key for the old row, without an error |
| MessageDecoder.ReadOldRow | cdc-wal-reader/src/decoder/common.rs:17-51 | an old row is read under full identity in exactly its size, tag included |
| MessageDecoder.ReadOldKey | cdc-wal-reader/src/decoder/common.rs:17-51 | an old key is read as the key iff it survives, one octet too large up to six columns and in its size beyond |
| MessageDecoder.ReadNew | cdc-wal-reader/src/decoder/common.rs:53-69 | a new tuple is read after its tag |
| MessageDecoder.MessageDecodesIff | cdc-wal-reader/src/lib.rs:117-158 | every message the server sends decodes, through the dispatch on its first octet, to the operation it means iff it survives |
| MessageDecoder.MessageStopsIff | cdc-wal-reader/src/lib.rs:117-158 | for every message the server sends, the exact condition on the message under which decoding it stops the program |
| Acceptance.AcceptedOldTuple | cdc-wal-reader/src/decoder/common.rs:17-51 | an old tuple is accepted only under its own tag and the identity it belongs to |
| Acceptance.AcceptedNewTuple | cdc-wal-reader/src/decoder/common.rs:53-69 | a new tuple is accepted only under its tag |
| Acceptance.UnannouncedIsRefused | cdc-wal-reader/src/decoder/insert.rs:9-37 | a change of a relation that was not announced is refused as such, one too short to name its relation as truncated |
| OutOfRange.ChangeStopsIff | cdc-wal-reader/src/lib.rs:117-158 | whatever the octets, decoding a change stops the program iff one of its tuples runs over, the new tuple of an update where its old one is said to end |
| OutOfRange.SessionStopsIff | cdc-wal-reader/src/lib.rs:97-158 | in every session, the octets of the next message at which the program stops |
| MessageDecoder.WideDeleteStops | cdc-wal-reader/src/decoder/delete.rs:14-42 | every delete with a key tuple of seven columns or more, not all keys, whose key columns come first stops it |
| MessageDecoder.UpdateIsMisreadAndStops | cdc-wal-reader/src/decoder/update.rs:30-49 | a key tuple of six columns after which every new row, in a message below one gibibyte, stops it |
| Toast.MergeToasted | cdc-avro/src/lib.rs:83-97 | in place: succeeds iff no toasted column lies beyond the old row; on success each toasted column holds its old value and the rest is unchanged; on failure exactly the columns before the first stuck one are merged |
| Toast.MergeInOp | cdc-avro/src/lib.rs:83-97 | only updates are merged |
| Toast.MergeSucceedsIff | cdc-avro/src/lib.rs:83-97 | merging fails exactly when a toasted column lies beyond the old row |
| Toast.DecodedOldRowHasNoToast | cdc-wal-reader/src/decoder/common.rs:41-48 | a decoded old row holds no toasted value, whatever the bytes |
| Toast.ToastElimination | cdc-avro/src/lib.rs:83-97 | an update decoded with a full-width old row merges, keeps no toasted value, and changes only toasted columns, each to the old value of its own column |
| Producer.KafkaProducer.StartTransaction | cdc-producer/src/main.rs:50-55 | opens a transaction unless one is open or the call fails |
| Producer.KafkaProducer.Send | cdc-producer/src/main.rs:57-80 | adds the event to the open transaction, or fails without a trace |
| Producer.KafkaProducer.OnRelation | cdc-producer/src/main.rs:82-98 | adds the relation to the open transaction, or fails without a trace |
| Producer.KafkaProducer.CommitTransaction | cdc-producer/src/main.rs:100-120 | writes the checkpoint into the transaction it describes and then commits; a failure of either leaves the rest as it was |
| Producer.KafkaProducer.AbortTransaction | cdc-producer/src/main.rs:122-126 | drops the open transaction, or leaves it as it was |
| Producer.WalInput.SendToProducer | cdc-wal-reader/src/lib.rs:19-55 | sends a decoded change; on failure aborts and clears the flag; skips an undecodable one |
| Producer.WalInput.OnEvent | cdc-wal-reader/src/lib.rs:97-216 | the reaction to one stream event, on the flag, the relation map, the producer and the LSN reported upstream |
| Producer.WalInput.StartWalInput | cdc-wal-reader/src/lib.rs:74-229 | the whole loop, the final abort, stopping at an index out of range, and returning at once on a receive error; what it leaves is `Producer.SessionEnds` |
| Producer.SessionEnds | cdc-wal-reader/src/lib.rs:74-229 | however a session ends, nothing becomes visible at its end; closed in the middle of a transaction it leaves nothing open or buffered if the abort gets through, and otherwise the producer as it was |
| Producer.OthersArePassedOver | cdc-wal-reader/src/lib.rs:97-162 | messages about anything but relations, inserts, updates and deletes change nothing, nor do changes outside a transaction |
| Sessions.IgnoredChangesNothing | cdc-wal-reader/src/lib.rs:97-216 | nor do relations that cannot be parsed |
| Sessions.RefusedChangesNothing | cdc-wal-reader/src/lib.rs:19-55 | nor does a change that cannot be decoded |
| Producer.BeginStartsEmptyIff | cdc-wal-reader/src/lib.rs:163-182 | a begin records a transaction whatever happens, and starts it empty iff nothing was left open or the abort of what was recorded succeeds |
| Producer.BeginOpensIff | cdc-wal-reader/src/lib.rs:163-182 | after a begin a Kafka transaction is open iff a new one could be started or one stayed open |
| Producer.CommitPublishesOrKeeps | cdc-wal-reader/src/lib.rs:183-201 | a commit publishes what is open with its checkpoint behind it, or keeps it open, with the checkpoint if that was accepted, and reports nothing upstream |
| Producer.ReadLsn | cdc-producer/src/main.rs:172-218 | the last message of eight octets wins; 0 without one |
| Producer.LastLsnMeaning | cdc-producer/src/main.rs:172-218 | what is read is the number in the last message of exactly eight octets, or 0 if there is none |
| ProducerRuns.LoopFollowsSystem | cdc-wal-reader/src/lib.rs:97-216 | handling the source's next message does to the producer what a delivery does in the runs below, and stops the program exactly when the delivery does |
| Sessions.SessionFollowsRun | cdc-wal-reader/src/lib.rs:97-216 | over any sequence of messages, of the source, of relations or ignored, the loop's state is that of the run with the corresponding steps |
| Sessions.SessionIsARun | cdc-wal-reader/src/lib.rs:74-229 | a whole session that no change stops, with its ending, closed connection or receive error, leaves behind exactly the state in which the run goes on |
| Sessions.StoppedSessionIsARun | cdc-wal-reader/src/lib.rs:97-167 | so does a session that a change stops: nothing after it is handled and the final abort is not reached |
| ProducerRuns.InvKept | cdc-wal-reader/src/lib.rs:97-226 | every step, with any failures, keeps: open transaction = pieces left behind ++ a prefix of the current source transaction; published below, held above the checkpoint; checkpoints rising |
| ProducerRuns.CheckpointOrder | cdc-producer/src/main.rs:100-120 | checkpoint records strictly increase over all runs, the last is the greatest, it is where the covered transactions end, restarts resume right after them, and what is reported upstream never exceeds it |
| ProducerRuns.AtMostOnceInOrder | cdc-wal-reader/src/lib.rs:166-200 | in every run each batch is spelled by prefixes of source transactions, each occurring at most once over all batches, in order, below the checkpoint |
| ProducerRuns.LossBound | cdc-wal-reader/src/lib.rs:39-49 | a transaction at or below the checkpoint is visible whole or was in flight when a call failed (one direction; the exact condition is in Losses) |
| Losses.DroppedSteps | cdc-wal-reader/src/lib.rs:28-54 | how each step changes what is dropped: by an abort that goes through while a transaction is held, or at its own commit after it was abandoned or while nothing is open, and in no other way |
| Losses.RunsDropBySteps | cdc-wal-reader/src/lib.rs:97-226 | the same at the end of every run |
| Losses.LostIffCommittedOver | cdc-wal-reader/src/lib.rs:163-201 | in every run a transaction at or below the checkpoint is in no batch as a whole iff some commit went through while it was dropped |
| Losses.SomeLostIffLossyCommit | cdc-wal-reader/src/lib.rs:163-201 | some transaction is lost iff some commit of the run went through with anything dropped |
| Losses.LostIsInvisible | cdc-wal-reader/src/lib.rs:163-201 | in a source without repeated events, the last event of a lost transaction is in no batch |
| Losses.ALostTransaction | cdc-wal-reader/src/lib.rs:163-201 | a run that loses a transaction: the begin of the first fails, the second succeeds |
| ProducerRuns.TornKept | cdc-wal-reader/src/lib.rs:39-49 | a commit publishes part of a transaction exactly when a failed abort had left one in the open transaction |
| ProducerRuns.PartialIffTornCommit | cdc-wal-reader/src/lib.rs:28-54 | over whole runs, part of a transaction is visible iff some commit was such a commit |
| ProducerRuns.PartialIsNotAtomic | cdc-wal-reader/src/lib.rs:28-54 | a batch with part of a transaction is no concatenation of whole ones, when no two events of the source are equal |
| ProducerRuns.AtomicIffNoTornCommit | cdc-wal-reader/src/lib.rs:119-201 | every batch is a concatenation of whole source transactions in order if no commit was torn, and, for sources without repeated events, only then |
| ProducerRuns.AtomicIfAbortsGoThrough | cdc-wal-reader/src/lib.rs:28-54 | in every run in which every abort that is tried succeeds, every batch consists of whole source transactions, whatever else fails |
| ProducerRuns.ATornBatch | cdc-wal-reader/src/lib.rs:39-49 | a run in which a batch is not atomic |
| ExactlyOnce.CleanKept | cdc-wal-reader/src/lib.rs:97-226 | without a failed call the open flag, the transaction and the position stay in step, and every commit publishes exactly one whole transaction |
| ExactlyOnce.ExactlyOnce | cdc-wal-reader/src/lib.rs:97-226 | in every run without a failed call, whatever the crashes, the log is one batch for each source transaction that ends at or before the checkpoint, in order, complete, and nothing else |
| ExactlyOnce.RestartRecovers | cdc-producer/src/main.rs:286-356 | after any run, if nothing above the checkpoint stops the program, a restart and enough successful deliveries publish every transaction above it, each as one whole batch, and bring the checkpoint to the end |
| ExactlyOnce.StopPreventsRecovery | cdc-wal-reader/src/lib.rs:97-167 | if some transaction above the checkpoint holds a change that stops the program, no successful continuation gets past it |
| ExactlyOnce.RecoversIffNothingStops | cdc-wal-reader/src/lib.rs:97-226 | after any run, a restart can recover the source iff no transaction above the checkpoint holds such a change |
| ExactlyOnce.CheckpointStaysBeforeStop | cdc-wal-reader/src/lib.rs:97-226 | in every run without a failed call, whatever the crashes, the checkpoint never passes a transaction that holds such a change |
| ExactlyOnce.ReadLsnIsCheckpoint | cdc-producer/src/main.rs:172-218 | what start-up reads from the octets of the checkpoint topic is the greatest LSN in it, and the stream resumes right after the covered transactions |
| Streaming.DescriptionArrives | cdc-wal-reader/src/lib.rs:105-118 | a printed relation enters the map and the open transaction |
| Streaming.DescribedIsAnnounced | cdc-wal-reader/src/lib.rs:105-118 | once described, a relation meets what the message round trips ask of the map |
| Streaming.ChangeArrives | cdc-wal-reader/src/lib.rs:119-158 | a printed change that does not stop the program, by the condition on the message, enters the open transaction: as the operation it means if it survives, as whatever is read otherwise |
| Streaming.TransactionArrives | cdc-wal-reader/src/lib.rs:97-201 | the octets of a whole transaction, with any mix of relations and of changes that do not stop the program, become one committed batch: for each change that survives the operation meant, for any other what the decoder reads, if anything, in order, followed by the checkpoint |
| ServerLogs.AttemptIsARun | cdc-wal-reader/src/lib.rs:74-229 | one session of the loop, started without relations on the octets that the server sends from where it is asked to start, is a piece of a run, whatever calls fail, wherever it breaks off and however it ends |
| ServerLogs.LifeIsARun | cdc-producer/src/main.rs:325-356 | so is any number of sessions: what the program leaves behind is what a run of the system does |
| Sql.PushAssignments | postgres-connector/src/statements.rs:152-166 | the loop writes the assignments of the non-key columns, with a comma left over exactly when a key column comes last |
| Sql.GenUpsert | postgres-connector/src/statements.rs:111-172 | the loops write the upsert text |
| Sql.GenDelete | postgres-connector/src/statements.rs:193-212 | the loop writes the delete text |
| SqlGrammar.UpsertReadsBack | postgres-connector/src/statements.rs:111-172 | the text is a statement iff there are columns and keys and every column is a key or the last is not; then it reads back as table, columns, placeholders 1 to n in column order, keys, and each other column set to its new value |
| SqlGrammar.DeleteReadsBack | postgres-connector/src/statements.rs:193-212 | the text is a statement iff there are keys; the j-th condition is the j-th key with placeholder j |
| SqlGrammar.StatementsTellShapesApart | postgres-connector/src/statements.rs:111-212 | different tables, columns or keys give different statements |
| SqlGrammar.NumeralReadsBack | postgres-connector/src/statements.rs:130-136 | a decimal placeholder reads back as its number |
| RelationCaches.KeyNamesAreTheProjection | postgres-connector/src/main.rs:338-343 | the key names are the names of the columns at the key positions |
| RelationCaches.RelationCache.FromRels | postgres-connector/src/main.rs:278-300 | the cache computed from a relation map |
| RelationCaches.RelationCache.Update | postgres-connector/src/main.rs:302-311 | replaces the relation's entry in each of the four maps |
| RelationCaches.LoadRelations | cdc-sink/src/lib.rs:117-153 | the loading loop keeps the last decodable relation of every OID until time is up or a wait brings nothing, and fails on an error of Kafka |
| RelationCaches.CompactedHoldsTheLatest | cdc-sink/src/lib.rs:133-137 | under each OID it is the latest announcement that is kept |
| RelationCaches.CompactedKnows | cdc-sink/src/lib.rs:133-137 | the OIDs loaded are exactly those announced |
| RelationCaches.LoadedHoldsTheLatest | cdc-sink/src/lib.rs:117-153 | over all messages of the topic, decodable or not: what is loaded holds under each OID its latest decodable announcement, and nothing else |
| RelationCaches.UpdatesAreRecompute | postgres-connector/src/main.rs:278-311 | loading and then updating gives the cache computed afresh from the compacted log of both, and the four maps share one domain, so no lookup can miss once the table is found |
| RelationCaches.UpsertStatementCache.Get | postgres-connector/src/statements.rs:60-88 | a cached statement is returned as it is; a missing one is prepared from the cache and kept; unknown relations and failed preparation are errors that leave the cache as it was |
| RelationCaches.DeleteStatementCache.Get | postgres-connector/src/statements.rs:18-50 | likewise for deletes |
| RelationCaches.CachedIsFreshIffShapeUnchanged | postgres-connector/src/statements.rs:18-88 | over every run, a cached statement is the fresh one iff what it was prepared for is unchanged: the whole shape for an upsert, table and keys for a delete |
| RelationCaches.SteadyRunsHaveFreshStatements | postgres-connector/src/statements.rs:18-88 | in every run that re-announces an OID only with its shape unchanged, every cached statement is the fresh one |
| Database.ConflictIsSameKey | postgres-connector/src/statements.rs:145-151 | two stored rows conflict exactly when their keys are equal |
| Database.UpsertPuts | postgres-connector/src/statements.rs:145-169 | executing the upsert puts the row under its key, whatever was there |
| Database.DeleteRemoves | postgres-connector/src/statements.rs:193-212 | executing the delete removes exactly the row with the bound key; none when a bound value is null |
| PostgresSinks.PostgresSink.OnEvent | postgres-connector/src/main.rs:113-197 | merge, then upsert or delete with the bound values; each error with the state it leaves |
| PostgresSinks.PostgresSink.OnRelation | postgres-connector/src/main.rs:199-204 | updates the relation cache and nothing else |
| PostgresSinks.KeySurvivesFilterIffPrefix | postgres-connector/src/main.rs:167-184 | filtering the key by column position keeps all of it iff the key columns come first |
| PostgresSinks.DeleteBindsIffPrefixKeys | postgres-connector/src/main.rs:155-194 | from the server's octets to the statement, for every key tuple of any width: decoded, and as many values as placeholders, iff the key columns come first and, from seven columns on, every column is a key; then the j-th condition names the j-th key and is bound to the value sent for it |
| PostgresSinks.FullDeleteBindsIffAllKeys | postgres-connector/src/main.rs:165-166 | for a relation under full identity the old row fits the conditions iff every column is flagged as key, and then column by column |
| Mirror.EventIsWrite | postgres-connector/src/main.rs:113-197 | for named relations with a key, every acceptable event, that is one that merges, carries a whole row or key and is supported, is handled without an error and is a blind write of its row or key, the other tables unchanged |
| Mirror.SuitableStatements | postgres-connector/src/statements.rs:111-212 | for named relations with a key, the delete is a statement and says what it should; so is the upsert if every column is a key or the last is none, and otherwise there is no upsert |
| Mirror.UpsertFitsIff | postgres-connector/src/statements.rs:153-169 | the upsert is a statement iff every column is a key or the last column is none |
| Mirror.PutIsRefused | postgres-connector/src/main.rs:120-153 | where it is not, every row is refused, with nothing changed |
| Mirror.RemoveIsRefused | postgres-connector/src/main.rs:155-194 | where the key columns do not come first, every removal of a key is refused with the tables as they were |
| Mirror.EventIsRefused | postgres-connector/src/main.rs:113-197 | every event that does not merge or is not supported is refused with the tables as they were, whatever else fails |
| Mirror.WritesAreBlind | postgres-connector/src/main.rs:113-197 | what an event leaves under its key does not depend on the state before; other keys are left alone |
| Histories.EventIsHandled | postgres-connector/src/main.rs:120-197 | every event of the source, toasted columns and moved rows included, is written without an error if it merges and is supported, and otherwise refused with the tables as they were |
| Histories.SinkHoldsLastWritten | postgres-connector/src/main.rs:113-197 | at every point of every history the tables hold, under each key, the source's row as of the last event that the sink wrote there |
| Histories.RowsAgreeIffFollowed | postgres-connector/src/main.rs:120-153 | rows that agree with the source go on to agree iff the sink takes the event (it merges and is supported) and the row keeps its key, or it does not take it and nothing changes, or nothing arrives and nothing changes |
| Histories.TablesAgreeIffUpToDate | postgres-connector/src/main.rs:113-197 | after any history the tables hold exactly the source's rows iff under every key the source has not changed since the sink last wrote there |
| Histories.TablesAlwaysAgreeIffFollowed | postgres-connector/src/main.rs:113-197 | the tables hold the source's rows after every act of a history, those of which nothing arrives included, iff every act is followed |
| Histories.SinkMirrorsSource | postgres-connector/src/main.rs:113-197 | for every history whose events merge, are supported and keep their key, over any number of relations, every event is handled and the tables hold exactly the source's rows |
| Histories.FullIdentityUpdates | postgres-connector/src/main.rs:139-153 | under full identity an update keeps its key iff it changes nothing; otherwise the old row stays in the sink's table beside the new one |
| Consumer.KafkaClient.ConsumeFromKafka | cdc-sink/src/lib.rs:177-260 | over messages of any partitions: apply an event, then commit the offset after it; a failed event is skipped without a commit; relations are passed on; undecodable payloads and stream errors are passed over |
| Consumer.CommittedFollowsTheLastHandled | cdc-sink/src/lib.rs:188-258 | the offset committed for a partition follows the last of its events that was handled and whose commit got through |
| Consumer.CommittedStaysWithoutHandled | cdc-sink/src/lib.rs:188-258 | no failed event, undecodable payload, relation, stream error or other partition moves it |
| Consumer.CacheFollowsAnnouncements | cdc-sink/src/lib.rs:224-258 | whatever arrives, the sink's relation cache is the one computed from what was loaded and what was announced since; events, stream errors and undecodable payloads leave it alone |
| Announcements.UnknownIsRefused | postgres-connector/src/statements.rs:18-88 | an event of a relation that was not announced is an error and changes nothing |
| Announcements.AnnouncedAreFollowed | cdc-sink/src/lib.rs:177-260 | over every mix of events and announcements without failures, the tables hold what the events wrote whose relation was known when they arrived |
| Announcements.WrittenIffAnnounced | cdc-sink/src/lib.rs:177-260 | after any such mix, an acceptable event is written and committed if its relation is known by then, and otherwise changes nothing |
| Replays.SuffixAgainChangesNothing | cdc-sink/src/lib.rs:188-258 | writing a log and then any suffix of it again is writing it once, whatever events it holds |
| Replays.HandledEitherWay | postgres-connector/src/main.rs:113-197 | whatever fails outside, an acceptable event is handled and is its write, or fails and leaves the tables as they were |
| Replays.ReplayConverges | cdc-sink/src/lib.rs:188-258 | for every log of events that the sink can handle or refuses, as not mergeable or not supported, and every pattern of failing calls, failing commits and restarts from the committed offset, the tables hold the rows of a single pass once every failure was gone back over and everything read before was read again |
| Replays.HistoryReplayConverges | cdc-sink/src/lib.rs:188-258 | so for every history of the source: the tables end as after an uninterrupted pass |
| Replays.ReplayedTablesAreThoseOfOnePass | cdc-sink/src/lib.rs:188-258 | with sink calls that do not fail, the tables at the end of the log are those of one uninterrupted pass, whatever the commits and restarts |
| Replays.SkippedIffCommittedOver | cdc-sink/src/lib.rs:215-223 | over every run and every log, an event below the committed offset was never handled iff some later event was handled and committed before it was |
| Replays.ASkippedEvent | cdc-sink/src/lib.rs:215-223 | in every log that starts with two events the sink can handle, a first that fails before a second that does not is skipped for good, and the tables hold only what the second wrote |
| Feldera.ConvertOpBatches | feldera-connector/src/main.rs:80-116 | all or nothing: converts iff every relation is known, else fails on the first unknown one; an update becomes a deletion and an insertion, in that order; each row pairs every value with the name of its own column |
| Feldera.ZippedIsPairing | feldera-connector/src/main.rs:68-72 | a row has exactly the names at positions where there are values, each with the value at its position; of two equal names the later wins |
| Feldera.PairingIsUnique | feldera-connector/src/main.rs:68-72 | and there is no other such row |
| Feldera.ConversionDistributes | feldera-connector/src/main.rs:80-116 | converting a concatenation is concatenating the conversions |
| Feldera.ConvertedLength | feldera-connector/src/main.rs:80-116 | as many deltas as inserts, deletes and twice the updates |
| Feldera.WeightsAreConserved | feldera-connector/src/main.rs:80-116 | for every row, insertions less deletions is the net change the batch asks for |
| Feldera.TableIsMaintained | feldera-connector/src/main.rs:174-196 | under full identity, through every history, updates with unchanged toasted columns included, every event is sent, no deletion misses, and the maintained rows are the source's rows, value by value under the column names, with multiplicities |
| Feldera.UpdateWithoutOldRowMisses | feldera-connector/src/main.rs:93-104 | an update without an old row deletes the empty row, so the deletion misses unless there is one |
| Feldera.KeyDeleteHitsIff | feldera-connector/src/main.rs:105-111 | in a table of whole rows, the deletion of a delete that carries its key alone hits iff every column is a key and the row is there |
| Feldera.FelderaConnector.OnEvent | feldera-connector/src/main.rs:174-196 | what is sent for an event: its table and, after the merge, its deltas, each row pairing values with names; the errors for stuck toast and unknown relations |
| Feldera.FelderaConnector.OnRelation | feldera-connector/src/main.rs:198-205 | replaces the table name and the field names of the relation |
| EndToEnd.VisibleIsMeant | cdc-wal-reader/src/lib.rs:97-226 | in every run without a failed call, what consumers see is the operations the server means, of exactly the transactions up to the checkpoint, each once and in order |
| EndToEnd.OctetsBecomeOperations | cdc-wal-reader/src/lib.rs:74-229 | the same from octets, for the batches left by any number of sessions, wherever each breaks off |
| EndToEnd.OctetsBecomeTables | postgres-connector/src/main.rs:113-197 | from octets to tables: if every change survives and no call of the producer fails, the tables hold exactly the source's rows as of the checkpoint iff under every key the source has not changed since the sink last wrote there, and do if every event is followed; an error is reported iff some event is not taken |
| EndToEnd.OctetsBecomeTablesInTheEnd | cdc-sink/src/lib.rs:177-260 | the same with failures and restarts of the sink, once every failure was gone back over |

## Left out

- Avro encoding and decoding between producer and sinks: an identity channel; the encoder is not part of this model.
- The Kafka, PostgreSQL replication, PostgreSQL and Feldera clients: replaced by the environment above and by outcomes of calls that are inputs of the model.
- `read_lsn`'s reading of the topic: it is assumed to see the whole checkpoint topic; the wait for messages is left out.
- Records are one sequence per batch: the separate topics of events, relations and checkpoints, and the order between partitions, are not distinguished by the producer.
- ProducerRuns.LossBound: one direction only; `Losses.LostIffCommittedOver` is the exact condition.
- Losses.LostIffCommittedOver: a transaction without decodable events counts as lost too when its place is passed over, although nothing of it could be visible.
- ProducerRuns.AtomicIffNoTornCommit: the "only then" direction needs a source without two equal events, because otherwise part of one transaction can look like all of another.
- Streaming.TransactionArrives: a transaction with a change that stops the program does not arrive, see `ExactlyOnce.StopPreventsRecovery`; for changes that do not survive, the records are what the decoder reads, not what was meant.
- NulSearch.FindNullWordPortable: words are little-endian; on a big-endian target the lowest set bit of the mask does not mark the first zero octet.
- Histories: an update without an old row is assumed to send its key columns, as the server does when the key is unchanged.
- Histories.SinkMirrorsSource: covers the events that the sink follows; what the tables hold after any others is `Histories.SinkHoldsLastWritten`.
- Mirror: relations without a key column, for which neither text is a statement, so that every event is refused.
- Histories: updates that move a row and carry only the old key are no events, because up to six columns wide they never decode to what they mean; where the reader refuses them they are changes of which nothing arrives, where it misreads them they are not covered. From seven columns on they decode only if every column is a key, and are then updates with a whole old row. Rows with a null key are no rows of a source table here.
- ServerLogs.LifeIsARun: the sessions are those in which no change stops the program; one that is stopped is `Sessions.StoppedSessionIsARun`.
- Feldera.TableIsMaintained: histories hold no truncation; the reader passes over it, so the maintained table keeps the rows that it removes.
- Replays: the runs are over one partition; `Consumer` has the loop over many.
- Toast.MergeInOp: works on a copy of the row, since an operation is a value here; `Toast.MergeToasted` has the update in place.
- Database: types, column defaults and constraints other than the key are not modelled, nor is the mismatch of a value's type with its column's; a wrong number of values and a null key are errors.
- Mirror: the sink addresses tables by bare name, so relations are assumed to differ in it; namespaces are not used.
- SqlGrammar: names are words without delimiters; reserved words, and the folding of names that are not quoted, are not modelled.
- RelationCaches: a string is its octets, one character each, so lengths are octets as in the source.
- Calendar formatting and JSON conversion of values: a parameter of `Feldera`. UTF-8 validity is modelled; how it is validated fast is not.
- Arenas, metrics, logging, configuration, topic creation and replica-identity set-up: no property of interest.
- The benchmark's other searches: the 64-bit form differs from the portable one in its tail only; `unaligned_u64_v2` reads past its slice.
