/** From the octets the server sends for one transaction to the batch the consumers see. */
module Streaming {
  import opened Wire
  import opened ChangeEvents
  import opened RelationDecoder
  import opened MessageDecoder
  import opened Producer

  /** What the server puts between a begin and a commit. */
  datatype Item = Describe(relation: WireRelation) | Change(oid: UInt32, message: Message)

  function DataOf(w: WireRelation): RelationData
    requires WellFormed(w)
  {
    RelationData(Denoted(w), KeyFields(StoredFields(w.columns)), KeyIndexes(StoredFields(w.columns)))
  }

  /** Any message of the server at which the decoder does not stop the program. */
  predicate Sendable(relations: RelationMap, item: Item)
  {
    match item
    case Describe(w) => WellFormed(w)
    case Change(oid, m) =>
      && Announced(relations, oid) && WellFormedMessage(m, relations[oid].inner)
      && !Stops(m, relations[oid].inner, [])
  }

  function Learned(relations: RelationMap, item: Item): RelationMap
  {
    match item
    case Describe(w) => if WellFormed(w) then relations[w.oid := DataOf(w)] else relations
    case Change(_, _) => relations
  }

  function Known(relations: RelationMap, items: seq<Item>): RelationMap
  {
    if items == [] then relations
    else
      var last := |items| - 1;
      Learned(Known(relations, items[..last]), items[last])
  }

  /** Each change is about a relation as it was last described. */
  predicate WellFormedStream(relations: RelationMap, items: seq<Item>)
  {
    items == [] ||
    var last := |items| - 1;
    WellFormedStream(relations, items[..last]) && Sendable(Known(relations, items[..last]), items[last])
  }

  function Octets(relations: RelationMap, item: Item): Bytes
    requires Sendable(relations, item)
  {
    match item
    case Describe(w) => PrintRelation(w)
    case Change(oid, m) => PrintMessage(oid, m)
  }

  /** The operation the server meant; where the decoder cannot read that, whatever it reads instead, if anything. */
  function RecordsOf(relations: RelationMap, item: Item): seq<Record>
    requires Sendable(relations, item)
  {
    match item
    case Describe(w) => [RelationRecord(Denoted(w))]
    case Change(oid, m) =>
      if Survives(m, relations[oid].inner) then [EventRecord(ChangeEvent(OpOf(m, relations[oid].inner), oid))]
      else
        match ParseChange(PrintMessage(oid, m), relations)
        case Ok(read) => [EventRecord(read.0)]
        case Err(_) => []
  }

  function Records(relations: RelationMap, items: seq<Item>): seq<Record>
    requires WellFormedStream(relations, items)
  {
    if items == [] then []
    else
      var last := |items| - 1;
      Records(relations, items[..last]) + RecordsOf(Known(relations, items[..last]), items[last])
  }

  function ItemMessages(relations: RelationMap, items: seq<Item>): seq<ReplicationEvent>
    requires WellFormedStream(relations, items)
  {
    if items == [] then []
    else
      var last := |items| - 1;
      ItemMessages(relations, items[..last]) + [XLogData(Octets(Known(relations, items[..last]), items[last]))]
  }

  /** The messages as the loop takes them, each with what would become of the calls made meanwhile. */
  function WithOutcomes(ms: seq<ReplicationEvent>, calls: nat -> Outcomes): (evs: seq<(ReplicationEvent, Outcomes)>)
    ensures |evs| == |ms|
  {
    if ms == [] then []
    else
      var last := |ms| - 1;
      WithOutcomes(ms[..last], calls) + [(ms[last], calls(last))]
  }

  const NO_KAFKA_FAILURE := Outcomes(true, true, true, true)

  const NO_FAILURES: nat -> Outcomes := _ => NO_KAFKA_FAILURE

  lemma {:induction false} StoredFieldsAreFewer(cs: seq<WireColumn>)
    ensures |StoredFields(cs)| <= |cs|
  {
    if cs != [] {
      StoredFieldsAreFewer(cs[1..]);
    }
  }

  /** Once described, a relation can be used. */
  lemma DescribedIsAnnounced(relations: RelationMap, w: WireRelation)
    requires WellFormed(w)
    ensures Announced(Learned(relations, Describe(w)), w.oid)
  {
    hide KeyFields, KeyIndexes, WellFormedColumn, StoredFields;
    StoredFieldsAreFewer(w.columns);
  }

  lemma DescriptionArrives(s: Session, w: WireRelation, o: Outcomes)
    requires !s.stopped && s.txn.kafka.open && o.send && WellFormed(w)
    ensures var k := s.txn.kafka;
            Handle(s, XLogData(PrintRelation(w)), o) ==
            s.(relations := s.relations[w.oid := DataOf(w)],
               txn := s.txn.(kafka := k.(buffer := k.buffer + [RelationRecord(Denoted(w))])))
  {
    hide ParseRelation, PrintReplicaAndColumns, WellFormedColumn, ValidName, KeyFields, KeyIndexes, StoredFields, Put32;
    RelationRoundTrip(w, []);
    assert PrintRelation(w) + [] == PrintRelation(w);
  }

  lemma PrintedIsChange(oid: UInt32, m: Message)
    ensures IsChange(PrintMessage(oid, m)) && PrintMessage(oid, m)[0] != WIRE_RELATION
  {
    hide PrintNew, PrintOld, Put32;
  }

  lemma ChangeArrives(s: Session, oid: UInt32, m: Message, o: Outcomes)
    requires !s.stopped && s.txn.inTransaction && s.txn.kafka.open && o.send && Sendable(s.relations, Change(oid, m))
    ensures var k := s.txn.kafka;
            Handle(s, XLogData(PrintMessage(oid, m)), o) ==
            s.(txn := s.txn.(kafka := k.(buffer := k.buffer + RecordsOf(s.relations, Change(oid, m)))))
  {
    hide ParseChange, PrintMessage, WellFormedMessage, Announced, Survives, OpOf, Stops;
    PrintedIsChange(oid, m);
    MessageDecodesIff(s.relations, oid, m, []);
    MessageStopsIff(s.relations, oid, m, []);
    assert PrintMessage(oid, m) + [] == PrintMessage(oid, m);
    var k := s.txn.kafka;
    assert k.buffer + [] == k.buffer;
  }

  lemma WithOutcomesMore(ms: seq<ReplicationEvent>, m: ReplicationEvent, calls: nat -> Outcomes)
    ensures WithOutcomes(ms + [m], calls) == WithOutcomes(ms, calls) + [(m, calls(|ms|))]
  {
    assert (ms + [m])[..|ms|] == ms;
  }

  lemma HandleMore(s: Session, ms: seq<ReplicationEvent>, m: ReplicationEvent, calls: nat -> Outcomes)
    ensures HandleAll(s, WithOutcomes(ms + [m], calls)) == Handle(HandleAll(s, WithOutcomes(ms, calls)), m, calls(|ms|))
  {
    hide Handle, WithOutcomes;
    WithOutcomesMore(ms, m, calls);
    var evs, ev := WithOutcomes(ms, calls), (m, calls(|ms|));
    assert (evs + [ev])[..|evs|] == evs;
  }

  /** A session with a transaction open, before anything was sent in it. */
  predicate JustBegun(s: Session)
  {
    !s.stopped && s.txn.inTransaction && s.txn.kafka.open && s.txn.kafka.buffer == []
  }

  /** The records so far, and the relations so far, are those the server meant. */
  lemma {:induction false} ItemsArrive(s: Session, start: Session, items: seq<Item>)
    requires JustBegun(start) && start == Handle(s, BeginEvent, NO_KAFKA_FAILURE)
    requires WellFormedStream(start.relations, items)
    ensures HandleAll(s, WithOutcomes([BeginEvent] + ItemMessages(start.relations, items), NO_FAILURES)) ==
            start.(relations := Known(start.relations, items),
                   txn := start.txn.(kafka := start.txn.kafka.(buffer := Records(start.relations, items))))
  {
    hide Handle, WellFormed, WellFormedMessage, Announced, PrintMessage, PrintRelation, ParseChange, Survives, Stops,
      OpOf, DataOf, Octets, RecordsOf, WithOutcomes;
    if items == [] {
      HandleMore(s, [], BeginEvent, NO_FAILURES);
      assert [] + [BeginEvent] == [BeginEvent] == [BeginEvent] + ItemMessages(start.relations, []);
      assert WithOutcomes([], NO_FAILURES) == [];
    } else {
      var last := |items| - 1;
      var front := items[..last];
      var ms, m := [BeginEvent] + ItemMessages(start.relations, front),
        XLogData(Octets(Known(start.relations, front), items[last]));
      ItemsArrive(s, start, front);
      HandleMore(s, ms, m, NO_FAILURES);
      assert ms + [m] == [BeginEvent] + ItemMessages(start.relations, items);
      ItemArrives(HandleAll(s, WithOutcomes(ms, NO_FAILURES)), items[last]);
    }
  }

  lemma ItemArrives(s: Session, item: Item)
    requires !s.stopped && s.txn.inTransaction && s.txn.kafka.open && Sendable(s.relations, item)
    ensures var k := s.txn.kafka;
            Handle(s, XLogData(Octets(s.relations, item)), NO_KAFKA_FAILURE) ==
            s.(relations := Learned(s.relations, item),
               txn := s.txn.(kafka := k.(buffer := k.buffer + RecordsOf(s.relations, item))))
  {
    hide Handle, WellFormedMessage, Announced, PrintMessage, PrintRelation, ParseChange, Survives, Stops, OpOf, DataOf;
    match item {
      case Describe(w) => DescriptionArrives(s, w, NO_KAFKA_FAILURE);
      case Change(oid, m) => ChangeArrives(s, oid, m, NO_KAFKA_FAILURE);
    }
  }

  /** A transaction as it is sent. */
  function TransactionMessages(relations: RelationMap, items: seq<Item>, lsn: UInt64, endLsn: UInt64):
    seq<ReplicationEvent>
    requires WellFormedStream(relations, items)
  {
    [BeginEvent] + ItemMessages(relations, items) + [CommitEvent(lsn, endLsn)]
  }

  /** End to end: the octets of a whole transaction, whatever mix of relation descriptions, inserts, updates and
      deletes it holds, become one committed batch of exactly the operations the server meant, as far as the decoder
      can read them, in order, followed by the checkpoint. */
  lemma TransactionArrives(s: Session, items: seq<Item>, lsn: UInt64, endLsn: UInt64)
    requires !s.stopped && !s.txn.inTransaction && !s.txn.kafka.open && WellFormedStream(s.relations, items)
    ensures HandleAll(s, WithOutcomes(TransactionMessages(s.relations, items, lsn, endLsn), NO_FAILURES)) ==
            Session(Known(s.relations, items),
                    Txn(false, lsn,
                        Kafka(false, [], s.txn.kafka.log + [Records(s.relations, items) + [LsnRecord(endLsn)]])),
                    false)
  {
    hide HandleAll, Known, Records, ItemMessages, WithOutcomes, WellFormedStream;
    ItemsArrive(s, Handle(s, BeginEvent, NO_KAFKA_FAILURE), items);
    HandleMore(s, [BeginEvent] + ItemMessages(s.relations, items), CommitEvent(lsn, endLsn), NO_FAILURES);
  }
}
