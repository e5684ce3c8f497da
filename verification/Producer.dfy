/** The reader's event loop and the transactional producer it drives. Every call to Kafka may fail; whether it
    does is an input. */
module Producer {
  import opened Wrappers
  import opened Wire
  import opened ChangeEvents
  import opened RelationDecoder
  import opened MessageDecoder

  // ----- The broker as the producer sees it -----

  datatype Record = EventRecord(event: ChangeEvent) | RelationRecord(relation: Relation) | LsnRecord(lsn: UInt64)

  /** `log` holds one batch per committed transaction: what a read-committed consumer sees. */
  datatype Kafka = Kafka(open: bool, buffer: seq<Record>, log: seq<seq<Record>>)

  /** Beginning fails when a transaction is already open. */
  function Begun(k: Kafka, ok: bool): Kafka
  {
    if !k.open && ok then k.(open := true, buffer := []) else k
  }

  predicate Accepts(k: Kafka, ok: bool)
  {
    k.open && ok
  }

  /** A record is accepted only inside an open transaction; a refused one leaves no trace. */
  function Sent(k: Kafka, r: Record, ok: bool): Kafka
  {
    if Accepts(k, ok) then k.(buffer := k.buffer + [r]) else k
  }

  /** A failed commit leaves the transaction open with its records. */
  function Committed(k: Kafka, ok: bool): Kafka
  {
    if Accepts(k, ok) then Kafka(false, [], k.log + [k.buffer]) else k
  }

  /** A failed abort leaves the transaction as it was. */
  function Aborted(k: Kafka, ok: bool): Kafka
  {
    if Accepts(k, ok) then Kafka(false, [], k.log) else k
  }

  /** A new producer with the same transactional id discards the transaction its predecessor left open. */
  function Fenced(k: Kafka): Kafka
  {
    Kafka(false, [], k.log)
  }

  /** Whether each kind of call, if made during an event, would succeed. */
  datatype Outcomes = Outcomes(begin: bool, send: bool, commit: bool, abort: bool)

  // ----- The loop's reaction to one event -----

  datatype Txn = Txn(inTransaction: bool, applied: nat, kafka: Kafka)

  /** A begin while a transaction is recorded aborts it first; the flag is set either way. */
  function OnBegin(t: Txn, o: Outcomes): Txn
  {
    var k := if t.inTransaction then Aborted(t.kafka, o.abort) else t.kafka;
    Txn(true, t.applied, Begun(k, o.begin))
  }

  /** A new source transaction starts in an empty Kafka transaction exactly when nothing was left open or the abort
      of what was recorded succeeds. */
  lemma BeginStartsEmptyIff(t: Txn, o: Outcomes)
    requires !t.kafka.open ==> t.kafka.buffer == []
    ensures OnBegin(t, o).inTransaction && OnBegin(t, o).kafka.log == t.kafka.log
    ensures OnBegin(t, o).kafka.buffer == [] <==> t.kafka.buffer == [] || (t.inTransaction && o.abort)
    ensures OnBegin(t, o).kafka.buffer != [] ==> OnBegin(t, o).kafka.buffer == t.kafka.buffer
  {
  }

  /** A Kafka transaction is open after a begin exactly when a new one could be started, or one stayed open. */
  lemma BeginOpensIff(t: Txn, o: Outcomes)
    ensures OnBegin(t, o).kafka.open <==> o.begin || (t.kafka.open && !(t.inTransaction && o.abort))
  {
  }

  /** A decoded change is sent; when that fails the transaction is aborted and its remaining changes are skipped. */
  function OnChange(t: Txn, change: Option<ChangeEvent>, o: Outcomes): Txn
  {
    if !t.inTransaction || change.None? then t
    else if Accepts(t.kafka, o.send) then t.(kafka := Sent(t.kafka, EventRecord(change.value), o.send))
    else t.(inTransaction := false, kafka := Aborted(t.kafka, o.abort))
  }

  /** The checkpoint goes into the transaction it describes; the flag is cleared whatever happens next. */
  function OnCommit(t: Txn, lsn: nat, endLsn: UInt64, o: Outcomes): Txn
  {
    if !t.inTransaction then t
    else if !Accepts(t.kafka, o.send) then t.(inTransaction := false)
    else
      var k := Sent(t.kafka, LsnRecord(endLsn), o.send);
      if Accepts(k, o.commit) then Txn(false, lsn, Committed(k, o.commit))
      else t.(inTransaction := false, kafka := k)
  }

  /** What a commit message leaves: everything in the log with the checkpoint behind it, or everything in the open
      transaction, with the checkpoint if that was accepted, so that a later commit publishes both. */
  lemma CommitPublishesOrKeeps(t: Txn, lsn: nat, endLsn: UInt64, o: Outcomes)
    requires t.inTransaction
    ensures var left, sent := OnCommit(t, lsn, endLsn, o), t.kafka.open && o.send;
            var records := t.kafka.buffer + if sent then [LsnRecord(endLsn)] else [];
            && !left.inTransaction
            && if sent && o.commit
               then left.kafka.log == t.kafka.log + [records] && !left.kafka.open && left.applied == lsn
               else && left.kafka.log == t.kafka.log && left.applied == t.applied
                    && left.kafka.open == t.kafka.open && left.kafka.buffer == records
  {
    assert t.kafka.buffer + [] == t.kafka.buffer;
  }

  /** Relations are sent whether or not a transaction is recorded, and a failure is only logged. */
  function OnRelation(t: Txn, relation: Relation, o: Outcomes): Txn
  {
    t.(kafka := Sent(t.kafka, RelationRecord(relation), o.send))
  }

  // ----- The loop over messages -----

  datatype ReplicationEvent =
    | XLogData(data: Bytes)
    | BeginEvent
    | CommitEvent(lsn: UInt64, endLsn: UInt64)
    | Other

  /** `stopped` is set once an index out of range has stopped the program. */
  datatype Session = Session(relations: RelationMap, txn: Txn, stopped: bool)

  function EventIn(r: Decoded<(ChangeEvent, RelationData)>): Option<ChangeEvent>
  {
    if r.Ok? then Some(r.value.0) else None
  }

  predicate IsChange(data: Bytes)
  {
    data != [] && (data[0] == TAG_INSERT || data[0] == TAG_UPDATE || data[0] == TAG_DELETE)
  }

  function OnRelationData(s: Session, data: Bytes, o: Outcomes): Session
  {
    match ParseRelation(data)
    case Ok(r) => s.(relations := s.relations[r.inner.oid := r], txn := OnRelation(s.txn, r.inner, o))
    case Err(IndexPanic) => s.(stopped := true)
    case Err(_) => s
  }

  /** Outside a transaction changes are not even decoded. */
  function OnChangeData(s: Session, data: Bytes, o: Outcomes): Session
    requires IsChange(data)
  {
    if !s.txn.inTransaction then s
    else
      var r := ParseChange(data, s.relations);
      if r == Err(IndexPanic) then s.(stopped := true) else s.(txn := OnChange(s.txn, EventIn(r), o))
  }

  function Handle(s: Session, ev: ReplicationEvent, o: Outcomes): Session
  {
    if s.stopped then s
    else
      match ev
      case XLogData(data) =>
        if data == [] then s.(stopped := true)
        else if data[0] == TAG_RELATION then OnRelationData(s, data, o)
        else if IsChange(data) then OnChangeData(s, data, o)
        else s
      case BeginEvent => s.(txn := OnBegin(s.txn, o))
      case CommitEvent(lsn, endLsn) => s.(txn := OnCommit(s.txn, lsn, endLsn, o))
      case Other => s
  }

  function HandleAll(s: Session, evs: seq<(ReplicationEvent, Outcomes)>): Session
  {
    if evs == [] then s
    else
      var last := |evs| - 1;
      Handle(HandleAll(s, evs[..last]), evs[last].0, evs[last].1)
  }

  /** When the connection ends, a transaction still recorded is aborted. */
  function Closed(t: Txn, abortOk: bool): Txn
  {
    if t.inTransaction then t.(kafka := Aborted(t.kafka, abortOk)) else t
  }

  /** A stream ends in good order, or with an error that is returned at once. */
  datatype Ending = ConnectionClosed(abortOk: bool) | ReceiveFailed

  /** The whole session; neither a stopped program nor a receive error reaches the final abort. */
  function SessionResult(s: Session, evs: seq<(ReplicationEvent, Outcomes)>, ending: Ending): Session
  {
    var after := HandleAll(s, evs);
    if after.stopped || ending.ReceiveFailed? then after
    else after.(txn := Closed(after.txn, ending.abortOk))
  }

  /** Nothing is buffered outside a transaction. */
  predicate Tidy(k: Kafka)
  {
    !k.open ==> k.buffer == []
  }

  lemma {:induction false} StaysTidy(s: Session, evs: seq<(ReplicationEvent, Outcomes)>)
    requires Tidy(s.txn.kafka)
    ensures Tidy(HandleAll(s, evs).txn.kafka)
  {
    if evs != [] {
      StaysTidy(s, evs[..|evs| - 1]);
      hide ParseChange, ParseRelation;
    }
  }

  /** How a session ends: nothing becomes visible any more. A connection that is closed in the middle of a transaction
      leaves nothing open, if the abort gets through; otherwise the producer is left as it was. */
  lemma SessionEnds(s: Session, evs: seq<(ReplicationEvent, Outcomes)>, ending: Ending)
    requires Tidy(s.txn.kafka)
    ensures var last, left := HandleAll(s, evs), SessionResult(s, evs, ending);
            && left.txn.kafka.log == last.txn.kafka.log && left.txn.applied == last.txn.applied
            && left.stopped == last.stopped && left.relations == last.relations
            && if !last.stopped && last.txn.inTransaction && ending == ConnectionClosed(true)
               then !left.txn.kafka.open && left.txn.kafka.buffer == []
               else left == last
  {
    hide HandleAll;
    StaysTidy(s, evs);
  }

  /** Messages about anything but relations and changes, an origin, a type or a truncation for instance, are passed
      over; so are changes outside a transaction. */
  lemma OthersArePassedOver(s: Session, data: Bytes, o: Outcomes)
    requires data != []
    requires || data[0] !in {WIRE_RELATION, WIRE_INSERT, WIRE_UPDATE, WIRE_DELETE}
             || (data[0] != WIRE_RELATION && !s.txn.inTransaction)
    ensures Handle(s, XLogData(data), o) == s
  {
    hide ParseChange, ParseRelation;
  }

  // ----- The objects -----

  /** `KafkaProducer`: each method reports whether the call succeeded. */
  class KafkaProducer {
    var open: bool
    var buffer: seq<Record>
    var log: seq<seq<Record>>

    function View(): Kafka
      reads this
    {
      Kafka(open, buffer, log)
    }

    /** A fresh producer fences its predecessor. */
    constructor (committed: seq<seq<Record>>)
      ensures View() == Kafka(false, [], committed)
    {
      open, buffer, log := false, [], committed;
    }

    method StartTransaction(ok: bool) returns (started: bool)
      modifies this
      ensures View() == Begun(old(View()), ok)
      ensures started <==> !old(open) && ok
    {
      started := !open && ok;
      if started {
        open, buffer := true, [];
      }
    }

    method Transmit(r: Record, ok: bool) returns (sent: bool)
      modifies this
      ensures View() == Sent(old(View()), r, ok)
      ensures sent <==> Accepts(old(View()), ok)
    {
      sent := open && ok;
      if sent {
        buffer := buffer + [r];
      }
    }

    method Send(event: ChangeEvent, ok: bool) returns (sent: bool)
      modifies this
      ensures View() == Sent(old(View()), EventRecord(event), ok)
      ensures sent <==> Accepts(old(View()), ok)
    {
      sent := Transmit(EventRecord(event), ok);
    }

    method OnRelation(relation: Relation, ok: bool) returns (sent: bool)
      modifies this
      ensures View() == Sent(old(View()), RelationRecord(relation), ok)
      ensures sent <==> Accepts(old(View()), ok)
    {
      sent := Transmit(RelationRecord(relation), ok);
    }

    /** Writes the checkpoint, then commits. */
    method CommitTransaction(endLsn: UInt64, sendOk: bool, commitOk: bool) returns (done: bool)
      modifies this
      ensures var k := Sent(old(View()), LsnRecord(endLsn), sendOk);
              View() == if Accepts(old(View()), sendOk) then Committed(k, commitOk) else k
      ensures done <==> old(open) && sendOk && commitOk
    {
      done := Transmit(LsnRecord(endLsn), sendOk);
      if !done {
        return;
      }
      done := commitOk;
      if done {
        open, buffer, log := false, [], log + [buffer];
      }
    }

    method AbortTransaction(ok: bool) returns (aborted: bool)
      modifies this
      ensures View() == Aborted(old(View()), ok)
      ensures aborted <==> Accepts(old(View()), ok)
    {
      aborted := open && ok;
      if aborted {
        open, buffer := false, [];
      }
    }
  }

  /** The loop's state: the flag that must track the producer, the relations seen, and the LSN reported upstream. */
  class WalInput {
    const producer: KafkaProducer
    var currentlyInTransaction: bool
    var relations: RelationMap
    var applied: nat

    function View(): Session
      reads this, producer
    {
      Session(relations, Txn(currentlyInTransaction, applied, producer.View()), false)
    }

    constructor (producer: KafkaProducer, applied: nat)
      ensures this.producer == producer
      ensures View() == Session(map[], Txn(false, applied, producer.View()), false)
    {
      this.producer := producer;
      currentlyInTransaction, relations, this.applied := false, map[], applied;
    }

    method SendToProducer(change: Option<ChangeEvent>, o: Outcomes)
      requires currentlyInTransaction
      modifies this`currentlyInTransaction, producer
      ensures View() == old(View()).(txn := OnChange(old(View()).txn, change, o))
    {
      if change.Some? {
        var sent := producer.Send(change.value, o.send);
        if !sent {
          var _ := producer.AbortTransaction(o.abort);
          currentlyInTransaction := false;
        }
      }
    }

    /** Reports whether the event stopped the program. */
    method OnEvent(ev: ReplicationEvent, o: Outcomes) returns (stopped: bool)
      modifies this, producer
      ensures View().(stopped := stopped) == Handle(old(View()), ev, o)
    {
      hide ParseRelation, ParseChange;
      stopped := false;
      match ev {
        case XLogData(data) =>
          if data == [] {
            return true;
          }
          if data[0] == TAG_RELATION {
            var parsed := RelationDecoder.Parse(data);
            if parsed.Ok? {
              var _ := producer.OnRelation(parsed.value.inner, o.send);
              relations := relations[parsed.value.inner.oid := parsed.value];
            }
            return parsed == Err(IndexPanic);
          } else if IsChange(data) && currentlyInTransaction {
            var r := ParseChange(data, relations);
            if r == Err(IndexPanic) {
              return true;
            }
            SendToProducer(EventIn(r), o);
          }
        case BeginEvent =>
          if currentlyInTransaction {
            var _ := producer.AbortTransaction(o.abort);
          } else {
            currentlyInTransaction := true;
          }
          var _ := producer.StartTransaction(o.begin);
        case CommitEvent(lsn, endLsn) =>
          if currentlyInTransaction {
            currentlyInTransaction := false;
            var done := producer.CommitTransaction(endLsn, o.send, o.commit);
            if done {
              applied := lsn;
            }
          }
        case Other =>
      }
    }

    /** The loop: every event in turn, then the abort of what is still recorded when the connection ends. */
    method StartWalInput(evs: seq<(ReplicationEvent, Outcomes)>, ending: Ending) returns (stopped: bool)
      modifies this, producer
      ensures View().(stopped := stopped) == SessionResult(old(View()), evs, ending)
    {
      hide Handle;
      for i := 0 to |evs|
        invariant View() == HandleAll(old(View()), evs[..i])
      {
        stopped := OnEvent(evs[i].0, evs[i].1);
        assert evs[..i + 1][..i] == evs[..i];
        if stopped {
          StaysStopped(old(View()), evs, i + 1);
          return;
        }
      }
      assert evs[..|evs|] == evs;
      stopped := false;
      if ending.ReceiveFailed? {
        return;
      }
      if currentlyInTransaction {
        var _ := producer.AbortTransaction(ending.abortOk);
      }
    }
  }

  lemma {:induction false} StaysStopped(s: Session, evs: seq<(ReplicationEvent, Outcomes)>, i: nat)
    requires i <= |evs| && HandleAll(s, evs[..i]).stopped
    ensures HandleAll(s, evs) == HandleAll(s, evs[..i])
  {
    if i < |evs| {
      assert evs[..|evs| - 1][..i] == evs[..i];
      StaysStopped(s, evs[..|evs| - 1], i);
    } else {
      assert evs[..i] == evs;
    }
  }

  // ----- The checkpoint read back at start-up -----

  /** The last well-formed message wins; without one, reading starts from the beginning. */
  function LastLsn(messages: seq<Bytes>): UInt64
  {
    if messages == [] then 0
    else
      var last := |messages| - 1;
      if |messages[last]| == 8 then U64(messages[last]) else LastLsn(messages[..last])
  }

  /** The i-th message has eight octets, and no later one does. */
  predicate IsLastLsn(messages: seq<Bytes>, i: nat)
  {
    i < |messages| && |messages[i]| == 8 && forall j | i < j < |messages| :: |messages[j]| != 8
  }

  lemma {:induction false} LastLsnMeaning(messages: seq<Bytes>, n: UInt64)
    ensures LastLsn(messages) == n <==>
            || (n == 0 && forall i | 0 <= i < |messages| :: |messages[i]| != 8)
            || exists i: nat | IsLastLsn(messages, i) :: messages[i] == Put64(n)
  {
    hide U64, Put64;
    if messages != [] {
      var last := |messages| - 1;
      if |messages[last]| == 8 {
        assert IsLastLsn(messages, last);
        OctetsOf64(messages[last], n);
      } else {
        LastLsnMeaning(messages[..last], n);
        forall i: nat ensures IsLastLsn(messages, i) <==> IsLastLsn(messages[..last], i) {
        }
      }
    }
  }

  lemma OctetsOf64(data: Bytes, n: UInt64)
    requires |data| == 8
    ensures U64(data) == n <==> data == Put64(n)
  {
    hide U64, Put64;
    Printed64(data);
    Read64(n, []);
    assert Put64(n) + [] == Put64(n);
    assert data[..8] == data;
  }

  method ReadLsn(messages: seq<Bytes>) returns (latest: UInt64)
    ensures latest == LastLsn(messages)
  {
    hide U64;
    latest := 0;
    for i := 0 to |messages|
      invariant latest == LastLsn(messages[..i])
    {
      if |messages[i]| == 8 {
        latest := U64(messages[i]);
      }
      assert messages[..i + 1][..i] == messages[..i];
    }
    assert messages[..|messages|] == messages;
  }
}
