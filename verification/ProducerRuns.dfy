/** Whole runs of the producer: any interleaving of stream events, call failures, crashes and restarts. */
module ProducerRuns {
  import opened Wrappers
  import opened Wire
  import opened ChangeEvents
  import opened RelationDecoder
  import opened MessageDecoder
  import opened Producer

  // ----- The source -----

  /** A change as the decoder takes it: an event, a refusal, or an index out of range at which the program stops. */
  datatype SourceChange = Readable(event: ChangeEvent) | Rejected | Stopping

  datatype SourceTxn = SourceTxn(lsn: nat, endLsn: UInt64, changes: seq<SourceChange>)

  /** Commit records follow each other in the log without overlapping. */
  predicate ValidSource(src: seq<SourceTxn>)
  {
    && (forall i | 0 <= i < |src| :: src[i].lsn < src[i].endLsn)
    && (forall i, j | 0 <= i < j < |src| :: src[i].endLsn <= src[j].lsn)
  }

  function DecodableEvents(changes: seq<SourceChange>): (es: seq<ChangeEvent>)
    ensures |es| <= |changes|
  {
    if changes == [] then []
    else
      var last := |changes| - 1;
      DecodableEvents(changes[..last]) + if changes[last].Readable? then [changes[last].event] else []
  }

  function EventsOf(src: seq<SourceTxn>, i: nat): seq<ChangeEvent>
    requires i < |src|
  {
    DecodableEvents(src[i].changes)
  }

  lemma {:induction false} DecodablePrefix(changes: seq<SourceChange>, k: nat)
    requires k <= |changes|
    ensures var n := |DecodableEvents(changes[..k])|;
            n <= |DecodableEvents(changes)| && DecodableEvents(changes[..k]) == DecodableEvents(changes)[..n]
  {
    if k < |changes| {
      var last := |changes| - 1;
      DecodablePrefix(changes[..last], k);
      assert changes[..last][..k] == changes[..k];
    } else {
      assert changes[..k] == changes;
    }
  }

  // ----- What was sent -----

  function Events(rs: seq<Record>): seq<ChangeEvent>
  {
    if rs == [] then []
    else
      var last := |rs| - 1;
      Events(rs[..last]) + if rs[last].EventRecord? then [rs[last].event] else []
  }

  function Lsns(rs: seq<Record>): seq<nat>
  {
    if rs == [] then []
    else
      var last := |rs| - 1;
      Lsns(rs[..last]) + if rs[last].LsnRecord? then [rs[last].lsn] else []
  }

  lemma OneMore(rs: seq<Record>, r: Record)
    ensures Events(rs + [r]) == Events(rs) + if r.EventRecord? then [r.event] else []
    ensures Lsns(rs + [r]) == Lsns(rs) + if r.LsnRecord? then [r.lsn] else []
  {
    assert (rs + [r])[..|rs|] == rs;
  }

  /** The checkpoint topic: every LSN record of every committed batch, in order. */
  function LsnTopic(log: seq<seq<Record>>): seq<nat>
  {
    if log == [] then []
    else
      var last := |log| - 1;
      LsnTopic(log[..last]) + Lsns(log[last])
  }

  function Checkpoint(log: seq<seq<Record>>): nat
  {
    var lsns := LsnTopic(log);
    if lsns == [] then 0 else lsns[|lsns| - 1]
  }

  /** The first `n` decodable events of a source transaction. */
  datatype Piece = Piece(txn: nat, n: nat)

  predicate Fits(src: seq<SourceTxn>, p: Piece)
  {
    p.txn < |src| && p.n <= |EventsOf(src, p.txn)|
  }

  predicate Whole(src: seq<SourceTxn>, p: Piece)
  {
    p.txn < |src| && p.n == |EventsOf(src, p.txn)|
  }

  predicate AllFit(src: seq<SourceTxn>, ps: seq<Piece>)
  {
    forall i | 0 <= i < |ps| :: Fits(src, ps[i])
  }

  function Spelled(src: seq<SourceTxn>, ps: seq<Piece>): seq<ChangeEvent>
    requires AllFit(src, ps)
  {
    if ps == [] then []
    else
      var last := |ps| - 1;
      Spelled(src, ps[..last]) + EventsOf(src, ps[last].txn)[..ps[last].n]
  }

  predicate InOrder(ps: seq<Piece>)
  {
    forall i, j | 0 <= i < j < |ps| :: ps[i].txn < ps[j].txn
  }

  function Flatten(pss: seq<seq<Piece>>): seq<Piece>
  {
    if pss == [] then []
    else
      var last := |pss| - 1;
      Flatten(pss[..last]) + pss[last]
  }

  // ----- The system -----

  /** `at` and `stage` locate the next message of the source: 0 is the begin of transaction `at`, then its changes,
      then its commit. The last five fields are history: what the open Kafka transaction holds besides the current
      source transaction, what each batch was made of, how many source transactions the checkpoint covers, the
      transactions in flight when a call failed, and whether a failed abort left part of one behind. */
  datatype System = System(
    txn: Txn, at: nat, stage: nat,
    held: seq<Piece>, published: seq<seq<Piece>>, covered: nat, struck: set<nat>, torn: bool)

  function Initial(): System
  {
    System(Txn(false, 0, Kafka(false, [], [])), 0, 0, [], [], 0, {}, false)
  }

  datatype Step =
    | Deliver(o: Outcomes)
    | Announce(relation: Relation, o: Outcomes)
    | Idle
    | Restart
    | Close(abortOk: bool)

  /** The source resends the transactions whose commit LSN is not below where it is asked to start. */
  function Resume(src: seq<SourceTxn>, from: nat, i: nat): (at: nat)
    requires i <= |src|
    ensures i <= at <= |src|
    decreases |src| - i
  {
    if i == |src| || src[i].lsn >= from then i else Resume(src, from, i + 1)
  }

  /** The slot never starts below what was reported as applied. */
  function StartLsn(t: Txn): nat
  {
    var checkpoint := Checkpoint(t.kafka.log);
    if t.applied > checkpoint then t.applied else checkpoint
  }

  function Restarted(src: seq<SourceTxn>, st: System): System
  {
    st.(txn := Txn(false, st.txn.applied, Fenced(st.txn.kafka)),
        at := Resume(src, StartLsn(st.txn), 0), stage := 0, held := [], torn := false)
  }

  /** Decodable changes of the current transaction that were already sent. */
  function InFlight(src: seq<SourceTxn>, st: System): seq<ChangeEvent>
  {
    if st.txn.inTransaction && st.at < |src| && 1 <= st.stage <= |src[st.at].changes| + 1
    then DecodableEvents(src[st.at].changes[..st.stage - 1])
    else []
  }

  function AtRisk(st: System): set<nat>
  {
    {st.at} + set i | 0 <= i < |st.held| :: st.held[i].txn
  }

  /** Delivered inside a transaction, a stopping change ends the program; outside one it is not even decoded. */
  predicate Halts(src: seq<SourceTxn>, st: System, step: Step)
  {
    && step.Deliver? && st.at < |src| && 1 <= st.stage <= |src[st.at].changes|
    && src[st.at].changes[st.stage - 1].Stopping? && st.txn.inTransaction
  }

  /** The step that is taken: a program that ends so is started again. */
  function Taken(src: seq<SourceTxn>, st: System, step: Step): Step
  {
    if Halts(src, st, step) then Restart else step
  }

  function Next(src: seq<SourceTxn>, st: System, step: Step): System
  {
    Proceed(src, st, Taken(src, st, step))
  }

  function Proceed(src: seq<SourceTxn>, st: System, step: Step): System
  {
    match step
    case Idle => st
    case Announce(r, o) => st.(txn := OnRelation(st.txn, r, o))
    case Restart => Restarted(src, st)
    case Close(abortOk) => Restarted(src, st.(txn := Closed(st.txn, abortOk)))
    case Deliver(o) =>
      if st.at >= |src| then st
      else if st.stage == 0 then DeliverBegin(st, o)
      else if st.stage <= |src[st.at].changes| then DeliverChange(src, st, src[st.at].changes[st.stage - 1], o)
      else DeliverCommit(src, st, o)
  }

  function DeliverBegin(st: System, o: Outcomes): System
  {
    st.(txn := OnBegin(st.txn, o), stage := 1, struck := if o.begin then st.struck else st.struck + AtRisk(st))
  }

  function DeliverChange(src: seq<SourceTxn>, st: System, change: SourceChange, o: Outcomes): System
  {
    var t := OnChange(st.txn, if change.Readable? then Some(change.event) else None, o);
    var moved := st.(txn := t, stage := st.stage + 1);
    if t.inTransaction == st.txn.inTransaction then moved
    else if !t.kafka.open then moved.(held := [], torn := false, struck := st.struck + AtRisk(st))
    else
      var part := InFlight(src, st);
      moved.(held := if part == [] then st.held else st.held + [Piece(st.at, |part|)],
             torn := st.torn || part != [],
             struck := st.struck + AtRisk(st))
  }

  function DeliverCommit(src: seq<SourceTxn>, st: System, o: Outcomes): System
    requires st.at < |src|
  {
    var tx := src[st.at];
    var t := OnCommit(st.txn, tx.lsn, tx.endLsn, o);
    var moved := st.(txn := t, at := st.at + 1, stage := 0);
    var whole := st.held + [Piece(st.at, |EventsOf(src, st.at)|)];
    if !st.txn.inTransaction then moved
    else if !st.txn.kafka.open then moved.(struck := st.struck + AtRisk(st))
    else if t.kafka.open then moved.(held := whole, struck := st.struck + AtRisk(st))
    else moved.(held := [], torn := false, published := st.published + [whole], covered := st.at + 1)
  }

  function ChangeIn(r: Decoded<(ChangeEvent, RelationData)>): SourceChange
  {
    match r
    case Ok(read) => Readable(read.0)
    case Err(IndexPanic) => Stopping
    case Err(_) => Rejected
  }

  /** The message that the source sends next, as the loop receives it. */
  predicate IsNextMessage(src: seq<SourceTxn>, st: System, relations: RelationMap, ev: ReplicationEvent)
    requires st.at < |src|
  {
    var tx := src[st.at];
    if st.stage == 0 then ev == BeginEvent
    else if st.stage > |tx.changes| then ev.CommitEvent? && ev.lsn == tx.lsn && ev.endLsn == tx.endLsn
    else ev.XLogData? && IsChange(ev.data) && ChangeIn(ParseChange(ev.data, relations)) == tx.changes[st.stage - 1]
  }

  /** The event loop does to the producer what a delivery does in the system; where it stops the program, the system
      goes on with what the next program finds. */
  lemma LoopFollowsSystem(src: seq<SourceTxn>, st: System, s: Session, ev: ReplicationEvent, o: Outcomes)
    requires !s.stopped && s.txn == st.txn && st.at < |src| && IsNextMessage(src, st, s.relations, ev)
    ensures var s2, next := Handle(s, ev, o), Next(src, st, Deliver(o));
            && (s2.stopped <==> Halts(src, st, Deliver(o)))
            && s2.relations == s.relations
            && next.txn == if s2.stopped then Txn(false, s2.txn.applied, Fenced(s2.txn.kafka)) else s2.txn
  {
    hide ParseChange, ParseRelation, EventsOf, InFlight, AtRisk, Resume, StartLsn;
  }

  function Run(src: seq<SourceTxn>, steps: seq<Step>): System
  {
    if steps == [] then Initial()
    else
      var last := |steps| - 1;
      Next(src, Run(src, steps[..last]), steps[last])
  }

  // ----- What every step keeps -----

  predicate GoodPosition(src: seq<SourceTxn>, st: System)
  {
    && st.at <= |src| && st.covered <= st.at
    && (st.at == |src| ==> st.stage == 0)
    && (st.at < |src| ==> st.stage <= |src[st.at].changes| + 1)
    && (st.txn.inTransaction ==> st.stage >= 1)
  }

  /** The open transaction holds what was left in it and the current transaction so far, and nothing when closed. */
  predicate GoodBuffer(src: seq<SourceTxn>, st: System)
  {
    && (!st.txn.kafka.open ==> st.txn.kafka.buffer == [] && st.held == [] && InFlight(src, st) == [])
    && AllFit(src, st.held)
    && Events(st.txn.kafka.buffer) == Spelled(src, st.held) + InFlight(src, st)
  }

  /** Where the first `i` transactions end. */
  function EndOf(src: seq<SourceTxn>, i: nat): nat
    requires i <= |src|
  {
    if i == 0 then 0 else src[i - 1].endLsn
  }

  /** The checkpoint is the end of the covered transactions, and what was reported upstream does not exceed it. */
  predicate GoodCheckpoint(src: seq<SourceTxn>, st: System)
  {
    && st.covered <= |src|
    && Checkpoint(st.txn.kafka.log) == EndOf(src, st.covered)
    && st.txn.applied == if st.covered == 0 then 0 else src[st.covered - 1].lsn
  }

  lemma {:induction false} ResumeAt(src: seq<SourceTxn>, i: nat, n: nat)
    requires ValidSource(src) && i <= n <= |src|
    ensures Resume(src, EndOf(src, n), i) == n
    decreases n - i
  {
    if i < n {
      ResumeAt(src, i + 1, n);
    }
  }

  /** A restart resumes right after the covered transactions. */
  lemma ResumeAfterCovered(src: seq<SourceTxn>, st: System)
    requires ValidSource(src) && GoodCheckpoint(src, st)
    ensures Resume(src, StartLsn(st.txn), 0) == st.covered
  {
    ResumeAt(src, 0, st.covered);
  }

  lemma PositionKept(src: seq<SourceTxn>, st: System, step: Step)
    requires ValidSource(src) && GoodPosition(src, st) && GoodCheckpoint(src, st)
    ensures GoodPosition(src, Proceed(src, st, step))
  {
    hide Checkpoint, Events, Lsns, LsnTopic, DecodableEvents, Resume;
    ResumeAfterCovered(src, st);
  }

  lemma Nothing(src: seq<SourceTxn>)
    ensures AllFit(src, [])
    ensures Spelled(src, []) == Spelled(src, []) + [] == [] && Events([]) == [] && Lsns([]) == [] &&
            DecodableEvents([]) == []
  {
  }

  lemma DecodableStep(changes: seq<SourceChange>, k: nat)
    requires k < |changes|
    ensures DecodableEvents(changes[..k + 1]) ==
            DecodableEvents(changes[..k]) + if changes[k].Readable? then [changes[k].event] else []
  {
    assert changes[..k + 1][..k] == changes[..k];
  }

  lemma SpelledMore(src: seq<SourceTxn>, ps: seq<Piece>, p: Piece)
    requires AllFit(src, ps) && Fits(src, p)
    ensures AllFit(src, ps + [p]) && Spelled(src, ps + [p]) == Spelled(src, ps) + EventsOf(src, p.txn)[..p.n]
  {
    assert (ps + [p])[..|ps|] == ps;
  }

  /** Keeping the abandoned part of transaction `i` as a piece spells the same events. */
  lemma AbandonedPart(src: seq<SourceTxn>, held: seq<Piece>, i: nat, k: nat)
    requires AllFit(src, held) && i < |src| && k <= |src[i].changes|
    ensures var part := DecodableEvents(src[i].changes[..k]);
            var left := if part == [] then held else held + [Piece(i, |part|)];
            AllFit(src, left) && Spelled(src, left) + [] == Spelled(src, held) + part
  {
    hide Spelled, DecodableEvents;
    var part := DecodableEvents(src[i].changes[..k]);
    DecodablePrefix(src[i].changes, k);
    if part != [] {
      SpelledMore(src, held, Piece(i, |part|));
      var left := held + [Piece(i, |part|)];
      assert Spelled(src, left) + [] == Spelled(src, left);
    } else {
      assert Spelled(src, held) + [] == Spelled(src, held) + part;
    }
  }

  lemma BufferKeptByChange(src: seq<SourceTxn>, st: System, o: Outcomes)
    requires GoodPosition(src, st) && GoodBuffer(src, st)
    requires st.at < |src| && 1 <= st.stage <= |src[st.at].changes|
    ensures GoodBuffer(src, Proceed(src, st, Deliver(o)))
  {
    hide Spelled, Events, DecodableEvents, AllFit, AtRisk;
    var changes := src[st.at].changes;
    var change := changes[st.stage - 1];
    DecodableStep(changes, st.stage - 1);
    Nothing(src);
    if st.txn.inTransaction && change.Readable? {
      OneMore(st.txn.kafka.buffer, EventRecord(change.event));
      var part := InFlight(src, st);
      assert (Spelled(src, st.held) + part) + [change.event] == Spelled(src, st.held) + (part + [change.event]);
      AbandonedPart(src, st.held, st.at, st.stage - 1);
    }
  }

  /** At the commit, what the open transaction holds is whole transactions if what it held before was. */
  lemma HeldAtCommit(src: seq<SourceTxn>, st: System)
    requires st.at < |src| && st.stage == |src[st.at].changes| + 1 && st.txn.inTransaction && AllFit(src, st.held)
    ensures var whole := st.held + [Piece(st.at, |EventsOf(src, st.at)|)];
            && AllFit(src, whole)
            && Spelled(src, whole) == Spelled(src, whole) + [] == Spelled(src, st.held) + InFlight(src, st)
  {
    hide Spelled, EventsOf, DecodableEvents;
    InFlightAtCommit(src, st);
    var all := EventsOf(src, st.at);
    assert all[..|all|] == all;
    SpelledMore(src, st.held, Piece(st.at, |all|));
  }

  lemma BufferKeptByCommit(src: seq<SourceTxn>, st: System, o: Outcomes)
    requires GoodPosition(src, st) && GoodBuffer(src, st)
    requires st.at < |src| && st.stage == |src[st.at].changes| + 1
    ensures GoodBuffer(src, Proceed(src, st, Deliver(o)))
  {
    hide Spelled, Events, EventsOf, DecodableEvents;
    if st.txn.inTransaction {
      HeldAtCommit(src, st);
      OneMore(st.txn.kafka.buffer, LsnRecord(src[st.at].endLsn));
    }
    Nothing(src);
  }

  lemma InFlightAtCommit(src: seq<SourceTxn>, st: System)
    requires st.at < |src| && st.stage == |src[st.at].changes| + 1 && st.txn.inTransaction
    ensures InFlight(src, st) == EventsOf(src, st.at)
  {
    assert src[st.at].changes[..|src[st.at].changes|] == src[st.at].changes;
  }

  lemma BufferKept(src: seq<SourceTxn>, st: System, step: Step)
    requires GoodPosition(src, st) && GoodBuffer(src, st)
    ensures GoodBuffer(src, Proceed(src, st, step))
  {
    hide GoodBuffer, DeliverBegin, DeliverChange, DeliverCommit, OnRelation, Restarted;
    match step {
      case Idle =>
      case Deliver(o) =>
        if st.at < |src| {
          if 1 <= st.stage <= |src[st.at].changes| {
            BufferKeptByChange(src, st, o);
          } else if st.stage > 0 {
            BufferKeptByCommit(src, st, o);
          } else {
            BufferKeptByBegin(src, st, o);
          }
        }
      case _ => BufferKeptOtherwise(src, st, step);
    }
  }

  lemma BufferKeptByBegin(src: seq<SourceTxn>, st: System, o: Outcomes)
    requires GoodPosition(src, st) && GoodBuffer(src, st) && st.at < |src| && st.stage == 0
    ensures GoodBuffer(src, DeliverBegin(st, o))
  {
    hide Spelled, Events, EventsOf, DecodableEvents;
    Nothing(src);
    assert src[st.at].changes[..0] == [];
  }

  lemma BufferKeptOtherwise(src: seq<SourceTxn>, st: System, step: Step)
    requires GoodPosition(src, st) && GoodBuffer(src, st) && !step.Deliver?
    ensures GoodBuffer(src, Proceed(src, st, step))
  {
    hide Spelled, Events, EventsOf, DecodableEvents, Resume, StartLsn;
    Nothing(src);
    if step.Announce? {
      OneMore(st.txn.kafka.buffer, RelationRecord(step.relation));
    }
  }

  /** The checkpoint records, committed and then pending. */
  function LsnsOf(k: Kafka): seq<nat>
  {
    LsnTopic(k.log) + Lsns(k.buffer)
  }

  predicate RisingTo(lsns: seq<nat>, bound: nat)
  {
    Increasing(lsns) && forall i | 0 <= i < |lsns| :: lsns[i] <= bound
  }

  /** They strictly increase and never run ahead of the stream. */
  predicate GoodLsns(src: seq<SourceTxn>, st: System)
  {
    st.at <= |src| && RisingTo(LsnsOf(st.txn.kafka), EndOf(src, st.at))
  }

  lemma TopicMore(log: seq<seq<Record>>, batch: seq<Record>)
    ensures LsnTopic(log + [batch]) == LsnTopic(log) + Lsns(batch)
  {
    assert (log + [batch])[..|log|] == log;
  }

  lemma NoLsns()
    ensures Lsns([]) == []
  {
  }

  /** How each call changes the checkpoint records. */
  lemma LsnsAfterCalls(k: Kafka, r: Record, ok: bool)
    ensures k.open || k.buffer == [] ==> LsnsOf(Begun(k, ok)) == LsnsOf(k)
    ensures LsnsOf(Sent(k, r, ok)) == if r.LsnRecord? && Accepts(k, ok) then LsnsOf(k) + [r.lsn] else LsnsOf(k)
    ensures LsnsOf(Committed(k, ok)) == LsnsOf(k)
    ensures LsnsOf(Fenced(k)) == LsnTopic(k.log)
    ensures LsnsOf(Aborted(k, ok)) == if Accepts(k, ok) then LsnTopic(k.log) else LsnsOf(k)
  {
    hide Lsns, LsnTopic;
    NoLsns();
    OneMore(k.buffer, r);
    TopicMore(k.log, k.buffer);
    var topic, pending := LsnTopic(k.log), Lsns(k.buffer);
    assert topic + [] == topic;
    assert topic + pending + [] == topic + pending;
    if r.LsnRecord? {
      assert topic + (pending + [r.lsn]) == topic + pending + [r.lsn];
    } else {
      assert pending + [] == pending;
    }
  }

  lemma RisingMore(lsns: seq<nat>, bound: nat, next: nat)
    requires RisingTo(lsns, bound) && bound < next
    ensures RisingTo(lsns + [next], next)
  {
  }

  lemma RisingFurther(lsns: seq<nat>, bound: nat, next: nat)
    requires RisingTo(lsns, bound) && bound <= next
    ensures RisingTo(lsns, next)
  {
  }

  /** The committed records alone rise to the checkpoint. */
  lemma TopicRises(src: seq<SourceTxn>, st: System)
    requires GoodLsns(src, st) && GoodCheckpoint(src, st) && GoodPosition(src, st)
    ensures RisingTo(LsnTopic(st.txn.kafka.log), EndOf(src, st.covered))
    ensures RisingTo(LsnTopic(st.txn.kafka.log), EndOf(src, st.at))
  {
    hide LsnTopic, Lsns;
    var topic := LsnTopic(st.txn.kafka.log);
    assert forall i | 0 <= i < |topic| :: LsnsOf(st.txn.kafka)[i] == topic[i];
  }

  lemma CheckpointAfterCommit(k: Kafka, lsn: UInt64)
    requires k.open
    ensures Checkpoint(Committed(Sent(k, LsnRecord(lsn), true), true).log) == lsn
  {
    hide LsnTopic, Lsns;
    OneMore(k.buffer, LsnRecord(lsn));
    TopicMore(k.log, k.buffer + [LsnRecord(lsn)]);
  }

  /** The records after a commit: one more if it was written, and visible if the commit succeeded. */
  lemma LsnsAfterCommit(t: Txn, lsn: nat, endLsn: UInt64, o: Outcomes)
    ensures var k := OnCommit(t, lsn, endLsn, o).kafka;
            && (LsnsOf(k) == LsnsOf(t.kafka) || LsnsOf(k) == LsnsOf(t.kafka) + [endLsn])
            && (k.log == t.kafka.log || Checkpoint(k.log) == endLsn)
  {
    hide LsnsOf, Checkpoint;
    LsnsAfterCalls(t.kafka, LsnRecord(endLsn), o.send);
    LsnsAfterCalls(Sent(t.kafka, LsnRecord(endLsn), o.send), LsnRecord(endLsn), o.commit);
    if t.kafka.open {
      CheckpointAfterCommit(t.kafka, endLsn);
    }
  }

  lemma LsnsKeptByCommit(src: seq<SourceTxn>, st: System, o: Outcomes)
    requires ValidSource(src) && GoodLsns(src, st) && GoodPosition(src, st) && st.at < |src|
    ensures GoodLsns(src, DeliverCommit(src, st, o))
  {
    hide LsnsOf, Checkpoint, EventsOf, AtRisk, RisingTo, Sent, Committed, OnCommit;
    var endLsn := src[st.at].endLsn;
    assert EndOf(src, st.at) < endLsn == EndOf(src, st.at + 1);
    LsnsAfterCommit(st.txn, src[st.at].lsn, endLsn, o);
    RisingMore(LsnsOf(st.txn.kafka), EndOf(src, st.at), endLsn);
    RisingFurther(LsnsOf(st.txn.kafka), EndOf(src, st.at), endLsn);
  }

  lemma CheckpointKeptByCommit(src: seq<SourceTxn>, st: System, o: Outcomes)
    requires GoodCheckpoint(src, st) && st.at < |src|
    ensures GoodCheckpoint(src, DeliverCommit(src, st, o))
  {
    hide LsnsOf, Checkpoint, EventsOf, AtRisk, Increasing;
    LsnsAfterCommit(st.txn, src[st.at].lsn, src[st.at].endLsn, o);
  }

  lemma LsnsKept(src: seq<SourceTxn>, st: System, step: Step)
    requires ValidSource(src) && GoodLsns(src, st) && GoodCheckpoint(src, st) && GoodPosition(src, st) &&
             GoodBuffer(src, st)
    ensures GoodLsns(src, Proceed(src, st, step)) && GoodCheckpoint(src, Proceed(src, st, step))
  {
    hide LsnsOf, LsnTopic, Checkpoint, InFlight, Spelled, AllFit, Events, Resume, StartLsn, DeliverCommit, AtRisk,
      RisingTo, DecodableEvents;
    var k := st.txn.kafka;
    TopicRises(src, st);
    match step {
      case Idle =>
      case Restart =>
        ResumeAfterCovered(src, st);
        LsnsAfterCalls(k, LsnRecord(0), true);
      case Close(abortOk) =>
        ResumeAfterCovered(src, st.(txn := Closed(st.txn, abortOk)));
        LsnsAfterCalls(k, LsnRecord(0), true);
        LsnsAfterCalls(Aborted(k, abortOk), LsnRecord(0), true);
      case Announce(r, o) => LsnsAfterCalls(k, RelationRecord(r), o.send);
      case Deliver(o) =>
        if st.at < |src| {
          if st.stage == 0 {
            LsnsAfterCalls(k, LsnRecord(0), o.begin);
          } else if st.stage <= |src[st.at].changes| {
            LsnsKeptByChange(src, st, src[st.at].changes[st.stage - 1], o);
          } else {
            LsnsKeptByCommit(src, st, o);
            CheckpointKeptByCommit(src, st, o);
          }
        }
    }
  }

  lemma LsnsKeptByChange(src: seq<SourceTxn>, st: System, change: SourceChange, o: Outcomes)
    requires GoodLsns(src, st) && GoodCheckpoint(src, st) && GoodPosition(src, st)
    ensures GoodLsns(src, DeliverChange(src, st, change, o)) && GoodCheckpoint(src, DeliverChange(src, st, change, o))
  {
    hide LsnsOf, LsnTopic, Checkpoint, InFlight, AtRisk, RisingTo;
    TopicRises(src, st);
    if change.Readable? {
      LsnsAfterCalls(st.txn.kafka, EventRecord(change.event), o.send);
      LsnsAfterCalls(st.txn.kafka, EventRecord(change.event), o.abort);
    }
  }

  // ----- Batches are made of pieces, in order -----

  predicate AllBelow(ps: seq<Piece>, bound: nat)
  {
    forall i | 0 <= i < |ps| :: ps[i].txn < bound
  }

  predicate AllFrom(ps: seq<Piece>, bound: nat)
  {
    forall i | 0 <= i < |ps| :: bound <= ps[i].txn
  }

  /** Every batch is spelled by its pieces; what was published lies below the checkpoint, what is held above it. */
  predicate GoodLog(src: seq<SourceTxn>, st: System)
  {
    && |st.txn.kafka.log| == |st.published|
    && (forall b | 0 <= b < |st.published| ::
          AllFit(src, st.published[b]) && Events(st.txn.kafka.log[b]) == Spelled(src, st.published[b]))
  }

  predicate GoodOrder(st: System)
  {
    && InOrder(Flatten(st.published)) && AllBelow(Flatten(st.published), st.covered)
    && InOrder(st.held) && AllFrom(st.held, st.covered)
    && AllBelow(st.held, if st.stage >= 1 && !st.txn.inTransaction then st.at + 1 else st.at)
  }

  lemma FlattenMore(pss: seq<seq<Piece>>, ps: seq<Piece>)
    ensures Flatten(pss + [ps]) == Flatten(pss) + ps
  {
    assert (pss + [ps])[..|pss|] == pss;
  }

  lemma LogKept(src: seq<SourceTxn>, st: System, step: Step)
    requires GoodPosition(src, st) && GoodBuffer(src, st) && GoodLog(src, st)
    ensures GoodLog(src, Proceed(src, st, step))
  {
    hide Spelled, Events, EventsOf, DecodableEvents, InFlight, AllFit, Resume, StartLsn, AtRisk;
    match step {
      case Deliver(o) =>
        if st.at < |src| && st.stage == |src[st.at].changes| + 1 && st.txn.inTransaction {
          HeldAtCommit(src, st);
          OneMore(st.txn.kafka.buffer, LsnRecord(src[st.at].endLsn));
        }
      case _ =>
    }
  }

  lemma OrderKeptByCommit(src: seq<SourceTxn>, st: System, o: Outcomes)
    requires GoodPosition(src, st) && GoodOrder(st)
    requires st.at < |src| && st.stage == |src[st.at].changes| + 1
    ensures GoodOrder(DeliverCommit(src, st, o))
  {
    hide Flatten, EventsOf, AtRisk, OnCommit;
    FlattenMore(st.published, st.held + [Piece(st.at, |EventsOf(src, st.at)|)]);
  }

  lemma OrderKept(src: seq<SourceTxn>, st: System, step: Step)
    requires ValidSource(src) && GoodPosition(src, st) && GoodCheckpoint(src, st) && GoodOrder(st)
    ensures GoodOrder(Proceed(src, st, step))
  {
    hide Flatten, EventsOf, InFlight, Resume, StartLsn, AtRisk, Checkpoint, EndOf, DeliverCommit, Begun, Sent, Aborted;
    ResumeAfterCovered(src, st);
    if step.Deliver? && st.at < |src| && st.stage == |src[st.at].changes| + 1 {
      OrderKeptByCommit(src, st, step.o);
    }
  }

  // ----- Torn pieces -----

  /** A proper, nonempty part of a transaction. */
  predicate Partial(src: seq<SourceTxn>, p: Piece)
  {
    p.txn < |src| && 0 < p.n < |EventsOf(src, p.txn)|
  }

  predicate HasPartial(src: seq<SourceTxn>, ps: seq<Piece>)
  {
    exists i | 0 <= i < |ps| :: Partial(src, ps[i])
  }

  predicate Classified(src: seq<SourceTxn>, ps: seq<Piece>)
  {
    forall i | 0 <= i < |ps| :: Whole(src, ps[i]) || Partial(src, ps[i])
  }

  /** The flag `torn` says whether the open Kafka transaction holds part of an abandoned source transaction. */
  predicate GoodTorn(src: seq<SourceTxn>, st: System)
  {
    && Classified(src, st.held) && (st.torn <==> HasPartial(src, st.held))
    && forall b | 0 <= b < |st.published| :: Classified(src, st.published[b])
  }

  /** The commit that makes a torn transaction visible. */
  predicate TornCommit(src: seq<SourceTxn>, st: System, step: Step)
  {
    && step.Deliver? && st.at < |src| && st.stage == |src[st.at].changes| + 1
    && st.txn.inTransaction && st.txn.kafka.open && step.o.send && step.o.commit && st.torn
  }

  lemma PartialIsProper(src: seq<SourceTxn>, st: System)
    requires st.at < |src| && 1 <= st.stage <= |src[st.at].changes| && src[st.at].changes[st.stage - 1].Readable?
    requires InFlight(src, st) != []
    ensures Partial(src, Piece(st.at, |InFlight(src, st)|))
  {
    var changes := src[st.at].changes;
    DecodablePrefix(changes, st.stage);
    DecodableStep(changes, st.stage - 1);
  }

  lemma ClassifiedMore(src: seq<SourceTxn>, ps: seq<Piece>, p: Piece)
    requires Classified(src, ps) && (Whole(src, p) || Partial(src, p))
    ensures Classified(src, ps + [p])
    ensures HasPartial(src, ps + [p]) <==> HasPartial(src, ps) || Partial(src, p)
  {
    hide Whole, Partial;
    var more := ps + [p];
    assert more[|ps|] == p;
    forall i | 0 <= i < |ps| ensures more[i] == ps[i] {
    }
    if HasPartial(src, ps) {
      var i :| 0 <= i < |ps| && Partial(src, ps[i]);
      assert Partial(src, more[i]);
    }
  }

  /** A commit publishes a partial piece exactly when it is a torn commit. */
  lemma TornKept(src: seq<SourceTxn>, st: System, step: Step)
    requires GoodPosition(src, st) && GoodTorn(src, st)
    ensures GoodTorn(src, Proceed(src, st, step))
    ensures var was, now := st.published, Proceed(src, st, step).published;
            || (now == was && !TornCommit(src, st, step))
            || (|now| == |was| + 1 && now[..|was|] == was &&
               (HasPartial(src, now[|was|]) <==> TornCommit(src, st, step)))
  {
    hide EventsOf, InFlight, Resume, StartLsn, AtRisk, Checkpoint, Whole, Partial, Classified, HasPartial;
    NothingTorn(src);
    match step {
      case Deliver(o) =>
        if st.at < |src| {
          if 1 <= st.stage <= |src[st.at].changes| {
            if st.txn.inTransaction && src[st.at].changes[st.stage - 1].Readable? && InFlight(src, st) != [] {
              PartialIsProper(src, st);
              ClassifiedMore(src, st.held, Piece(st.at, |InFlight(src, st)|));
            }
          } else if st.stage > 0 {
            WholeIsNotPartial(src, st.at);
            ClassifiedMore(src, st.held, Piece(st.at, |EventsOf(src, st.at)|));
          }
        }
      case _ =>
    }
  }

  lemma TornByStep(src: seq<SourceTxn>, st: System, step: Step)
    requires GoodPosition(src, st) && GoodTorn(src, st)
    ensures var was, now := st.published, Next(src, st, step).published;
            || (now == was && !TornCommit(src, st, step))
            || (|now| == |was| + 1 && now[..|was|] == was &&
                (HasPartial(src, now[|was|]) <==> TornCommit(src, st, step)))
  {
    hide GoodPosition, GoodTorn, HasPartial, Proceed;
    TornKept(src, st, Taken(src, st, step));
  }

  lemma NothingTorn(src: seq<SourceTxn>)
    ensures Classified(src, []) && !HasPartial(src, [])
  {
  }

  lemma WholeIsNotPartial(src: seq<SourceTxn>, i: nat)
    requires i < |src|
    ensures Whole(src, Piece(i, |EventsOf(src, i)|)) && !Partial(src, Piece(i, |EventsOf(src, i)|))
  {
  }

  // ----- Loss -----

  function Entire(src: seq<SourceTxn>, i: nat): Piece
    requires i < |src|
  {
    Piece(i, |EventsOf(src, i)|)
  }

  predicate Accounted(src: seq<SourceTxn>, st: System, i: nat)
    requires i < |src|
  {
    i in st.struck || Entire(src, i) in Flatten(st.published)
  }

  /** Whatever the checkpoint covers was published whole or was struck; whatever the stream has passed may also be
      held. */
  predicate GoodAccount(src: seq<SourceTxn>, st: System)
  {
    && st.covered <= |src| && st.at <= |src|
    && (forall i: nat | i < st.covered :: Accounted(src, st, i))
    && (forall i: nat | i < st.at :: Accounted(src, st, i) || Entire(src, i) in st.held)
    && (st.stage >= 1 && !st.txn.inTransaction ==> st.at in st.struck)
  }

  lemma AtRiskHolds(st: System, i: nat, src: seq<SourceTxn>)
    requires i < |src| && Entire(src, i) in st.held
    ensures i in AtRisk(st)
  {
  }

  lemma AccountKeptByCommit(src: seq<SourceTxn>, st: System, o: Outcomes)
    requires ValidSource(src) && GoodPosition(src, st) && GoodBuffer(src, st) && GoodAccount(src, st)
    requires st.at < |src| && st.stage == |src[st.at].changes| + 1
    ensures GoodAccount(src, DeliverCommit(src, st, o))
  {
    hide EventsOf, InFlight, AtRisk, Flatten, Events, Spelled, AllFit, DecodableEvents;
    var st2 := DeliverCommit(src, st, o);
    var whole := st.held + [Entire(src, st.at)];
    FlattenMore(st.published, whole);
    CurrentIsAtRisk(st);
    forall i: nat | i < st2.at ensures Accounted(src, st2, i) || Entire(src, i) in st2.held {
      if i < st.at && Entire(src, i) in st.held {
        AtRiskHolds(st, i, src);
        assert Entire(src, i) in whole;
      }
      assert Entire(src, st.at) in whole;
    }
    forall i: nat | i < st2.covered ensures Accounted(src, st2, i) {
      assert i < st.covered ==> Accounted(src, st, i);
    }
  }

  lemma AccountKept(src: seq<SourceTxn>, st: System, step: Step)
    requires ValidSource(src) && GoodPosition(src, st) && GoodCheckpoint(src, st) && GoodBuffer(src, st) &&
             GoodAccount(src, st)
    ensures GoodAccount(src, Proceed(src, st, step))
  {
    hide EventsOf, InFlight, Resume, StartLsn, AtRisk, Checkpoint, EndOf, Flatten, Events, Spelled, AllFit,
      DecodableEvents, DeliverCommit;
    var st2 := Proceed(src, st, step);
    if step.Deliver? && st.at < |src| && st.stage == |src[st.at].changes| + 1 {
      AccountKeptByCommit(src, st, step.o);
    } else {
      CurrentIsAtRisk(st);
      ResumeAfterCovered(src, st);
      if step.Close? {
        ResumeAfterCovered(src, st.(txn := Closed(st.txn, step.abortOk)));
      }
      forall i: nat | i < st2.covered ensures Accounted(src, st2, i) {
        assert Accounted(src, st, i);
      }
      forall i: nat | i < st2.at ensures Accounted(src, st2, i) || Entire(src, i) in st2.held {
        assert Accounted(src, st, i) || Entire(src, i) in st.held;
        if Entire(src, i) in st.held {
          AtRiskHolds(st, i, src);
        }
      }
    }
  }

  lemma CurrentIsAtRisk(st: System)
    ensures st.at in AtRisk(st)
  {
  }

  // ----- All together -----

  predicate Inv(src: seq<SourceTxn>, st: System)
  {
    && GoodPosition(src, st) && GoodBuffer(src, st) && GoodCheckpoint(src, st) && GoodLsns(src, st)
    && GoodLog(src, st) && GoodOrder(st) && GoodTorn(src, st) && GoodAccount(src, st)
  }

  lemma InitialIsGood(src: seq<SourceTxn>)
    requires ValidSource(src)
    ensures Inv(src, Initial())
  {
  }

  lemma InvKept(src: seq<SourceTxn>, st: System, step: Step)
    requires ValidSource(src) && Inv(src, st)
    ensures Inv(src, Next(src, st, step))
  {
    hide GoodPosition, GoodBuffer, GoodCheckpoint, GoodLsns, GoodLog, GoodOrder, GoodTorn, GoodAccount, Proceed, Taken;
    var taken := Taken(src, st, step);
    PositionKept(src, st, taken);
    BufferKept(src, st, taken);
    LsnsKept(src, st, taken);
    LogKept(src, st, taken);
    OrderKept(src, st, taken);
    TornKept(src, st, taken);
    AccountKept(src, st, taken);
  }

  lemma {:induction false} RunIsGood(src: seq<SourceTxn>, steps: seq<Step>)
    requires ValidSource(src)
    ensures Inv(src, Run(src, steps))
  {
    hide Inv, Next;
    if steps == [] {
      InitialIsGood(src);
    } else {
      RunIsGood(src, steps[..|steps| - 1]);
      InvKept(src, Run(src, steps[..|steps| - 1]), steps[|steps| - 1]);
    }
  }

  // ----- Main results -----

  /** Checkpoint order: in every run, with any failures and restarts, the records of the checkpoint topic strictly
      increase, the last is the greatest, it is where the covered source transactions end, a restart resumes right
      after them, and what was reported upstream never exceeds it. */
  lemma CheckpointOrder(src: seq<SourceTxn>, steps: seq<Step>)
    requires ValidSource(src)
    ensures var st := Run(src, steps);
            var topic := LsnTopic(st.txn.kafka.log);
            && Increasing(topic)
            && (forall x | x in topic :: x <= Checkpoint(st.txn.kafka.log))
            && st.covered <= |src| && Checkpoint(st.txn.kafka.log) == EndOf(src, st.covered)
            && st.txn.applied <= Checkpoint(st.txn.kafka.log)
            && Next(src, st, Restart).at == st.covered
  {
    hide LsnTopic, GoodLog, GoodOrder, GoodTorn, GoodAccount, GoodBuffer, Run, RisingTo, EndOf;
    RunIsGood(src, steps);
    var st := Run(src, steps);
    TopicRises(src, st);
    ResumeAfterCovered(src, st);
    RisingMeans(LsnTopic(st.txn.kafka.log), EndOf(src, st.covered));
    AppliedIsEarlier(src, st);
  }

  lemma RisingMeans(lsns: seq<nat>, bound: nat)
    requires RisingTo(lsns, bound)
    ensures Increasing(lsns) && forall x | x in lsns :: x <= bound
  {
  }

  lemma AppliedIsEarlier(src: seq<SourceTxn>, st: System)
    requires ValidSource(src) && GoodCheckpoint(src, st)
    ensures st.txn.applied <= EndOf(src, st.covered)
  {
  }

  /** At most once, in order: in every run each batch is spelled by prefixes of source transactions, each
      transaction occurs once at most over all batches, in source order, and only below the checkpoint. */
  lemma AtMostOnceInOrder(src: seq<SourceTxn>, steps: seq<Step>)
    requires ValidSource(src)
    ensures var st := Run(src, steps);
            && GoodLog(src, st)
            && InOrder(Flatten(st.published)) && AllBelow(Flatten(st.published), st.covered)
  {
    hide Inv, Flatten, Run, GoodLog;
    RunIsGood(src, steps);
    InvParts(src, Run(src, steps));
  }

  lemma InvParts(src: seq<SourceTxn>, st: System)
    requires Inv(src, st)
    ensures GoodLog(src, st) && GoodOrder(st) && GoodTorn(src, st) && GoodAccount(src, st)
    ensures GoodPosition(src, st) && GoodBuffer(src, st) && GoodCheckpoint(src, st)
  {
    hide GoodLog, GoodOrder, GoodTorn, GoodAccount, GoodPosition, GoodBuffer, GoodCheckpoint, GoodLsns;
  }

  /** Loss bound: in every run a transaction below the checkpoint is missing from the batches, as a whole, only if
      a call to Kafka failed while it was in flight. */
  lemma LossBound(src: seq<SourceTxn>, steps: seq<Step>, i: nat)
    requires ValidSource(src) && i < |src|
    requires src[i].endLsn <= Checkpoint(Run(src, steps).txn.kafka.log)
    ensures var st := Run(src, steps);
            Entire(src, i) in Flatten(st.published) || i in st.struck
  {
    hide Inv, Flatten, Run, Checkpoint, GoodLog, GoodOrder, GoodTorn, GoodBuffer;
    RunIsGood(src, steps);
    var st := Run(src, steps);
    InvParts(src, st);
    BelowCheckpoint(src, st.covered, i);
    assert Accounted(src, st, i);
  }

  /** The covered transactions are those that end at or before the checkpoint. */
  lemma BelowCheckpoint(src: seq<SourceTxn>, covered: nat, i: nat)
    requires ValidSource(src) && covered <= |src| && i < |src|
    ensures src[i].endLsn <= EndOf(src, covered) <==> i < covered
  {
    if covered > 0 && i != covered - 1 {
      if i < covered {
        assert src[i].endLsn <= src[covered - 1].lsn;
      } else {
        assert src[covered - 1].endLsn <= src[i].lsn;
      }
    }
  }

  // ----- Atomicity -----

  /** The events of the given whole transactions, one after another. */
  function SpelledWhole(src: seq<SourceTxn>, ids: seq<nat>): seq<ChangeEvent>
    requires forall i | 0 <= i < |ids| :: ids[i] < |src|
  {
    if ids == [] then []
    else
      var last := |ids| - 1;
      SpelledWhole(src, ids[..last]) + EventsOf(src, ids[last])
  }

  predicate IsWhole(src: seq<SourceTxn>, ids: seq<nat>, batch: seq<Record>)
  {
    && Increasing(ids) && (forall i | 0 <= i < |ids| :: ids[i] < |src|)
    && Events(batch) == SpelledWhole(src, ids)
  }

  /** A batch is atomic when it consists of whole source transactions in source order. */
  ghost predicate Atomic(src: seq<SourceTxn>, batch: seq<Record>)
  {
    exists ids :: IsWhole(src, ids, batch)
  }

  function Ids(ps: seq<Piece>): (ids: seq<nat>)
    ensures |ids| == |ps|
    ensures forall i | 0 <= i < |ps| :: ids[i] == ps[i].txn
  {
    seq(|ps|, i requires 0 <= i < |ps| => ps[i].txn)
  }

  lemma {:induction false} WholePiecesSpellWholes(src: seq<SourceTxn>, ps: seq<Piece>)
    requires forall i | 0 <= i < |ps| :: Whole(src, ps[i])
    ensures AllFit(src, ps) && Spelled(src, ps) == SpelledWhole(src, Ids(ps))
  {
    hide EventsOf;
    if ps != [] {
      var last := |ps| - 1;
      WholePiecesSpellWholes(src, ps[..last]);
      assert Ids(ps)[..last] == Ids(ps[..last]);
      var all := EventsOf(src, ps[last].txn);
      assert all[..|all|] == all;
    }
  }

  /** No event of the source occurs twice in it. */
  ghost predicate DistinctEvents(src: seq<SourceTxn>)
  {
    forall i: nat, j: nat, a: nat, b: nat ::
      i < |src| && j < |src| && a < |EventsOf(src, i)| && b < |EventsOf(src, j)| &&
          EventsOf(src, i)[a] == EventsOf(src, j)[b]
      ==> i == j && a == b
  }

  /** Membership in what pieces spell. */
  lemma {:induction false} SpelledMember(src: seq<SourceTxn>, ps: seq<Piece>, e: ChangeEvent) returns (k: nat, a: nat)
    requires AllFit(src, ps) && e in Spelled(src, ps)
    ensures k < |ps| && a < ps[k].n && EventsOf(src, ps[k].txn)[a] == e
  {
    hide EventsOf;
    var last := |ps| - 1;
    if e in Spelled(src, ps[..last]) {
      k, a := SpelledMember(src, ps[..last], e);
    } else {
      var front := EventsOf(src, ps[last].txn)[..ps[last].n];
      assert e in front;
      a :| a < |front| && front[a] == e;
      k := last;
    }
  }

  lemma {:induction false} PieceIsSpelled(src: seq<SourceTxn>, ps: seq<Piece>, k: nat, a: nat)
    requires AllFit(src, ps) && k < |ps| && a < ps[k].n
    ensures EventsOf(src, ps[k].txn)[a] in Spelled(src, ps)
  {
    hide EventsOf;
    var last := |ps| - 1;
    if k < last {
      PieceIsSpelled(src, ps[..last], k, a);
    } else {
      var front := EventsOf(src, ps[last].txn)[..ps[last].n];
      assert front[a] == EventsOf(src, ps[k].txn)[a];
    }
  }

  lemma {:induction false} WholeMember(src: seq<SourceTxn>, ids: seq<nat>, e: ChangeEvent) returns (k: nat, a: nat)
    requires forall i | 0 <= i < |ids| :: ids[i] < |src|
    requires e in SpelledWhole(src, ids)
    ensures k < |ids| && a < |EventsOf(src, ids[k])| && EventsOf(src, ids[k])[a] == e
  {
    hide EventsOf;
    var last := |ids| - 1;
    if e in SpelledWhole(src, ids[..last]) {
      k, a := WholeMember(src, ids[..last], e);
    } else {
      a :| a < |EventsOf(src, ids[last])| && EventsOf(src, ids[last])[a] == e;
      k := last;
    }
  }

  lemma {:induction false} WholeIsSpelled(src: seq<SourceTxn>, ids: seq<nat>, k: nat, a: nat)
    requires forall i | 0 <= i < |ids| :: ids[i] < |src|
    requires k < |ids| && a < |EventsOf(src, ids[k])|
    ensures EventsOf(src, ids[k])[a] in SpelledWhole(src, ids)
  {
    hide EventsOf;
    var last := |ids| - 1;
    if k < last {
      WholeIsSpelled(src, ids[..last], k, a);
    }
  }

  /** If whole transactions spell the first event of a transaction, it is one of them. */
  lemma FirstEventForcesMembership(src: seq<SourceTxn>, ids: seq<nat>, i: nat) returns (w: nat)
    requires DistinctEvents(src) && (forall k | 0 <= k < |ids| :: ids[k] < |src|)
    requires i < |src| && EventsOf(src, i) != [] && EventsOf(src, i)[0] in SpelledWhole(src, ids)
    ensures w < |ids| && ids[w] == i
  {
    hide EventsOf, SpelledWhole;
    var a;
    w, a := WholeMember(src, ids, EventsOf(src, i)[0]);
  }

  /** Pieces in order do not spell the first event left out of one of them. */
  lemma CutEventIsNotSpelled(src: seq<SourceTxn>, ps: seq<Piece>, k: nat)
    requires DistinctEvents(src) && AllFit(src, ps) && InOrder(ps) && k < |ps| && Partial(src, ps[k])
    ensures EventsOf(src, ps[k].txn)[ps[k].n] !in Spelled(src, ps)
  {
    hide EventsOf, Spelled;
    var p := ps[k];
    var e := EventsOf(src, p.txn)[p.n];
    if e in Spelled(src, ps) {
      var j, b := SpelledMember(src, ps, e);
    }
  }

  /** A batch with a partial piece is not atomic: its transaction's first event is there, a later one is not. */
  lemma PartialIsNotAtomic(src: seq<SourceTxn>, ps: seq<Piece>, batch: seq<Record>, ids: seq<nat>)
    requires DistinctEvents(src) && AllFit(src, ps) && InOrder(ps) && HasPartial(src, ps)
    requires Events(batch) == Spelled(src, ps)
    ensures !IsWhole(src, ids, batch)
  {
    hide EventsOf, Events, Spelled, SpelledWhole, DistinctEvents, InOrder, Increasing;
    var k :| 0 <= k < |ps| && Partial(src, ps[k]);
    var p := ps[k];
    PieceIsSpelled(src, ps, k, 0);
    CutEventIsNotSpelled(src, ps, k);
    if IsWhole(src, ids, batch) {
      var w := FirstEventForcesMembership(src, ids, p.txn);
      WholeIsSpelled(src, ids, w, p.n);
    }
  }

  lemma BatchAtomicIff(src: seq<SourceTxn>, st: System, b: nat)
    requires GoodLog(src, st) && GoodOrder(st) && GoodTorn(src, st) && b < |st.published|
    ensures !HasPartial(src, st.published[b]) ==> Atomic(src, st.txn.kafka.log[b])
    ensures DistinctEvents(src) && HasPartial(src, st.published[b]) ==> !Atomic(src, st.txn.kafka.log[b])
  {
    hide EventsOf, Events, Spelled, SpelledWhole, DistinctEvents, Flatten, Whole, Partial;
    var ps, batch := st.published[b], st.txn.kafka.log[b];
    PartInOrder(st.published, b);
    if !HasPartial(src, ps) {
      WholePiecesSpellWholes(src, ps);
      IdsAreInRange(src, ps);
      assert IsWhole(src, Ids(ps), batch);
    } else if DistinctEvents(src) {
      forall ids ensures !IsWhole(src, ids, batch) {
        PartialIsNotAtomic(src, ps, batch, ids);
      }
    }
  }

  lemma IdsAreInRange(src: seq<SourceTxn>, ps: seq<Piece>)
    requires AllFit(src, ps)
    ensures forall i | 0 <= i < |ps| :: Ids(ps)[i] < |src|
  {
  }

  lemma {:induction false} PartInOrder(pss: seq<seq<Piece>>, b: nat)
    requires InOrder(Flatten(pss)) && b < |pss|
    ensures InOrder(pss[b])
  {
    var last := |pss| - 1;
    var front := Flatten(pss[..last]);
    if b < last {
      assert forall i | 0 <= i < |front| :: front[i] == Flatten(pss)[i];
      PartInOrder(pss[..last], b);
    } else {
      assert forall i | 0 <= i < |pss[b]| :: pss[b][i] == Flatten(pss)[|front| + i];
    }
  }

  predicate AnyPartial(src: seq<SourceTxn>, pss: seq<seq<Piece>>)
  {
    exists b | 0 <= b < |pss| :: HasPartial(src, pss[b])
  }

  predicate TornAt(src: seq<SourceTxn>, steps: seq<Step>, k: nat)
    requires k < |steps|
  {
    TornCommit(src, Run(src, steps[..k]), steps[k])
  }

  lemma TornOneMore(src: seq<SourceTxn>, steps: seq<Step>)
    requires steps != []
    ensures var last := |steps| - 1;
            (exists k: nat | k < |steps| :: TornAt(src, steps, k)) <==>
            (exists k: nat | k < last :: TornAt(src, steps[..last], k)) ||
                TornCommit(src, Run(src, steps[..last]), steps[last])
  {
    hide TornCommit, Run;
    var last := |steps| - 1;
    forall k: nat | k < last ensures TornAt(src, steps, k) == TornAt(src, steps[..last], k) {
      assert steps[..k] == steps[..last][..k];
    }
    assert TornAt(src, steps, last) == TornCommit(src, Run(src, steps[..last]), steps[last]);
  }

  /** A partial piece is visible exactly when some commit of the run was a torn commit. */
  lemma {:induction false} PartialIffTornCommit(src: seq<SourceTxn>, steps: seq<Step>)
    requires ValidSource(src)
    ensures AnyPartial(src, Run(src, steps).published) <==> exists k: nat | k < |steps| :: TornAt(src, steps, k)
  {
    hide TornCommit, TornAt, Next, HasPartial, AnyPartial, Inv, GoodPosition, GoodTorn;
    if steps == [] {
      NonePartial(src);
    } else {
      var last := |steps| - 1;
      var front := steps[..last];
      PartialIffTornCommit(src, front);
      RunIsGood(src, front);
      InvParts(src, Run(src, front));
      TornByStep(src, Run(src, front), steps[last]);
      TornOneMore(src, steps);
      PublishedOneMore(src, Run(src, front).published, Run(src, steps).published);
    }
  }

  lemma NonePartial(src: seq<SourceTxn>)
    ensures !AnyPartial(src, [])
  {
  }

  lemma PublishedOneMore(src: seq<SourceTxn>, was: seq<seq<Piece>>, now: seq<seq<Piece>>)
    requires now == was || (|now| == |was| + 1 && now[..|was|] == was)
    ensures AnyPartial(src, now) <==> AnyPartial(src, was) || (now != was && HasPartial(src, now[|was|]))
  {
    hide HasPartial;
    assert forall b | 0 <= b < |was| :: now[b] == was[b];
    if AnyPartial(src, was) {
      var b :| 0 <= b < |was| && HasPartial(src, was[b]);
      assert HasPartial(src, now[b]);
    }
  }

  /** Atomicity: in a run every batch is a concatenation of whole source transactions unless some commit succeeded
      after an abort had failed and left part of a transaction behind; and when no two events of the source are
      equal, exactly then. */
  lemma AtomicIffNoTornCommit(src: seq<SourceTxn>, steps: seq<Step>)
    requires ValidSource(src)
    ensures var log := Run(src, steps).txn.kafka.log;
            && ((forall k: nat | k < |steps| :: !TornAt(src, steps, k)) ==>
                  forall b | 0 <= b < |log| :: Atomic(src, log[b]))
            && (DistinctEvents(src) && (forall b | 0 <= b < |log| :: Atomic(src, log[b])) ==>
                  forall k: nat | k < |steps| :: !TornAt(src, steps, k))
  {
    hide Run, Inv, Atomic, HasPartial, GoodOrder, GoodTorn, TornAt, DistinctEvents;
    var st := Run(src, steps);
    RunIsGood(src, steps);
    InvParts(src, st);
    PartialIffTornCommit(src, steps);
    forall b | 0 <= b < |st.published|
      ensures !HasPartial(src, st.published[b]) ==> Atomic(src, st.txn.kafka.log[b])
      ensures DistinctEvents(src) && HasPartial(src, st.published[b]) ==> !Atomic(src, st.txn.kafka.log[b])
    {
      BatchAtomicIff(src, st, b);
    }
  }

  /** Every abort that is tried succeeds. */
  predicate AbortsGoThrough(steps: seq<Step>)
  {
    forall i | 0 <= i < |steps| :: steps[i].Deliver? ==> steps[i].o.abort
  }

  lemma StaysUntorn(src: seq<SourceTxn>, st: System, step: Step)
    requires !st.torn && (step.Deliver? ==> step.o.abort)
    ensures !Next(src, st, step).torn
  {
    hide InFlight, AtRisk, Resume, StartLsn, EventsOf, OnCommit, OnBegin;
  }

  lemma {:induction false} NothingIsTorn(src: seq<SourceTxn>, steps: seq<Step>)
    requires AbortsGoThrough(steps)
    ensures !Run(src, steps).torn
  {
    hide Next;
    if steps != [] {
      NothingIsTorn(src, steps[..|steps| - 1]);
      StaysUntorn(src, Run(src, steps[..|steps| - 1]), steps[|steps| - 1]);
    }
  }

  /** If every abort that is tried succeeds, every batch consists of whole source transactions, whatever else fails. */
  lemma AtomicIfAbortsGoThrough(src: seq<SourceTxn>, steps: seq<Step>)
    requires ValidSource(src) && AbortsGoThrough(steps)
    ensures forall b | 0 <= b < |Run(src, steps).txn.kafka.log| :: Atomic(src, Run(src, steps).txn.kafka.log[b])
  {
    hide Run, Atomic, ValidSource;
    forall k: nat | k < |steps| ensures !TornAt(src, steps, k) {
      NothingIsTorn(src, steps[..k]);
    }
    AtomicIffNoTornCommit(src, steps);
  }

  // ----- A torn batch -----

  lemma TornCommitShows(src: seq<SourceTxn>, steps: seq<Step>, k: nat)
    requires ValidSource(src) && DistinctEvents(src) && k < |steps| && TornAt(src, steps, k)
    ensures exists b | 0 <= b < |Run(src, steps).txn.kafka.log| :: !Atomic(src, Run(src, steps).txn.kafka.log[b])
  {
    hide Run, TornAt, Atomic, DistinctEvents, ValidSource;
    AtomicIffNoTornCommit(src, steps);
  }

  function Sample(rel: UInt32): ChangeEvent
  {
    ChangeEvent(Insert([]), rel)
  }

  /** Two transactions, the first with two changes. */
  function TwoTransactions(): seq<SourceTxn>
  {
    [SourceTxn(1, 2, [Readable(Sample(0)), Readable(Sample(1))]), SourceTxn(3, 4, [Readable(Sample(2))])]
  }

  /** The second send fails, and so does the abort that follows; every later call that can succeed does. */
  function TearingSteps(): seq<Step>
  {
    var fine := Deliver(Outcomes(true, true, true, true));
    [fine, fine, Deliver(Outcomes(true, false, true, false)), fine, fine, fine, fine]
  }

  lemma RunMore(src: seq<SourceTxn>, steps: seq<Step>, k: nat)
    requires k < |steps|
    ensures Run(src, steps[..k + 1]) == Next(src, Run(src, steps[..k]), steps[k])
  {
    hide Next;
    assert steps[..k + 1][..k] == steps[..k];
  }

  lemma RunNothing(src: seq<SourceTxn>)
    ensures Run(src, []) == Initial()
  {
  }

  lemma SampleEvents()
    ensures DecodableEvents([Readable(Sample(0)), Readable(Sample(1))]) == [Sample(0), Sample(1)]
    ensures DecodableEvents([Readable(Sample(0))]) == [Sample(0)] &&
            DecodableEvents([Readable(Sample(2))]) == [Sample(2)] &&
            DecodableEvents([]) == []
  {
    DecodableStep([Readable(Sample(0)), Readable(Sample(1))], 0);
    DecodableStep([Readable(Sample(0)), Readable(Sample(1))], 1);
    DecodableStep([Readable(Sample(2))], 0);
    assert [Readable(Sample(0)), Readable(Sample(1))][..1] == [Readable(Sample(0))];
    assert [Readable(Sample(0)), Readable(Sample(1))][..2] == [Readable(Sample(0)), Readable(Sample(1))];
    assert [Readable(Sample(2))][..1] == [Readable(Sample(2))];
  }

  lemma TornAfterThreeSteps()
    ensures var st := Run(TwoTransactions(), TearingSteps()[..3]);
            st.at == 0 && st.stage == 3 && !st.txn.inTransaction && st.txn.kafka.open && st.torn
  {
    var src, steps := TwoTransactions(), TearingSteps();
    hide Run, Events, Lsns, AtRisk, Checkpoint, DecodableEvents, EventsOf;
    SampleEvents();
    assert src[0].changes[..1] == [Readable(Sample(0))];
    RunNothing(src);
    assert steps[..0] == [];
    RunMore(src, steps, 0);
    RunMore(src, steps, 1);
    RunMore(src, steps, 2);
  }

  /** The state before the last of the tearing steps, a commit: part of the first transaction is still held. */
  lemma TearingStates()
    ensures var src, steps := TwoTransactions(), TearingSteps();
            TornCommit(src, Run(src, steps[..6]), steps[6])
  {
    var src, steps := TwoTransactions(), TearingSteps();
    hide Run, Events, Lsns, InFlight, AtRisk, Checkpoint, DecodableEvents, EventsOf;
    TornAfterThreeSteps();
    RunMore(src, steps, 3);
    RunMore(src, steps, 4);
    RunMore(src, steps, 5);
  }

  lemma SampleSource()
    ensures ValidSource(TwoTransactions()) && DistinctEvents(TwoTransactions())
  {
    hide DecodableEvents;
    SampleEvents();
    var src := TwoTransactions();
    forall i: nat, a: nat | i < 2 && a < |EventsOf(src, i)| ensures EventsOf(src, i)[a].rel == if i == 0 then a else 2 {
      assert i == 0 || i == 1;
    }
  }

  /** A failed abort can tear a transaction: there is a run with a batch that is not made of whole transactions. */
  lemma ATornBatch() returns (src: seq<SourceTxn>, steps: seq<Step>)
    ensures ValidSource(src)
    ensures exists b | 0 <= b < |Run(src, steps).txn.kafka.log| :: !Atomic(src, Run(src, steps).txn.kafka.log[b])
  {
    hide Run, TornCommit, Atomic, DistinctEvents, ValidSource, TwoTransactions;
    src, steps := TwoTransactions(), TearingSteps();
    SampleSource();
    TearingStates();
    TornCommitShows(src, steps, 6);
  }
}
