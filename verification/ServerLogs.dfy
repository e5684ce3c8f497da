/** What the server sends session by session, and the run of the system that the program's sessions make of it. */
module ServerLogs {
  import opened Wrappers
  import opened Wire
  import opened ChangeEvents
  import opened RelationDecoder
  import opened MessageDecoder
  import opened Producer
  import opened ProducerRuns
  import opened ExactlyOnce
  import opened Sessions
  import opened Streaming

  // ----- What the server sends -----

  datatype ServerTxn = ServerTxn(lsn: UInt64, endLsn: UInt64, items: seq<Item>)

  /** The relations described by the end of the first `n` transactions of a session. */
  function KnownAfter(relations: RelationMap, server: seq<ServerTxn>, n: nat): RelationMap
    requires n <= |server|
  {
    if n == 0 then relations else Known(KnownAfter(relations, server, n - 1), server[n - 1].items)
  }

  /** Each change is about a relation as it was last described in the session. */
  predicate AllSendable(relations: RelationMap, server: seq<ServerTxn>)
  {
    forall i: nat | i < |server| :: WellFormedStream(KnownAfter(relations, server, i), server[i].items)
  }

  function ServerMessages(relations: RelationMap, server: seq<ServerTxn>, n: nat): seq<ReplicationEvent>
    requires AllSendable(relations, server) && n <= |server|
  {
    if n == 0 then []
    else
      var tx := server[n - 1];
      ServerMessages(relations, server, n - 1) +
      TransactionMessages(KnownAfter(relations, server, n - 1), tx.items, tx.lsn, tx.endLsn)
  }

  // ----- The source that the reader sees -----

  function ReadMessage(oid: UInt32, m: Message, relations: RelationMap): SourceChange
  {
    PrintedIsChange(oid, m);
    ChangeIn(ParseChange(PrintMessage(oid, m), relations))
  }

  /** What the reader makes of the octets. */
  function ReadItems(relations: RelationMap, items: seq<Item>): seq<SourceChange>
    requires WellFormedStream(relations, items)
  {
    if items == [] then []
    else
      var last := |items| - 1;
      ReadItems(relations, items[..last]) +
      match items[last]
      case Describe(_) => []
      case Change(oid, m) => [ReadMessage(oid, m, Known(relations, items[..last]))]
  }

  function AsSource(relations: RelationMap, server: seq<ServerTxn>): (src: seq<SourceTxn>)
    requires AllSendable(relations, server)
    ensures |src| == |server|
    ensures forall i: nat | i < |src| ::
              src[i] == SourceTxn(server[i].lsn, server[i].endLsn,
                                  ReadItems(KnownAfter(relations, server, i), server[i].items))
  {
    seq(|server|, i requires 0 <= i < |server| =>
      SourceTxn(server[i].lsn, server[i].endLsn, ReadItems(KnownAfter(relations, server, i), server[i].items)))
  }

  // ----- The steps of a session -----

  /** What a message is to the system. */
  function StepFor(m: ReplicationEvent, o: Outcomes): Step
  {
    if m.XLogData? && m.data != [] && m.data[0] == TAG_RELATION && ParseRelation(m.data).Ok?
    then Announce(ParseRelation(m.data).value.inner, o)
    else Deliver(o)
  }

  function Played(ms: seq<ReplicationEvent>, calls: nat -> Outcomes): (steps: seq<Step>)
    ensures |steps| == |ms|
  {
    if ms == [] then []
    else
      var last := |ms| - 1;
      Played(ms[..last], calls) + [StepFor(ms[last], calls(last))]
  }

  lemma PlayedMore(ms: seq<ReplicationEvent>, m: ReplicationEvent, calls: nat -> Outcomes)
    ensures Played(ms + [m], calls) == Played(ms, calls) + [StepFor(m, calls(|ms|))]
  {
    hide StepFor;
    assert (ms + [m])[..|ms|] == ms;
  }

  /** The messages are steps that bring the system to a place in the source, and the loop to a relation map. */
  predicate Reaches(src: seq<SourceTxn>, st: System, s: Session, ms: seq<ReplicationEvent>, calls: nat -> Outcomes,
                    at: nat, stage: nat, relations: RelationMap)
  {
    && AreSteps(src, st, s, WithOutcomes(ms, calls), Played(ms, calls))
    && RunFrom(src, st, Played(ms, calls)).at == at && RunFrom(src, st, Played(ms, calls)).stage == stage
    && HandleAll(s, WithOutcomes(ms, calls)).relations == relations
  }

  lemma AreStepsMore(src: seq<SourceTxn>, st: System, s: Session, evs: seq<(ReplicationEvent, Outcomes)>,
                     steps: seq<Step>, ev: (ReplicationEvent, Outcomes), step: Step)
    requires |evs| == |steps| && AreSteps(src, st, s, evs, steps)
    requires IsStep(src, RunFrom(src, st, steps), HandleAll(s, evs).relations, ev, step)
    requires !Halts(src, RunFrom(src, st, steps), step)
    ensures AreSteps(src, st, s, evs + [ev], steps + [step])
    ensures RunFrom(src, st, steps + [step]) == Next(src, RunFrom(src, st, steps), step)
  {
    hide IsStep, Halts, Next, HandleAll;
    assert (evs + [ev])[..|evs|] == evs && (steps + [step])[..|steps|] == steps;
  }

  /** One more message. */
  lemma ReachesMore(src: seq<SourceTxn>, st: System, s: Session, ms: seq<ReplicationEvent>, calls: nat -> Outcomes,
                    m: ReplicationEvent)
    requires !s.stopped && s.txn == st.txn && AreSteps(src, st, s, WithOutcomes(ms, calls), Played(ms, calls))
    requires var was, so := RunFrom(src, st, Played(ms, calls)), HandleAll(s, WithOutcomes(ms, calls));
             var step := StepFor(m, calls(|ms|));
             IsStep(src, was, so.relations, (m, calls(|ms|)), step) && !Halts(src, was, step)
    ensures var was, so := RunFrom(src, st, Played(ms, calls)), HandleAll(s, WithOutcomes(ms, calls));
            var now := Next(src, was, StepFor(m, calls(|ms|)));
            && !so.stopped && so.txn == was.txn
            && Reaches(src, st, s, ms + [m], calls, now.at, now.stage, Handle(so, m, calls(|ms|)).relations)
  {
    hide IsStep, Halts, Next, Handle, StepFor, AreSteps, HandleAll, RunFrom, WithOutcomes, Played;
    SessionFollowsRun(src, st, s, WithOutcomes(ms, calls), Played(ms, calls));
    WithOutcomesMore(ms, m, calls);
    PlayedMore(ms, m, calls);
    HandleMore(s, ms, m, calls);
    AreStepsMore(src, st, s, WithOutcomes(ms, calls), Played(ms, calls), (m, calls(|ms|)), StepFor(m, calls(|ms|)));
  }

  /** The message that the source sends at a place. */
  predicate IsMessageAt(src: seq<SourceTxn>, at: nat, stage: nat, relations: RelationMap, m: ReplicationEvent)
  {
    && at < |src|
    && (if stage == 0 then m == BeginEvent
        else if stage > |src[at].changes| then m.CommitEvent? && m.lsn == src[at].lsn && m.endLsn == src[at].endLsn
        else
          && m.XLogData? && IsChange(m.data) && ChangeIn(ParseChange(m.data, relations)) == src[at].changes[stage - 1]
          && !src[at].changes[stage - 1].Stopping?)
  }

  lemma DeliveryMoves(src: seq<SourceTxn>, st: System, so: Session, m: ReplicationEvent, o: Outcomes)
    requires IsMessageAt(src, st.at, st.stage, so.relations, m)
    ensures StepFor(m, o) == Deliver(o)
    ensures IsStep(src, st, so.relations, (m, o), Deliver(o)) && !Halts(src, st, Deliver(o))
    ensures var now := Next(src, st, Deliver(o));
            if st.stage > |src[st.at].changes| then now.at == st.at + 1 && now.stage == 0
            else now.at == st.at && now.stage == st.stage + 1
  {
    hide ParseChange, ParseRelation, OnBegin, OnChange, OnCommit, InFlight, AtRisk, EventsOf;
  }

  lemma DeliveryKeepsRelations(so: Session, m: ReplicationEvent, o: Outcomes)
    requires m.XLogData? ==> IsChange(m.data)
    ensures Handle(so, m, o).relations == so.relations
  {
    hide ParseChange, ParseRelation, OnBegin, OnChange, OnCommit;
  }

  lemma DeliveryReaches(src: seq<SourceTxn>, st: System, s: Session, ms: seq<ReplicationEvent>,
                        calls: nat -> Outcomes, m: ReplicationEvent, at: nat, stage: nat, relations: RelationMap)
    requires !s.stopped && s.txn == st.txn && Reaches(src, st, s, ms, calls, at, stage, relations)
    requires IsMessageAt(src, at, stage, relations, m)
    ensures if stage > |src[at].changes| then Reaches(src, st, s, ms + [m], calls, at + 1, 0, relations)
            else Reaches(src, st, s, ms + [m], calls, at, stage + 1, relations)
  {
    var was, so := RunFrom(src, st, Played(ms, calls)), HandleAll(s, WithOutcomes(ms, calls));
    assert m.XLogData? ==> IsChange(m.data);
    assert Reaches(src, st, s, ms, calls, was.at, was.stage, so.relations);
    hide IsMessageAt, IsStep, Halts, Next, Handle, StepFor, AreSteps, HandleAll, RunFrom, WithOutcomes, Played,
      IsChange;
    DeliveryMoves(src, was, so, m, calls(|ms|));
    DeliveryKeepsRelations(so, m, calls(|ms|));
    ReachesMore(src, st, s, ms, calls, m);
  }

  lemma DescriptionIsLearned(so: Session, w: WireRelation, o: Outcomes)
    requires !so.stopped && WellFormed(w)
    ensures ParseRelation(PrintRelation(w)) == Ok(DataOf(w))
    ensures StepFor(XLogData(PrintRelation(w)), o) == Announce(Denoted(w), o)
    ensures Handle(so, XLogData(PrintRelation(w)), o).relations == Learned(so.relations, Describe(w))
  {
    hide ParseRelation, PrintReplicaAndColumns, WellFormedColumn, ValidName, KeyFields, KeyIndexes, StoredFields, Put32,
      OnRelation;
    RelationRoundTrip(w, []);
    assert PrintRelation(w) + [] == PrintRelation(w);
  }

  lemma DescriptionReaches(src: seq<SourceTxn>, st: System, s: Session, ms: seq<ReplicationEvent>,
                           calls: nat -> Outcomes, w: WireRelation, at: nat, stage: nat, relations: RelationMap)
    requires !s.stopped && s.txn == st.txn && Reaches(src, st, s, ms, calls, at, stage, relations) && WellFormed(w)
    ensures Reaches(src, st, s, ms + [XLogData(PrintRelation(w))], calls, at, stage, Learned(relations, Describe(w)))
  {
    var was, so := RunFrom(src, st, Played(ms, calls)), HandleAll(s, WithOutcomes(ms, calls));
    var m, o := XLogData(PrintRelation(w)), calls(|ms|);
    SessionFollowsRun(src, st, s, WithOutcomes(ms, calls), Played(ms, calls));
    DescriptionIsLearned(so, w, o);
    AnnouncementMoves(src, was, so, w, o);
    hide IsStep, Halts, Next, Handle, StepFor, AreSteps, HandleAll, RunFrom, WithOutcomes, Played, WellFormed,
      PrintRelation, Learned, Denoted;
    ReachesMore(src, st, s, ms, calls, m);
  }

  lemma AnnouncementMoves(src: seq<SourceTxn>, st: System, so: Session, w: WireRelation, o: Outcomes)
    requires WellFormed(w) && ParseRelation(PrintRelation(w)) == Ok(DataOf(w))
    ensures var step := Announce(Denoted(w), o);
            && IsStep(src, st, so.relations, (XLogData(PrintRelation(w)), o), step) && !Halts(src, st, step)
            && Next(src, st, step).at == st.at && Next(src, st, step).stage == st.stage
  {
    hide ParseRelation, PrintReplicaAndColumns, WellFormedColumn, ValidName, KeyFields, KeyIndexes, StoredFields, Put32,
      OnRelation;
  }

  // ----- A whole session -----

  /** What can be sent does not stop the program. */
  lemma SentIsNoStop(oid: UInt32, m: Message, relations: RelationMap)
    requires Sendable(relations, Change(oid, m))
    ensures !ReadMessage(oid, m, relations).Stopping?
  {
    hide Announced, WellFormedMessage, ParseChange, PrintMessage, Stops;
    PrintedIsChange(oid, m);
    MessageStopsIff(relations, oid, m, []);
    assert PrintMessage(oid, m) + [] == PrintMessage(oid, m);
  }

  /** The changes read from the first items are the first changes. */
  lemma {:induction false} ReadPrefix(relations: RelationMap, items: seq<Item>, n: nat)
    requires WellFormedStream(relations, items) && n <= |items|
    ensures WellFormedStream(relations, items[..n])
    ensures ReadItems(relations, items[..n]) <= ReadItems(relations, items)
  {
    hide ReadMessage, Sendable;
    if n < |items| {
      assert items[..|items| - 1][..n] == items[..n];
      ReadPrefix(relations, items[..|items| - 1], n);
    } else {
      assert items[..n] == items;
    }
  }

  lemma ItemReaches(src: seq<SourceTxn>, st: System, s: Session, ms: seq<ReplicationEvent>, calls: nat -> Outcomes,
                    at: nat, relations: RelationMap, item: Item, done: seq<SourceChange>)
    requires !s.stopped && s.txn == st.txn && at < |src| && Sendable(relations, item)
    requires Reaches(src, st, s, ms, calls, at, 1 + |done|, relations)
    requires item.Change? ==> done + [ReadMessage(item.oid, item.message, relations)] <= src[at].changes
    ensures Reaches(src, st, s, ms + [XLogData(Octets(relations, item))], calls, at,
                    1 + |done| + if item.Change? then 1 else 0, Learned(relations, item))
  {
    hide Reaches, WellFormed, Announced, WellFormedMessage, Stops, PrintMessage, PrintRelation, ParseChange;
    match item {
      case Describe(w) => DescriptionReaches(src, st, s, ms, calls, w, at, 1 + |done|, relations);
      case Change(oid, m) =>
        PrintedIsChange(oid, m);
        SentIsNoStop(oid, m, relations);
        assert (done + [ReadMessage(oid, m, relations)])[|done|] == src[at].changes[|done|];
        DeliveryReaches(src, st, s, ms, calls, XLogData(PrintMessage(oid, m)), at, 1 + |done|, relations);
    }
  }

  /** Item by item through a transaction. */
  lemma {:induction false} ItemsReach(src: seq<SourceTxn>, st: System, s: Session, ms: seq<ReplicationEvent>,
                                      calls: nat -> Outcomes, at: nat, relations: RelationMap, items: seq<Item>)
    requires !s.stopped && s.txn == st.txn && at < |src| && WellFormedStream(relations, items)
    requires Reaches(src, st, s, ms, calls, at, 1, relations) && ReadItems(relations, items) <= src[at].changes
    ensures Reaches(src, st, s, ms + ItemMessages(relations, items), calls, at, 1 + |ReadItems(relations, items)|,
                    Known(relations, items))
  {
    hide Reaches, Sendable, Octets, ReadMessage, Learned;
    if items == [] {
      assert ms + ItemMessages(relations, items) == ms;
    } else {
      var last := |items| - 1;
      var front := items[..last];
      ReadPrefix(relations, items, last);
      var more := ms + ItemMessages(relations, front);
      ItemsReach(src, st, s, ms, calls, at, relations, front);
      ItemReaches(src, st, s, more, calls, at, Known(relations, front), items[last], ReadItems(relations, front));
      assert more + [XLogData(Octets(Known(relations, front), items[last]))] == ms + ItemMessages(relations, items);
    }
  }

  lemma TransactionReaches(src: seq<SourceTxn>, st: System, s: Session, ms: seq<ReplicationEvent>,
                           calls: nat -> Outcomes, at: nat, relations: RelationMap, tx: ServerTxn)
    requires !s.stopped && s.txn == st.txn && at < |src| && WellFormedStream(relations, tx.items)
    requires Reaches(src, st, s, ms, calls, at, 0, relations)
    requires src[at] == SourceTxn(tx.lsn, tx.endLsn, ReadItems(relations, tx.items))
    ensures Reaches(src, st, s, ms + TransactionMessages(relations, tx.items, tx.lsn, tx.endLsn), calls, at + 1, 0,
                    Known(relations, tx.items))
  {
    hide Reaches, WellFormedStream, ItemMessages, ReadItems, Known;
    var begun, commit := ms + [BeginEvent], CommitEvent(tx.lsn, tx.endLsn);
    DeliveryReaches(src, st, s, ms, calls, BeginEvent, at, 0, relations);
    ItemsReach(src, st, s, begun, calls, at, relations, tx.items);
    DeliveryReaches(src, st, s, begun + ItemMessages(relations, tx.items), calls, commit, at, 1 + |src[at].changes|,
        Known(relations, tx.items));
    assert begun + ItemMessages(relations, tx.items) + [commit] ==
           ms + TransactionMessages(relations, tx.items, tx.lsn, tx.endLsn);
  }

  /** Transaction by transaction through a session. */
  lemma {:induction false} ServerReaches(src: seq<SourceTxn>, st: System, s: Session, calls: nat -> Outcomes,
                                         server: seq<ServerTxn>, n: nat)
    requires !s.stopped && s.txn == st.txn && st.stage == 0 && st.at <= |src|
    requires AllSendable(s.relations, server) && AsSource(s.relations, server) == src[st.at..] && n <= |server|
    ensures Reaches(src, st, s, ServerMessages(s.relations, server, n), calls, st.at + n, 0,
                    KnownAfter(s.relations, server, n))
  {
    hide Reaches, WellFormedStream, TransactionMessages, ReadItems, KnownAfter, AllSendable, AsSource;
    KnownMore(s.relations, server, n);
    if n == 0 {
      AtTheStart(src, st, s, calls);
    } else {
      ServerReaches(src, st, s, calls, server, n - 1);
      SentAt(s.relations, server, n - 1);
      assert AsSource(s.relations, server)[n - 1] == src[st.at + (n - 1)];
      TransactionReaches(src, st, s, ServerMessages(s.relations, server, n - 1), calls, st.at + (n - 1),
          KnownAfter(s.relations, server, n - 1), server[n - 1]);
    }
  }

  lemma KnownMore(relations: RelationMap, server: seq<ServerTxn>, n: nat)
    requires n <= |server|
    ensures KnownAfter(relations, server, n) ==
            if n == 0 then relations else Known(KnownAfter(relations, server, n - 1), server[n - 1].items)
  {
    hide Known;
  }

  lemma SentAt(relations: RelationMap, server: seq<ServerTxn>, i: nat)
    requires AllSendable(relations, server) && i < |server|
    ensures WellFormedStream(KnownAfter(relations, server, i), server[i].items)
    ensures AsSource(relations, server)[i] ==
            SourceTxn(server[i].lsn, server[i].endLsn,
                      ReadItems(KnownAfter(relations, server, i), server[i].items))
  {
    hide WellFormedStream, ReadItems, KnownAfter;
  }

  lemma AtTheStart(src: seq<SourceTxn>, st: System, s: Session, calls: nat -> Outcomes)
    ensures Reaches(src, st, s, [], calls, st.at, st.stage, s.relations)
  {
  }

  lemma {:induction false} AreStepsPrefix(src: seq<SourceTxn>, st: System, s: Session,
                                          evs: seq<(ReplicationEvent, Outcomes)>, steps: seq<Step>, n: nat)
    requires |evs| == |steps| && AreSteps(src, st, s, evs, steps) && n <= |evs|
    ensures AreSteps(src, st, s, evs[..n], steps[..n])
  {
    hide IsStep, Halts, RunFrom, HandleAll;
    if n < |evs| {
      var last := |evs| - 1;
      AreStepsPrefix(src, st, s, evs[..last], steps[..last], n);
      assert evs[..last][..n] == evs[..n] && steps[..last][..n] == steps[..n];
    } else {
      assert evs[..n] == evs && steps[..n] == steps;
    }
  }

  // ----- The life of the program -----

  /** A session: what the server sends in it, what becomes of the calls, how many messages arrive and how it ends. */
  datatype Attempt = Attempt(server: seq<ServerTxn>, calls: nat -> Outcomes, arrived: nat, ending: Ending)

  function ArrivedIn(a: Attempt): seq<(ReplicationEvent, Outcomes)>
    requires AllSendable(map[], a.server) && a.arrived <= |ServerMessages(map[], a.server, |a.server|)|
  {
    WithOutcomes(ServerMessages(map[], a.server, |a.server|), a.calls)[..a.arrived]
  }

  function StepsOf(a: Attempt): seq<Step>
    requires AllSendable(map[], a.server) && a.arrived <= |ServerMessages(map[], a.server, |a.server|)|
  {
    Played(ServerMessages(map[], a.server, |a.server|), a.calls)[..a.arrived] + [EndOfSession(a.ending)]
  }

  /** The server sends the source again from where the slot and the checkpoint say; a fresh program knows no relation
      and is told of each before it is used. */
  predicate Resends(src: seq<SourceTxn>, t: Txn, a: Attempt)
  {
    && AllSendable(map[], a.server) && a.arrived <= |ServerMessages(map[], a.server, |a.server|)|
    && AsSource(map[], a.server) == src[Resume(src, StartLsn(t), 0)..]
  }

  /** What a session leaves behind, as the next program finds it. */
  function Attempted(t: Txn, a: Attempt): Txn
    requires AllSendable(map[], a.server) && a.arrived <= |ServerMessages(map[], a.server, |a.server|)|
  {
    var left := SessionResult(Session(map[], t, false), ArrivedIn(a), a.ending);
    Txn(false, left.txn.applied, Fenced(left.txn.kafka))
  }

  /** What any number of sessions leave behind. */
  function Lived(src: seq<SourceTxn>, attempts: seq<Attempt>): Option<Txn>
  {
    if attempts == [] then Some(Initial().txn)
    else
      var last := |attempts| - 1;
      match Lived(src, attempts[..last])
      case None => None
      case Some(t) => if Resends(src, t, attempts[last]) then Some(Attempted(t, attempts[last])) else None
  }

  function RunOf(src: seq<SourceTxn>, attempts: seq<Attempt>): seq<Step>
    requires Lived(src, attempts).Some?
  {
    if attempts == [] then []
    else
      var last := |attempts| - 1;
      RunOf(src, attempts[..last]) + StepsOf(attempts[last])
  }

  /** Between sessions. */
  predicate Rests(src: seq<SourceTxn>, st: System)
  {
    st.stage == 0 && st.at == Resume(src, StartLsn(st.txn), 0)
  }

  /** One session of the event loop on the octets that the server sends is a piece of a run of the system, whatever
      calls fail, however far it gets and however it ends. */
  lemma AttemptIsARun(src: seq<SourceTxn>, before: seq<Step>, a: Attempt)
    requires Rests(src, Run(src, before)) && Resends(src, Run(src, before).txn, a)
    ensures Run(src, before + StepsOf(a)).txn == Attempted(Run(src, before).txn, a)
    ensures Rests(src, Run(src, before + StepsOf(a)))
  {
    var st, s := Run(src, before), Session(map[], Run(src, before).txn, false);
    var ms := ServerMessages(map[], a.server, |a.server|);
    hide Run, ServerMessages, AllSendable, AsSource, Resume, StartLsn, WithOutcomes, Played, AreSteps, RunFrom,
      HandleAll, SessionResult;
    ServerReaches(src, st, s, a.calls, a.server, |a.server|);
    var evs, steps := WithOutcomes(ms, a.calls), Played(ms, a.calls);
    assert AreSteps(src, st, s, evs, steps);
    AreStepsPrefix(src, st, s, evs, steps, a.arrived);
    SessionIsARun(src, before, s, evs[..a.arrived], steps[..a.arrived], a.ending);
    var played := steps[..a.arrived];
    assert before + StepsOf(a) == before + played + [EndOfSession(a.ending)];
    EndRests(src, before + played, a.ending);
  }

  lemma EndRests(src: seq<SourceTxn>, before: seq<Step>, ending: Ending)
    ensures Rests(src, Run(src, before + [EndOfSession(ending)]))
  {
    hide Run, Resume, StartLsn, RunFrom;
    RunAppend(src, before, [EndOfSession(ending)]);
    RunOne(src, Run(src, before), EndOfSession(ending));
    StartsAgain(src, Run(src, before), ending);
  }

  lemma StartsAgain(src: seq<SourceTxn>, st: System, ending: Ending)
    ensures Rests(src, Next(src, st, EndOfSession(ending)))
  {
    hide Resume, LsnTopic;
  }

  /** The life of the program is a run: whatever sessions there were, they leave behind what a run of the system
      does. */
  lemma {:induction false} LifeIsARun(src: seq<SourceTxn>, attempts: seq<Attempt>)
    requires Lived(src, attempts).Some?
    ensures Run(src, RunOf(src, attempts)).txn == Lived(src, attempts).value
    ensures Rests(src, Run(src, RunOf(src, attempts)))
  {
    hide Run, Attempted, StepsOf, Resends, Rests;
    if attempts == [] {
      FirstRests(src);
    } else {
      var last := |attempts| - 1;
      LifeIsARun(src, attempts[..last]);
      AttemptIsARun(src, RunOf(src, attempts[..last]), attempts[last]);
    }
  }

  lemma FirstRests(src: seq<SourceTxn>)
    ensures Rests(src, Initial()) && Run(src, []) == Initial()
  {
    assert LsnTopic([]) == [];
  }

  /** Every call to begin, send or commit succeeds. */
  ghost predicate CallsSucceed(a: Attempt)
  {
    forall k: nat :: a.calls(k).begin && a.calls(k).send && a.calls(k).commit
  }

  lemma {:induction false} PlayedSucceed(ms: seq<ReplicationEvent>, a: Attempt)
    requires CallsSucceed(a)
    ensures AllSuccessful(Played(ms, a.calls))
  {
    if ms != [] {
      var last := |ms| - 1;
      PlayedSucceed(ms[..last], a);
      hide Played, CallsSucceed;
      assert a.calls(last).begin && a.calls(last).send && a.calls(last).commit;
    }
  }

  lemma AttemptSucceeds(src: seq<SourceTxn>, t: Txn, a: Attempt)
    requires Resends(src, t, a) && CallsSucceed(a)
    ensures AllSuccessful(StepsOf(a))
  {
    PlayedSucceed(ServerMessages(map[], a.server, |a.server|), a);
    hide AllSendable, AsSource, Resume, StartLsn, CallsSucceed, ServerMessages, Played;
  }

  lemma {:induction false} RunSucceeds(src: seq<SourceTxn>, attempts: seq<Attempt>)
    requires Lived(src, attempts).Some? && forall i | 0 <= i < |attempts| :: CallsSucceed(attempts[i])
    ensures AllSuccessful(RunOf(src, attempts))
  {
    hide Resends, Attempted, StepsOf, CallsSucceed;
    if attempts != [] {
      var last := |attempts| - 1;
      RunSucceeds(src, attempts[..last]);
      AttemptSucceeds(src, Lived(src, attempts[..last]).value, attempts[last]);
    }
  }
}
