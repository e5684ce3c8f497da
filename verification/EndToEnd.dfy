/** The whole pipeline: from the octets the server sends, through the producer, to the tables of the sink. */
module EndToEnd {
  import opened Wire
  import opened ChangeEvents
  import opened RelationDecoder
  import opened MessageDecoder
  import opened Producer
  import opened ProducerRuns
  import opened ExactlyOnce
  import opened Streaming
  import opened ServerLogs
  import opened RelationCaches
  import opened Database
  import opened PostgresSinks
  import opened Mirror
  import opened Histories
  import Replays

  // ----- What the server means -----

  /** Every change survives the decoder. */
  predicate AllSurvive(relations: RelationMap, items: seq<Item>)
    requires WellFormedStream(relations, items)
  {
    items == [] ||
    var last := |items| - 1;
    && AllSurvive(relations, items[..last])
    && (items[last].Change? ==> Survives(items[last].message, Known(relations, items[..last])[items[last].oid].inner))
  }

  /** The operations the server means. */
  function Operations(relations: RelationMap, items: seq<Item>): seq<ChangeEvent>
    requires WellFormedStream(relations, items)
  {
    if items == [] then []
    else
      var last := |items| - 1;
      Operations(relations, items[..last]) +
      match items[last]
      case Describe(_) => []
      case Change(oid, m) => [ChangeEvent(OpOf(m, Known(relations, items[..last])[oid].inner), oid)]
  }

  lemma SurvivorIsRead(oid: UInt32, m: Message, relations: RelationMap)
    requires Announced(relations, oid) && WellFormedMessage(m, relations[oid].inner) &&
             Survives(m, relations[oid].inner)
    ensures ReadMessage(oid, m, relations) == Readable(ChangeEvent(OpOf(m, relations[oid].inner), oid))
  {
    hide Announced, WellFormedMessage, Survives, ParseChange, PrintMessage, OpOf;
    PrintedIsChange(oid, m);
    MessageDecodesIff(relations, oid, m, []);
    assert PrintMessage(oid, m) + [] == PrintMessage(oid, m);
  }

  lemma OneMoreChange(changes: seq<SourceChange>, c: SourceChange)
    ensures DecodableEvents(changes + [c]) == DecodableEvents(changes) + if c.Readable? then [c.event] else []
  {
    assert (changes + [c])[..|changes|] == changes;
  }

  /** The reader makes of them what the server means. */
  lemma {:induction false} SurvivorsAreRead(relations: RelationMap, items: seq<Item>)
    requires WellFormedStream(relations, items) && AllSurvive(relations, items)
    ensures DecodableEvents(ReadItems(relations, items)) == Operations(relations, items)
  {
    if items != [] {
      var last := |items| - 1;
      var front := items[..last];
      hide ReadMessage, Announced, WellFormedMessage, Survives, OpOf, DecodableEvents, WellFormed, Stops;
      SurvivorsAreRead(relations, front);
      match items[last] {
        case Describe(_) =>
          assert ReadItems(relations, items) == ReadItems(relations, front);
        case Change(oid, m) =>
          var read := ReadMessage(oid, m, Known(relations, front));
          SurvivorIsRead(oid, m, Known(relations, front));
          OneMoreChange(ReadItems(relations, front), read);
      }
    } else {
      NothingRead();
    }
  }

  lemma NothingRead()
    ensures DecodableEvents([]) == []
  {
  }

  // ----- What consumers see -----

  predicate AllSurviving(server: seq<ServerTxn>)
    requires AllSendable(map[], server)
  {
    forall i: nat | i < |server| :: AllSurvive(KnownAfter(map[], server, i), server[i].items)
  }

  /** The operations of the first `n` transactions that end at or before a checkpoint. */
  function OperationsUpTo(server: seq<ServerTxn>, n: nat, checkpoint: nat): seq<ChangeEvent>
    requires AllSendable(map[], server) && n <= |server|
  {
    if n == 0 then []
    else
      var tx := server[n - 1];
      OperationsUpTo(server, n - 1, checkpoint) +
      if tx.endLsn <= checkpoint then Operations(KnownAfter(map[], server, n - 1), tx.items) else []
  }

  lemma {:induction false} EventsAreOperations(server: seq<ServerTxn>, n: nat, checkpoint: nat)
    requires AllSendable(map[], server) && AllSurviving(server) && n <= |server|
    ensures EventsUpTo(AsSource(map[], server), n, checkpoint) == OperationsUpTo(server, n, checkpoint)
  {
    hide ReadItems, Operations, DecodableEvents, WellFormedStream, AllSurvive, KnownAfter;
    if n > 0 {
      EventsAreOperations(server, n - 1, checkpoint);
      SurvivorsAreRead(KnownAfter(map[], server, n - 1), server[n - 1].items);
    }
  }

  /** What consumers see, in every run without a failed call: the operations the server means, of exactly the
      transactions up to the checkpoint, each once and in order. */
  lemma VisibleIsMeant(server: seq<ServerTxn>, steps: seq<Step>)
    requires AllSendable(map[], server) && AllSurviving(server)
    requires ValidSource(AsSource(map[], server)) && AllSuccessful(steps)
    ensures var log := Run(AsSource(map[], server), steps).txn.kafka.log;
            Visible(log) == OperationsUpTo(server, |server|, Checkpoint(log))
  {
    hide Run, Visible, EventsUpTo, OperationsUpTo, Checkpoint, AllSendable, AllSurviving, ValidSource, AllSuccessful,
      Events, EventsOf;
    ExactlyOnce.ExactlyOnce(AsSource(map[], server), steps);
    EventsAreOperations(server, |server|, Checkpoint(Run(AsSource(map[], server), steps).txn.kafka.log));
  }

  /** The server sends its log session by session, in each from where it is asked to start. */
  predicate Lives(server: seq<ServerTxn>, attempts: seq<Attempt>)
    requires AllSendable(map[], server)
  {
    ValidSource(AsSource(map[], server)) && Lived(AsSource(map[], server), attempts).Some?
  }

  function PublishedBy(server: seq<ServerTxn>, attempts: seq<Attempt>): seq<seq<Record>>
    requires AllSendable(map[], server) && Lives(server, attempts)
  {
    Lived(AsSource(map[], server), attempts).value.kafka.log
  }

  /** From octets to operations: whatever number of sessions it takes, wherever each breaks off and however it ends. */
  lemma OctetsBecomeOperations(server: seq<ServerTxn>, attempts: seq<Attempt>)
    requires AllSendable(map[], server) && AllSurviving(server) && Lives(server, attempts)
    requires forall i | 0 <= i < |attempts| :: CallsSucceed(attempts[i])
    ensures var log := PublishedBy(server, attempts);
            Visible(log) == OperationsUpTo(server, |server|, Checkpoint(log))
  {
    hide Run, Visible, OperationsUpTo, Checkpoint, AllSendable, AllSurviving, ValidSource, AllSuccessful, CallsSucceed,
      Lived, RunOf, AsSource;
    var src := AsSource(map[], server);
    LifeIsARun(src, attempts);
    RunSucceeds(src, attempts);
    VisibleIsMeant(server, RunOf(src, attempts));
  }

  // ----- The tables -----

  /** The server sends what the source emits, up to the checkpoint. */
  predicate SendsUpTo(server: seq<ServerTxn>, acts: seq<Act>, checkpoint: nat)
    requires AllSendable(map[], server)
  {
    Emitted(acts) == OperationsUpTo(server, |server|, checkpoint)
  }

  /** The source, the server and the program: what the source emits is sent, survives the decoder, and is read in
      sessions without a failed call. */
  ghost predicate Pipeline(server: seq<ServerTxn>, attempts: seq<Attempt>, acts: seq<Act>)
    requires AllSendable(map[], server)
  {
    && AllSurviving(server) && Lives(server, attempts)
    && (forall i | 0 <= i < |attempts| :: CallsSucceed(attempts[i]))
    && SendsUpTo(server, acts, Checkpoint(PublishedBy(server, attempts)))
  }

  lemma PipelineDelivers(server: seq<ServerTxn>, attempts: seq<Attempt>, acts: seq<Act>)
    requires AllSendable(map[], server) && Pipeline(server, attempts, acts)
    ensures Visible(PublishedBy(server, attempts)) == Emitted(acts)
  {
    hide AllSendable, AllSurviving, Lives, PublishedBy, OperationsUpTo, Emitted, Visible, Checkpoint, CallsSucceed;
    OctetsBecomeOperations(server, attempts);
  }

  /** The tables hold exactly the source's rows if and only if under every key the source's row has not changed since
      the sink last wrote there; they do if the sink follows every event. */
  ghost predicate ExactIffUpToDate(rels: Relations, db: Db, m: State, acts: seq<Act>)
    requires rels.Keys == m.Keys && SourceRun(rels, m, acts).Some?
  {
    var source := SourceRun(rels, m, acts).value;
    && (Holds(rels, db, source) <==> forall oid, key :: UpToDate(rels, m, acts, oid, key))
    && ((forall i | 0 <= i < |acts| :: FollowsEvent(rels, acts[i])) ==> Holds(rels, db, source))
  }

  lemma HeldRows(rels: Relations, db: Db, m: State, acts: seq<Act>)
    requires SuitableAll(rels) && AllKeyed(rels, m) && rels.Keys == m.Keys && SourceRun(rels, m, acts).Some?
    requires Holds(rels, db, SinkRun(rels, m, acts))
    ensures ExactIffUpToDate(rels, db, m, acts)
  {
    hide SuitableAll, Holds, AllKeyed, SourceRun, SinkRun, FollowsEvent, UpToDate;
    HoldIffSameRows(rels, db, SinkRun(rels, m, acts), SourceRun(rels, m, acts).value);
    SameRowsIffUpToDate(rels, m, acts);
    if forall i | 0 <= i < |acts| :: FollowsEvent(rels, acts[i]) {
      FollowedRows(rels, m, acts);
    }
  }

  /** From octets to tables: the source does what it does, the server sends it in any number of sessions, every change
      survives the decoder, no call of the producer fails, and the sink handles what becomes visible. Its tables then
      hold exactly the source's rows as of the checkpoint if and only if under every key the source's row has not
      changed since the sink last wrote there; they do if the sink follows every event. */
  lemma OctetsBecomeTables(server: seq<ServerTxn>, attempts: seq<Attempt>, rels: Relations, s: SinkView, m: State,
                           acts: seq<Act>)
    requires AllSendable(map[], server) && Pipeline(server, attempts, acts)
    requires SuitableAll(rels) && Coherent(rels, s) && Holds(rels, s.db, m) && AllKeyed(rels, m)
    requires rels.Keys == m.Keys && SourceRun(rels, m, acts).Some?
    ensures SameDomain(s.cache)
    ensures var (fine, s2) := HandledAll(s, Visible(PublishedBy(server, attempts)));
            (fine <==> AllTaken(rels, Emitted(acts))) && ExactIffUpToDate(rels, s2.db, m, acts)
  {
    hide PublishedBy, Visible, Emitted, AllSendable, SuitableAll, Coherent, Holds, AllKeyed, SourceRun, SinkRun,
      HandledAll, Pipeline, ExactIffUpToDate, AllTaken;
    PipelineDelivers(server, attempts, acts);
    HistoryIsHandled(rels, s, m, acts);
    HeldRows(rels, HandledAll(s, Emitted(acts)).1.db, m, acts);
  }

  /** The same with redelivery: whatever fails in the sink and however often it restarts, once every failure was gone
      back over. */
  lemma OctetsBecomeTablesInTheEnd(server: seq<ServerTxn>, attempts: seq<Attempt>, rels: Relations, db: Db, m: State,
                                   acts: seq<Act>, deliveries: seq<Replays.ReplayStep>)
    requires AllSendable(map[], server) && Pipeline(server, attempts, acts)
    requires SuitableAll(rels) && Holds(rels, db, m) && AllKeyed(rels, m)
    requires rels.Keys == m.Keys && SourceRun(rels, m, acts).Some?
    ensures var visible := Visible(PublishedBy(server, attempts));
            var r := Replays.ReplicaRun(rels, visible, db, m, deliveries);
            r.settled == |visible| ==> ExactIffUpToDate(rels, r.progress.sink.db, m, acts)
  {
    hide PublishedBy, Visible, Emitted, AllSendable, SuitableAll, Holds, AllKeyed, SourceRun, SinkRun, Pipeline,
      ExactIffUpToDate, Replays.ReplicaRun;
    PipelineDelivers(server, attempts, acts);
    Replays.HistoryReplayConverges(rels, acts, db, m, deliveries);
    var r := Replays.ReplicaRun(rels, Emitted(acts), db, m, deliveries);
    if r.settled == |Emitted(acts)| {
      HeldRows(rels, r.progress.sink.db, m, acts);
    }
  }

  lemma FollowedRows(rels: Relations, m: State, acts: seq<Act>)
    requires rels.Keys == m.Keys && AllKeyed(rels, m) && SourceRun(rels, m, acts).Some?
    requires forall i | 0 <= i < |acts| :: FollowsEvent(rels, acts[i])
    ensures SinkRun(rels, m, acts) == SourceRun(rels, m, acts).value
  {
    hide AllKeyed, SourceRun, SinkRun, FollowsEvent, FollowedAt;
    forall i: nat | i < |acts| ensures FollowedAt(rels, m, acts, i) {
      EventIsFollowed(rels, m, acts, i);
    }
    FollowedSoFar(rels, m, acts, |acts|);
    assert acts[..|acts|] == acts;
  }
}
