/** Redelivery: what a consumer that fails and restarts does to the tables and to the events of a partition. */
module Replays {
  import opened Wrappers
  import opened Wire
  import opened ChangeEvents
  import opened Toast
  import opened RelationCaches
  import opened SqlGrammar
  import opened Database
  import opened PostgresSinks
  import opened Mirror
  import opened Histories
  import opened Consumer

  // ----- Runs -----

  datatype ReplayStep = Consume(outcome: Outcome) | StartOver

  /** The next event is at `position`. The rest is history: how far the log was ever read; up to where every failure
      was gone back over; which events were ever handled; and the rows that the tables should hold. */
  datatype Replica = Replica(progress: Progress, position: nat, high: nat, settled: nat, applied: set<nat>, rows: State)

  /** The log is one partition, number 0. */
  function ResumeOffset(r: Replica): nat
  {
    ResumesAt(r.progress.committed, 0)
  }

  predicate Ready(rels: Relations, r: Replica)
  {
    SameDomain(r.progress.sink.cache) && r.rows.Keys == rels.Keys
  }

  function Lesser(a: nat, b: nat): nat
  {
    if a < b then a else b
  }

  function Greater(a: nat, b: nat): nat
  {
    if a > b then a else b
  }

  /** The event at the position is handled without an error. */
  predicate Handles(r: Replica, event: ChangeEvent, o: Outcome)
    requires SameDomain(r.progress.sink.cache)
  {
    Handled(r.progress.sink, event, o.sink).0.Ok?
  }

  function ConsumeOne(rels: Relations, r: Replica, event: ChangeEvent, o: Outcome): (next: Replica)
    requires Ready(rels, r)
    ensures Ready(rels, next)
  {
    var progress := Consumed(r.progress, Delivery(0, r.position, EventMessage(Some(event)), o));
    var high := Greater(r.position + 1, r.high);
    var handled := Handles(r, event, o);
    var settles := r.settled == r.position && (handled || !Takes(rels, event));
    Replica(progress, r.position + 1, high, if settles then r.position + 1 else r.settled,
            if handled then r.applied + {r.position} else r.applied,
            if handled then SinkWrite(rels, r.rows, event) else r.rows)
  }

  /** A restarted sink has loaded the relations, prepared nothing, and finds the tables as they were left. */
  function RestartOne(rels: Relations, r: Replica): (next: Replica)
    requires Ready(rels, r)
    ensures Ready(rels, next)
  {
    var sink := SinkView(CacheOf(rels), map[], map[], r.progress.sink.db);
    r.(progress := r.progress.(sink := sink), position := ResumeOffset(r),
        settled := Lesser(r.settled, ResumeOffset(r)))
  }

  function ReplicaNext(rels: Relations, log: seq<ChangeEvent>, r: Replica, step: ReplayStep): (next: Replica)
    requires Ready(rels, r)
    ensures Ready(rels, next)
  {
    match step
    case StartOver => RestartOne(rels, r)
    case Consume(o) => if r.position >= |log| then r else ConsumeOne(rels, r, log[r.position], o)
  }

  function ReplicaRun(rels: Relations, log: seq<ChangeEvent>, db: Db, m: State, steps: seq<ReplayStep>): (r: Replica)
    requires rels.Keys == m.Keys
    ensures Ready(rels, r)
  {
    if steps == [] then Replica(Progress(SinkView(CacheOf(rels), map[], map[], db), map[]), 0, 0, 0, {}, m)
    else ReplicaNext(rels, log, ReplicaRun(rels, log, db, m, steps[..|steps| - 1]), steps[|steps| - 1])
  }

  // ----- Skipped events -----

  predicate GoodOffsets(rels: Relations, log: seq<ChangeEvent>, r: Replica)
  {
    && ResumeOffset(r) <= r.position <= r.high <= |log| && r.settled <= r.position
    && forall j: nat | j < r.settled :: j in r.applied || !Takes(rels, log[j])
  }

  lemma OffsetsKept(rels: Relations, log: seq<ChangeEvent>, r: Replica, step: ReplayStep)
    requires Ready(rels, r) && GoodOffsets(rels, log, r)
    ensures GoodOffsets(rels, log, ReplicaNext(rels, log, r, step))
  {
    hide Handled, CacheOf, AcceptableEvent, Applied;
  }

  /** Below the committed offset, and so never delivered again, but never handled. */
  predicate IsSkipped(r: Replica, j: nat)
  {
    j < ResumeOffset(r) && j !in r.applied
  }

  /** The event at the position is handled and committed, while an earlier one never was handled. */
  predicate SkipsOver(log: seq<ChangeEvent>, r: Replica, step: ReplayStep, j: nat)
    requires SameDomain(r.progress.sink.cache)
  {
    && step.Consume? && r.position < |log| && Handles(r, log[r.position], step.outcome) && step.outcome.commit
    && j < r.position && j !in r.applied
  }

  lemma SkippedByStep(rels: Relations, log: seq<ChangeEvent>, r: Replica, step: ReplayStep, j: nat)
    requires Ready(rels, r) && GoodOffsets(rels, log, r)
    ensures IsSkipped(ReplicaNext(rels, log, r, step), j) <==> IsSkipped(r, j) || SkipsOver(log, r, step, j)
  {
    hide Handled, CacheOf, AcceptableEvent, Applied;
  }

  predicate SkipsOverAt(rels: Relations, log: seq<ChangeEvent>, db: Db, m: State, steps: seq<ReplayStep>, k: nat,
                        j: nat)
    requires rels.Keys == m.Keys && k < |steps|
  {
    SkipsOver(log, ReplicaRun(rels, log, db, m, steps[..k]), steps[k], j)
  }

  lemma {:induction false} OffsetsAreGood(rels: Relations, log: seq<ChangeEvent>, db: Db, m: State,
                                          steps: seq<ReplayStep>)
    requires rels.Keys == m.Keys
    ensures GoodOffsets(rels, log, ReplicaRun(rels, log, db, m, steps))
  {
    hide GoodOffsets, ReplicaNext, CacheOf;
    if steps == [] {
      StartOffsets(rels, log, db, m);
    } else {
      OffsetsAreGood(rels, log, db, m, steps[..|steps| - 1]);
      OffsetsKept(rels, log, ReplicaRun(rels, log, db, m, steps[..|steps| - 1]), steps[|steps| - 1]);
    }
  }

  lemma StartOffsets(rels: Relations, log: seq<ChangeEvent>, db: Db, m: State)
    requires rels.Keys == m.Keys
    ensures GoodOffsets(rels, log, ReplicaRun(rels, log, db, m, []))
  {
    hide CacheOf;
  }

  lemma SkipsOneMore(rels: Relations, log: seq<ChangeEvent>, db: Db, m: State, steps: seq<ReplayStep>, j: nat)
    requires rels.Keys == m.Keys && steps != []
    ensures var last := |steps| - 1;
            (exists k: nat | k < |steps| :: SkipsOverAt(rels, log, db, m, steps, k, j)) <==>
            (exists k: nat | k < last :: SkipsOverAt(rels, log, db, m, steps[..last], k, j))
            || SkipsOver(log, ReplicaRun(rels, log, db, m, steps[..last]), steps[last], j)
  {
    hide SkipsOver, ReplicaRun;
    var last := |steps| - 1;
    forall k: nat | k < last
      ensures SkipsOverAt(rels, log, db, m, steps, k, j) == SkipsOverAt(rels, log, db, m, steps[..last], k, j)
    {
      assert steps[..k] == steps[..last][..k];
    }
    assert SkipsOverAt(rels, log, db, m, steps, last, j) ==
           SkipsOver(log, ReplicaRun(rels, log, db, m, steps[..last]), steps[last], j);
  }

  /** At least once, or exactly why not: in every run, with any failures and restarts, an event below the committed
      offset was never handled if and only if some later event was handled and committed before it was. */
  lemma {:induction false} SkippedIffCommittedOver(rels: Relations, log: seq<ChangeEvent>, db: Db, m: State,
                                                   steps: seq<ReplayStep>, j: nat)
    requires rels.Keys == m.Keys
    ensures IsSkipped(ReplicaRun(rels, log, db, m, steps), j) <==>
            exists k: nat | k < |steps| :: SkipsOverAt(rels, log, db, m, steps, k, j)
  {
    hide SkipsOver, SkipsOverAt, ReplicaNext, GoodOffsets, CacheOf;
    if steps != [] {
      var front := steps[..|steps| - 1];
      SkippedIffCommittedOver(rels, log, db, m, front, j);
      OffsetsAreGood(rels, log, db, m, front);
      SkippedByStep(rels, log, ReplicaRun(rels, log, db, m, front), steps[|steps| - 1], j);
      SkipsOneMore(rels, log, db, m, steps, j);
    }
  }

  // ----- One pass -----

  /** The sink can handle the event, or refuses it. */
  predicate Tolerable(rels: Relations, e: ChangeEvent)
  {
    AcceptableEvent(rels, e) || Refused(rels, e)
  }

  predicate AllTolerable(rels: Relations, log: seq<ChangeEvent>)
  {
    forall i | 0 <= i < |log| :: Tolerable(rels, log[i])
  }

  /** What a single pass over the log leaves. */
  function WrittenAll(rels: Relations, m: State, es: seq<ChangeEvent>): (after: State)
    requires rels.Keys == m.Keys
    ensures after.Keys == m.Keys
  {
    if es == [] then m else SinkWrite(rels, WrittenAll(rels, m, es[..|es| - 1]), es[|es| - 1])
  }

  // ----- Recent rows -----

  /** The rows after the first `i` events. */
  function RowsAt(rels: Relations, m: State, log: seq<ChangeEvent>, i: nat): (rows: State)
    requires rels.Keys == m.Keys && i <= |log|
    ensures rows.Keys == m.Keys
  {
    WrittenAll(rels, m, log[..i])
  }

  /** Under a key the rows are what they were at some point of the log between `low` and `high`. */
  ghost predicate Recent(rels: Relations, m: State, log: seq<ChangeEvent>, rows: State, low: nat, high: nat,
                         oid: UInt32, key: seq<PgValue>)
    requires rels.Keys == m.Keys && high <= |log|
  {
    exists j: nat | low <= j <= high :: Lookup(rows, oid, key) == Lookup(RowsAt(rels, m, log, j), oid, key)
  }

  ghost predicate AllRecent(rels: Relations, m: State, log: seq<ChangeEvent>, rows: State, low: nat, high: nat)
    requires rels.Keys == m.Keys && high <= |log|
  {
    low <= high && forall oid, key :: Recent(rels, m, log, rows, low, high, oid, key)
  }

  lemma RowsAtNext(rels: Relations, m: State, log: seq<ChangeEvent>, i: nat)
    requires rels.Keys == m.Keys && i < |log|
    ensures RowsAt(rels, m, log, i + 1) == SinkWrite(rels, RowsAt(rels, m, log, i), log[i])
  {
    hide SinkWrite;
    assert log[..i + 1][..i] == log[..i];
  }

  lemma RowsAtEnds(rels: Relations, m: State, log: seq<ChangeEvent>)
    requires rels.Keys == m.Keys
    ensures RowsAt(rels, m, log, 0) == m && RowsAt(rels, m, log, |log|) == WrittenAll(rels, m, log)
  {
    assert log[..|log|] == log;
  }

  /** Writing the event at `at`, not before the oldest point, keeps a key recent; if `at` is that point, it drops out.
      */
  lemma KeyStaysRecent(rels: Relations, m: State, log: seq<ChangeEvent>, rows: State, low: nat, at: nat, high: nat,
                       oid: UInt32, key: seq<PgValue>)
    requires rels.Keys == m.Keys == rows.Keys && low <= at < |log| && high <= |log|
    requires Recent(rels, m, log, rows, low, high, oid, key)
    ensures Recent(rels, m, log, SinkWrite(rels, rows, log[at]), if low == at then at + 1 else low,
                   Greater(at + 1, high), oid, key)
  {
    hide SinkWrite, Lookup, SinkWritesAt, RowsAt;
    RowsAtNext(rels, m, log, at);
    var was := RowsAt(rels, m, log, at);
    var j: nat :| low <= j <= high && Lookup(rows, oid, key) == Lookup(RowsAt(rels, m, log, j), oid, key);
    SinkWritesBlindly(rels, rows, was, log[at], oid, key);
    SinkWritesBlindly(rels, was, rows, log[at], oid, key);
    var k := if j == at || SinkWritesAt(rels, Emits(log[at]), oid, key) then at + 1 else j;
    assert Lookup(SinkWrite(rels, rows, log[at]), oid, key) == Lookup(RowsAt(rels, m, log, k), oid, key);
  }

  /** Writing one more event keeps the rows recent. */
  lemma WritingKeepsRecent(rels: Relations, m: State, log: seq<ChangeEvent>, rows: State, low: nat, at: nat, high: nat)
    requires rels.Keys == m.Keys == rows.Keys && low <= at < |log| && high <= |log|
    requires AllRecent(rels, m, log, rows, low, high)
    ensures AllRecent(rels, m, log, SinkWrite(rels, rows, log[at]), if low == at then at + 1 else low,
                      Greater(at + 1, high))
  {
    var rows2, low2, high2 := SinkWrite(rels, rows, log[at]), if low == at then at + 1 else low, Greater(at + 1, high);
    hide SinkWrite, Recent;
    forall oid, key ensures Recent(rels, m, log, rows2, low2, high2, oid, key) {
      KeyStaysRecent(rels, m, log, rows, low, at, high, oid, key);
    }
  }

  /** Allowing for more points keeps them recent. */
  lemma MorePointsKeepRecent(rels: Relations, m: State, log: seq<ChangeEvent>, rows: State, low: nat, lower: nat,
                             high: nat, higher: nat)
    requires rels.Keys == m.Keys && lower <= low && high <= higher <= |log|
    requires AllRecent(rels, m, log, rows, low, high)
    ensures AllRecent(rels, m, log, rows, lower, higher)
  {
    hide RowsAt, Lookup;
    forall oid, key ensures Recent(rels, m, log, rows, lower, higher, oid, key) {
      assert Recent(rels, m, log, rows, low, high, oid, key);
    }
  }

  /** With a single point left, the rows are those of that point. */
  lemma RecentAtOnePoint(rels: Relations, m: State, log: seq<ChangeEvent>, rows: State, at: nat)
    requires rels.Keys == m.Keys == rows.Keys && at <= |log|
    requires AllRecent(rels, m, log, rows, at, at)
    ensures rows == RowsAt(rels, m, log, at)
  {
    hide RowsAt, Lookup;
    forall oid, key ensures Lookup(rows, oid, key) == Lookup(RowsAt(rels, m, log, at), oid, key) {
      assert Recent(rels, m, log, rows, at, at, oid, key);
    }
    SameLookups(rows, RowsAt(rels, m, log, at));
  }

  // ----- Failures -----

  /** Without a cached statement, and unable to prepare one, nothing happens; with one, preparing does not matter. */
  lemma GotEitherWay(rels: Relations, s: SinkView, oid: UInt32, ok: bool)
    requires SuitableAll(rels) && Coherent(rels, s) && oid in rels
    ensures UpsertFits(rels[oid].fields) ==>
              Got(s.upserts, s.cache, oid, FreshUpsert, ok) ==
              if ok || oid in s.upserts then (Ok(UpsertFor(rels[oid])), s.upserts[oid := UpsertFor(rels[oid])])
              else (Err(Platform), s.upserts)
    ensures Got(s.deletes, s.cache, oid, FreshDelete, ok) ==
            if ok || oid in s.deletes then (Ok(DeleteFor(rels[oid])), s.deletes[oid := DeleteFor(rels[oid])])
            else (Err(Platform), s.deletes)
  {
    GotStatements(rels, s, oid);
    GotDelete(rels, s, oid, ok);
    assert oid in s.cache.tableNames;
    hide FreshUpsert, FreshDelete, UpsertFor, DeleteFor, ShapeIn, Coherent, CacheOf, SuitableAll, UpsertFits;
  }

  /** Handled without an error, an event is its write; otherwise the tables are as they were. */
  predicate WrittenOrNot(rels: Relations, s: SinkView, written: State, r: SinkResult, s2: SinkView)
  {
    Coherent(rels, s2) && if r.Ok? then Holds(rels, s2.db, written) else s2.db == s.db
  }

  /** How a write can end. */
  lemma PutCases(rels: Relations, s: SinkView, oid: UInt32, row: seq<PgValue>, o: SinkOutcomes)
    requires SuitableAll(rels) && Coherent(rels, s) && oid in rels && UpsertFits(rels[oid].fields)
    ensures SameDomain(s.cache)
    ensures WriteRow(s, oid, row, o) ==
            if !o.prepare && oid !in s.upserts then (Err(Platform), s)
            else if o.execute then WriteRow(s, oid, row, NO_SINK_FAILURE)
            else (Err(Platform), s.(upserts := s.upserts[oid := UpsertFor(rels[oid])]))
  {
    CoherentDomain(rels, s);
    GotEitherWay(rels, s, oid, o.prepare);
    GotEitherWay(rels, s, oid, true);
    NotExecuted(s.db, UpsertFor(rels[oid]), row);
    hide SuitableAll, Coherent, Got, Execute, CacheOf, UpsertFor, FreshUpsert, FreshDelete, UpsertFits;
  }

  lemma PutEitherWay(rels: Relations, s: SinkView, m: State, oid: UInt32, row: seq<PgValue>, o: SinkOutcomes)
    requires SuitableAll(rels) && Coherent(rels, s) && Holds(rels, s.db, m) && oid in rels
    requires Storable(rels[oid].fields, row) && UpsertFits(rels[oid].fields)
    ensures var (r, s2) := WriteRow(s, oid, row, o);
            WrittenOrNot(rels, s, m[oid := Written(rels[oid].fields, m[oid], Put(row))], r, s2)
  {
    assert |row| == |rels[oid].fields| && SameDomain(s.cache) && oid in m;
    hide *;
    PutIsWrite(rels, s, m, oid, row);
    PutCases(rels, s, oid, row, o);
    CoherentAfter(rels, s, oid, s.db);
    EitherWay(rels, s, m[oid := Written(rels[oid].fields, m[oid], Put(row))], WriteRow(s, oid, row, o));
  }

  lemma EitherWay(rels: Relations, s: SinkView, written: State, r: (SinkResult, SinkView))
    requires Coherent(rels, r.1) && (r.0.Ok? ==> Holds(rels, r.1.db, written)) && (r.0.Err? ==> r.1.db == s.db)
    ensures WrittenOrNot(rels, s, written, r.0, r.1)
  {
    hide Coherent, Holds;
  }

  lemma RemoveCases(rels: Relations, s: SinkView, oid: UInt32, before: seq<PgValue>, o: SinkOutcomes)
    requires SuitableAll(rels) && Coherent(rels, s) && oid in rels
    ensures SameDomain(s.cache)
    ensures RemoveRow(s, oid, before, o) ==
            if !o.prepare && oid !in s.deletes then (Err(Platform), s)
            else if o.execute then RemoveRow(s, oid, before, NO_SINK_FAILURE)
            else (Err(Platform), s.(deletes := s.deletes[oid := DeleteFor(rels[oid])]))
  {
    CoherentDomain(rels, s);
    assert oid in s.cache.identities;
    GotEitherWay(rels, s, oid, o.prepare);
    GotEitherWay(rels, s, oid, true);
    NotExecuted(s.db, DeleteFor(rels[oid]), DeleteArgs(s.cache.identities[oid], before));
    hide SuitableAll, Coherent, Got, Execute, CacheOf, DeleteFor, FreshUpsert, FreshDelete, DeleteArgs, UpsertFits;
  }

  lemma RemoveEitherWay(rels: Relations, s: SinkView, m: State, oid: UInt32, before: seq<PgValue>, o: SinkOutcomes)
    requires SuitableAll(rels) && Coherent(rels, s) && Holds(rels, s.db, m) && oid in rels
    requires |before| == |KeyIndexes(rels[oid].fields)| && Toasted !in before && PrefixKeys(rels[oid].fields)
    ensures var (r, s2) := RemoveRow(s, oid, before, o);
            WrittenOrNot(rels, s, m[oid := Written(rels[oid].fields, m[oid], Remove(before))], r, s2)
  {
    hide SuitableAll, Coherent, Holds, RemoveRow, CacheOf, DeleteFor, Written, KeyIndexes, PrefixKeys, UpsertFits;
    RemoveIsWrite(rels, s, m, oid, before);
    RemoveCases(rels, s, oid, before, o);
    CoherentAfter(rels, s, oid, s.db);
  }

  lemma NotExecuted(db: Db, statement: Statement, args: seq<PgValue>)
    ensures Execute(db, statement, args, false) == Err(Platform)
  {
  }

  /** Whatever fails outside: an acceptable event is handled and is its write, or fails and leaves the tables alone. */
  lemma HandledEitherWay(rels: Relations, s: SinkView, m: State, e: ChangeEvent, o: SinkOutcomes)
    requires SuitableAll(rels) && Coherent(rels, s) && Holds(rels, s.db, m) && AcceptableEvent(rels, e)
    ensures rels.Keys == m.Keys && SameDomain(s.cache)
    ensures var (r, s2) := Handled(s, e, o); WrittenOrNot(rels, s, Applied(rels, m, e), r, s2)
  {
    assert SameDomain(s.cache) && rels.Keys == m.Keys;
    hide SuitableAll, Coherent, Holds, CacheOf, Handled, WriteRow, RemoveRow, MergeOp, WriteOf, WrittenOrNot, Storable,
      KeyIndexes, Written, PrefixKeys, UpsertFits;
    HandledIsItsWrite(s, e, o);
    match WriteOf(e.op) {
      case Put(row) => PutEitherWay(rels, s, m, e.rel, row, o);
      case Remove(before) => RemoveEitherWay(rels, s, m, e.rel, before, o);
    }
  }

  // ----- Convergence -----

  predicate GoodSink(rels: Relations, r: Replica)
  {
    r.rows.Keys == rels.Keys && Coherent(rels, r.progress.sink) && Holds(rels, r.progress.sink.db, r.rows)
  }

  predicate GoodReplica(rels: Relations, log: seq<ChangeEvent>, r: Replica)
  {
    GoodOffsets(rels, log, r) && GoodSink(rels, r)
  }

  lemma CoherentRestart(rels: Relations, db: Db)
    ensures Coherent(rels, SinkView(CacheOf(rels), map[], map[], db))
  {
    hide CacheOf;
  }

  ghost predicate Converging(rels: Relations, m: State, log: seq<ChangeEvent>, r: Replica)
    requires rels.Keys == m.Keys
  {
    GoodReplica(rels, log, r) && AllRecent(rels, m, log, r.rows, r.settled, r.high)
  }

  lemma RestartKept(rels: Relations, log: seq<ChangeEvent>, m: State, r: Replica)
    requires rels.Keys == m.Keys && AllTolerable(rels, log) && Ready(rels, r) && Converging(rels, m, log, r)
    ensures Converging(rels, m, log, RestartOne(rels, r))
  {
    OffsetsKept(rels, log, r, StartOver);
    hide AllRecent, Coherent, Holds, CacheOf, AllTolerable, GoodOffsets;
    CoherentRestart(rels, r.progress.sink.db);
    MorePointsKeepRecent(rels, m, log, r.rows, r.settled, Lesser(r.settled, ResumeOffset(r)), r.high, r.high);
  }

  /** What the sink can handle it takes, what it refuses it does not. */
  lemma TakenIffAcceptable(rels: Relations, e: ChangeEvent)
    requires Tolerable(rels, e)
    ensures Takes(rels, e) <==> AcceptableEvent(rels, e)
    ensures Takes(rels, e) <==> !Refused(rels, e)
  {
    hide MergeOp, Supports, WriteOf, Storable;
  }

  lemma SinkAfterOne(rels: Relations, r: Replica, event: ChangeEvent, o: Outcome)
    requires SuitableAll(rels) && Ready(rels, r) && GoodSink(rels, r) && Tolerable(rels, event)
    ensures GoodSink(rels, ConsumeOne(rels, r, event, o))
  {
    hide Coherent, Holds, CacheOf, AcceptableEvent, SuitableAll, Applied, Handled, Takes, Refused;
    if AcceptableEvent(rels, event) {
      HandledEitherWay(rels, r.progress.sink, r.rows, event, o.sink);
    } else {
      EventIsRefused(rels, r.progress.sink, event, o.sink);
    }
  }

  lemma ConsumedIsGood(rels: Relations, log: seq<ChangeEvent>, r: Replica, o: Outcome)
    requires SuitableAll(rels) && Ready(rels, r) && GoodReplica(rels, log, r)
    requires r.position < |log| && Tolerable(rels, log[r.position])
    ensures GoodReplica(rels, log, ConsumeOne(rels, r, log[r.position], o))
  {
    hide GoodOffsets, GoodSink, ConsumeOne, Tolerable, SuitableAll, CacheOf;
    OffsetsKept(rels, log, r, Consume(o));
    SinkAfterOne(rels, r, log[r.position], o);
  }

  lemma RecentAfterOne(rels: Relations, log: seq<ChangeEvent>, m: State, r: Replica, o: Outcome)
    requires rels.Keys == m.Keys && Ready(rels, r) && r.settled <= r.position < |log| && r.high <= |log|
    requires AllRecent(rels, m, log, r.rows, r.settled, r.high)
    ensures var next := ConsumeOne(rels, r, log[r.position], o);
            next.high <= |log| && AllRecent(rels, m, log, next.rows, next.settled, next.high)
  {
    var event := log[r.position];
    hide AllRecent, Consumed, SinkWrite, Handles, Takes;
    if Handles(r, event, o) {
      WritingKeepsRecent(rels, m, log, r.rows, r.settled, r.position, r.high);
    } else if Takes(rels, event) {
      MorePointsKeepRecent(rels, m, log, r.rows, r.settled, r.settled, r.high, Greater(r.position + 1, r.high));
    } else {
      WritingKeepsRecent(rels, m, log, r.rows, r.settled, r.position, r.high);
      NotWritten(rels, r.rows, event);
    }
  }

  lemma NotWritten(rels: Relations, m: State, e: ChangeEvent)
    requires rels.Keys == m.Keys && !Takes(rels, e)
    ensures SinkWrite(rels, m, e) == m
  {
    hide Applied, MergeOp, Supports, WriteOf, Storable;
  }

  lemma ConsumeKept(rels: Relations, log: seq<ChangeEvent>, m: State, r: Replica, o: Outcome)
    requires SuitableAll(rels) && rels.Keys == m.Keys && Ready(rels, r)
    requires Converging(rels, m, log, r) && r.position < |log| && Tolerable(rels, log[r.position])
    ensures Converging(rels, m, log, ConsumeOne(rels, r, log[r.position], o))
  {
    ConsumedIsGood(rels, log, r, o);
    assert r.settled <= r.position && r.high <= |log|;
    hide SuitableAll, AllRecent, ConsumeOne, Tolerable, GoodReplica;
    RecentAfterOne(rels, log, m, r, o);
  }

  lemma ReplicaKept(rels: Relations, log: seq<ChangeEvent>, m: State, r: Replica, step: ReplayStep)
    requires SuitableAll(rels) && rels.Keys == m.Keys && AllTolerable(rels, log) && Ready(rels, r)
    requires Converging(rels, m, log, r)
    ensures Converging(rels, m, log, ReplicaNext(rels, log, r, step))
  {
    hide SuitableAll, Converging, CacheOf, ConsumeOne, RestartOne, Tolerable;
    match step {
      case StartOver => RestartKept(rels, log, m, r);
      case Consume(o) =>
        if r.position < |log| {
          ConsumeKept(rels, log, m, r, o);
        }
    }
  }

  lemma {:induction false} ReplicaRunConverges(rels: Relations, log: seq<ChangeEvent>, db: Db, m: State,
                                               steps: seq<ReplayStep>)
    requires SuitableAll(rels) && rels.Keys == m.Keys && Holds(rels, db, m) && AllTolerable(rels, log)
    ensures Converging(rels, m, log, ReplicaRun(rels, log, db, m, steps))
  {
    hide SuitableAll, AllTolerable, ReplicaNext, Converging, Holds;
    if steps == [] {
      StartConverges(rels, log, db, m);
    } else {
      var front := steps[..|steps| - 1];
      ReplicaRunConverges(rels, log, db, m, front);
      ReplicaKept(rels, log, m, ReplicaRun(rels, log, db, m, front), steps[|steps| - 1]);
    }
  }

  lemma StartConverges(rels: Relations, log: seq<ChangeEvent>, db: Db, m: State)
    requires rels.Keys == m.Keys && Holds(rels, db, m) && AllTolerable(rels, log)
    ensures Converging(rels, m, log, ReplicaRun(rels, log, db, m, []))
  {
    hide CacheOf, Holds, AllTolerable, RowsAt, Coherent, Lookup;
    RowsAtEnds(rels, m, log);
    CoherentRestart(rels, db);
    forall oid, key ensures Recent(rels, m, log, m, 0, 0, oid, key) {
      assert Lookup(m, oid, key) == Lookup(RowsAt(rels, m, log, 0), oid, key);
    }
  }

  lemma SameOids(rels: Relations, db: Db, m: State)
    requires Holds(rels, db, m)
    ensures rels.Keys == m.Keys
  {
  }

  /** Replay convergence: whichever calls and commits fail and however often the consumer restarts from the committed
      offset, the tables hold the rows of a single pass over the log as soon as every failure was gone back over
      without another and everything read before has been read again; in particular at the end of the log. */
  lemma ReplayConverges(rels: Relations, log: seq<ChangeEvent>, db: Db, m: State, steps: seq<ReplayStep>)
    requires SuitableAll(rels) && Holds(rels, db, m) && AllTolerable(rels, log)
    ensures rels.Keys == m.Keys
    ensures var r := ReplicaRun(rels, log, db, m, steps);
            && GoodOffsets(rels, log, r)
            && (r.settled == r.high ==> Holds(rels, r.progress.sink.db, RowsAt(rels, m, log, r.settled)))
            && (r.settled == |log| ==> Holds(rels, r.progress.sink.db, WrittenAll(rels, m, log)))
  {
    SameOids(rels, db, m);
    hide SuitableAll, AllTolerable, ReplicaRun, AllRecent, Holds, WrittenAll, RowsAt, Coherent;
    ReplicaRunConverges(rels, log, db, m, steps);
    RowsAtEnds(rels, m, log);
    var r := ReplicaRun(rels, log, db, m, steps);
    if r.settled == r.high {
      RecentAtOnePoint(rels, m, log, r.rows, r.settled);
    }
  }

  predicate Succeeds(step: ReplayStep)
  {
    step.Consume? ==> step.outcome.sink == NO_SINK_FAILURE
  }

  lemma OneSettles(rels: Relations, r: Replica, event: ChangeEvent, o: Outcome)
    requires Ready(rels, r) && r.settled == r.position && (Takes(rels, event) ==> Handles(r, event, o))
    ensures ConsumeOne(rels, r, event, o).settled == ConsumeOne(rels, r, event, o).position
  {
    hide Handles, Takes, SinkWrite, Consumed;
  }

  lemma TolerableSettles(rels: Relations, r: Replica, event: ChangeEvent, o: Outcome)
    requires SuitableAll(rels) && Tolerable(rels, event) && GoodSink(rels, r) && Ready(rels, r)
    requires r.settled == r.position && o.sink == NO_SINK_FAILURE
    ensures ConsumeOne(rels, r, event, o).settled == ConsumeOne(rels, r, event, o).position
  {
    hide SuitableAll, Coherent, Holds, Tolerable, Handled, ConsumeOne, Takes, SinkWrite;
    OneEvent(rels, r.progress.sink, r.rows, event);
    OneSettles(rels, r, event, o);
  }

  lemma StaysSettled(rels: Relations, log: seq<ChangeEvent>, r: Replica, step: ReplayStep)
    requires Ready(rels, r) && r.settled == r.position && ResumeOffset(r) <= r.position
    requires step.StartOver? || r.position >= |log|
    ensures ReplicaNext(rels, log, r, step).settled == ReplicaNext(rels, log, r, step).position
  {
    hide CacheOf;
  }

  lemma SettledKept(rels: Relations, log: seq<ChangeEvent>, r: Replica, step: ReplayStep)
    requires SuitableAll(rels) && AllTolerable(rels, log) && GoodSink(rels, r) && Ready(rels, r)
    requires r.settled == r.position && Succeeds(step) && ResumeOffset(r) <= r.position
    ensures ReplicaNext(rels, log, r, step).settled == ReplicaNext(rels, log, r, step).position
  {
    if step.Consume? && r.position < |log| {
      hide SuitableAll, Tolerable, GoodSink, ConsumeOne, ResumeOffset;
      TolerableSettles(rels, r, log[r.position], step.outcome);
    } else {
      hide *;
      StaysSettled(rels, log, r, step);
    }
  }

  lemma {:induction false} SettledWithoutFailures(rels: Relations, log: seq<ChangeEvent>, db: Db, m: State,
                                                  steps: seq<ReplayStep>)
    requires SuitableAll(rels) && rels.Keys == m.Keys && Holds(rels, db, m) && AllTolerable(rels, log)
    requires forall i | 0 <= i < |steps| :: Succeeds(steps[i])
    ensures ReplicaRun(rels, log, db, m, steps).settled == ReplicaRun(rels, log, db, m, steps).position
  {
    hide SuitableAll, AllTolerable, ReplicaNext, AllRecent, GoodSink, Holds, Succeeds;
    if steps != [] {
      var front := steps[..|steps| - 1];
      SettledWithoutFailures(rels, log, db, m, front);
      ReplicaRunConverges(rels, log, db, m, front);
      SettledKept(rels, log, ReplicaRun(rels, log, db, m, front), steps[|steps| - 1]);
    }
  }

  /** With sink calls that do not fail, that is whenever everything read before has been read again: whichever commits
      get through and wherever the restarts are, the tables at the end of the log are those of an uninterrupted pass. */
  lemma ReplayedTablesAreThoseOfOnePass(rels: Relations, log: seq<ChangeEvent>, db: Db, m: State,
                                        steps: seq<ReplayStep>)
    requires SuitableAll(rels) && rels.Keys == m.Keys && Holds(rels, db, m) && AllTolerable(rels, log)
    requires forall i | 0 <= i < |steps| :: Succeeds(steps[i])
    requires ReplicaRun(rels, log, db, m, steps).position == |log|
    ensures var (fine, pass) := HandledAll(SinkView(CacheOf(rels), map[], map[], db), log);
            (fine <==> AllTaken(rels, log)) &&
                SameTables(rels, ReplicaRun(rels, log, db, m, steps).progress.sink.db, pass.db)
  {
    hide SuitableAll, AllTolerable, ReplicaRun, WrittenAll, Coherent, CacheOf, HandledAll, SameTables, Holds, Succeeds;
    SettledWithoutFailures(rels, log, db, m, steps);
    ReplayConverges(rels, log, db, m, steps);
    CoherentRestart(rels, db);
    var start := SinkView(CacheOf(rels), map[], map[], db);
    OnePass(rels, start, m, log);
    TablesOfSameRows(rels, ReplicaRun(rels, log, db, m, steps).progress.sink.db, HandledAll(start, log).1.db,
        WrittenAll(rels, m, log));
  }

  predicate SameTables(rels: Relations, a: Db, b: Db)
  {
    forall oid | oid in rels ::
      && Chars(rels[oid].name) in a && Chars(rels[oid].name) in b
      && a[Chars(rels[oid].name)] == b[Chars(rels[oid].name)]
  }

  lemma TablesOfSameRows(rels: Relations, a: Db, b: Db, m: State)
    requires Holds(rels, a, m) && Holds(rels, b, m)
    ensures SameTables(rels, a, b)
  {
    hide Chars, FieldNames, Keyed, TableOf;
  }

  lemma {:induction false} OnePass(rels: Relations, s: SinkView, m: State, es: seq<ChangeEvent>)
    requires SuitableAll(rels) && rels.Keys == m.Keys && Coherent(rels, s) && Holds(rels, s.db, m) &&
             AllTolerable(rels, es)
    ensures SameDomain(s.cache)
    ensures var (fine, s2) := HandledAll(s, es);
            (fine <==> AllTaken(rels, es)) && Coherent(rels, s2) && Holds(rels, s2.db, WrittenAll(rels, m, es))
  {
    hide SuitableAll, Handled, CacheOf, Holds, SinkWrite, Tolerable, Takes, AllTaken, Coherent;
    CoherentDomain(rels, s);
    if es == [] {
      NothingEmitted(rels);
    } else {
      var last := |es| - 1;
      OnePass(rels, s, m, es[..last]);
      AllTakenMore(rels, es[..last], es[last]);
      assert es == es[..last] + [es[last]];
      OneEvent(rels, HandledAll(s, es[..last]).1, WrittenAll(rels, m, es[..last]), es[last]);
    }
  }

  lemma OneEvent(rels: Relations, s: SinkView, m: State, e: ChangeEvent)
    requires SuitableAll(rels) && rels.Keys == m.Keys && Coherent(rels, s) && Holds(rels, s.db, m) && Tolerable(rels, e)
    ensures SameDomain(s.cache)
    ensures var (r, s2) := Handled(s, e, NO_SINK_FAILURE);
            (r.Ok? <==> Takes(rels, e)) && Coherent(rels, s2) && Holds(rels, s2.db, SinkWrite(rels, m, e))
  {
    CoherentDomain(rels, s);
    TakenIffAcceptable(rels, e);
    hide SuitableAll, Handled, CacheOf, Holds, Coherent, AcceptableEvent, Applied, Takes, Refused;
    if Takes(rels, e) {
      EventIsWrite(rels, s, m, e);
    } else {
      EventIsRefused(rels, s, e, NO_SINK_FAILURE);
    }
  }

  // ----- The logs of the source -----

  lemma ActIsTolerable(rels: Relations, m: State, a: Act)
    requires AllKeyed(rels, m) && SourceNext(rels, m, a).Some? && a.Emits?
    ensures Tolerable(rels, a.event)
  {
    hide AllKeyed, SourceNext, AcceptableEvent, Takes, Refused;
    AcceptableIffTaken(rels, m, a.event);
  }

  lemma WrittenMore(rels: Relations, m: State, es: seq<ChangeEvent>, e: ChangeEvent)
    requires rels.Keys == m.Keys
    ensures WrittenAll(rels, m, es + [e]) == SinkWrite(rels, WrittenAll(rels, m, es), e)
    ensures AllTolerable(rels, es + [e]) <==> AllTolerable(rels, es) && Tolerable(rels, e)
  {
    hide SinkWrite, Tolerable;
    var more := es + [e];
    assert more[..|es|] == es && more[|es|] == e;
    assert forall i | 0 <= i < |es| :: more[i] == es[i];
  }

  /** Whatever the source does, the sink can tolerate what it emits, and a single pass leaves the sink's rows. */
  lemma {:induction false} SourceLogsAreTolerable(rels: Relations, m: State, acts: seq<Act>)
    requires rels.Keys == m.Keys && AllKeyed(rels, m) && SourceRun(rels, m, acts).Some?
    ensures AllTolerable(rels, Emitted(acts))
    ensures WrittenAll(rels, m, Emitted(acts)) == SinkRun(rels, m, acts)
  {
    if acts != [] {
      hide AllKeyed, SourceNext, SinkWrite, Tolerable, AllTolerable, WrittenAll;
      var front, a := acts[..|acts| - 1], acts[|acts| - 1];
      SourceLogsAreTolerable(rels, m, front);
      SourceRunStaysKeyed(rels, m, front);
      if a.Emits? {
        ActIsTolerable(rels, SourceRun(rels, m, front).value, a);
        WrittenMore(rels, m, Emitted(front), a.event);
      } else {
        assert Emitted(acts) == Emitted(front);
      }
    }
  }

  /** For every history of the source, refused events included, redelivery converges to what the sink holds after an
      uninterrupted pass, which `Histories` relates to the source. */
  lemma HistoryReplayConverges(rels: Relations, acts: seq<Act>, db: Db, m: State, steps: seq<ReplayStep>)
    requires SuitableAll(rels) && rels.Keys == m.Keys && Holds(rels, db, m) && AllKeyed(rels, m)
    requires SourceRun(rels, m, acts).Some?
    ensures var r := ReplicaRun(rels, Emitted(acts), db, m, steps);
            r.settled == |Emitted(acts)| ==> Holds(rels, r.progress.sink.db, SinkRun(rels, m, acts))
  {
    hide SuitableAll, Holds, AllKeyed, AllTolerable, WrittenAll, SourceRun, SinkRun, Emitted, ReplicaRun, RowsAt;
    SourceLogsAreTolerable(rels, m, acts);
    ReplayConverges(rels, Emitted(acts), db, m, steps);
  }

  // ----- Idempotence -----

  /** Idempotence: writing a log and then any suffix of it again is writing it once. */
  lemma SuffixAgainChangesNothing(rels: Relations, m: State, log: seq<ChangeEvent>, again: seq<ChangeEvent>)
    requires rels.Keys == m.Keys && |again| <= |log| && again == log[|log| - |again|..]
    ensures WrittenAll(rels, WrittenAll(rels, m, log), again) == WrittenAll(rels, m, log)
  {
    hide *;
    var once := WrittenAll(rels, m, log);
    SuffixRows(rels, m, log, once, again);
    RowsAtEnd(rels, once, again);
    RowsAtEnd(rels, m, log);
  }

  lemma RowsAtEnd(rels: Relations, m: State, log: seq<ChangeEvent>)
    requires rels.Keys == m.Keys
    ensures RowsAt(rels, m, log, |log|) == WrittenAll(rels, m, log)
  {
    hide RowsAt, WrittenAll;
    RowsAtEnds(rels, m, log);
  }

  lemma SuffixRows(rels: Relations, m: State, log: seq<ChangeEvent>, once: State, again: seq<ChangeEvent>)
    requires rels.Keys == m.Keys == once.Keys
    requires |again| <= |log| && again == log[|log| - |again|..] && once == WrittenAll(rels, m, log)
    ensures RowsAt(rels, once, again, |again|) == RowsAt(rels, m, log, |log|)
  {
    hide WrittenAll, RowsAt, AllRecent;
    SuffixIsRecent(rels, m, log, once, again, |again|);
    RecentAtOnePoint(rels, m, log, RowsAt(rels, once, again, |again|), |log|);
  }

  /** After `n` events of the suffix. */
  lemma {:induction false} SuffixIsRecent(rels: Relations, m: State, log: seq<ChangeEvent>, once: State,
                                          again: seq<ChangeEvent>, n: nat)
    requires rels.Keys == m.Keys == once.Keys
    requires n <= |again| <= |log| && again == log[|log| - |again|..] && once == WrittenAll(rels, m, log)
    ensures AllRecent(rels, m, log, RowsAt(rels, once, again, n), |log| - |again| + n, |log|)
  {
    hide SinkWrite, WrittenAll, RowsAt;
    if n == 0 {
      RowsAtEnds(rels, once, again);
      EndIsRecent(rels, m, log, |log| - |again|);
    } else {
      SuffixIsRecent(rels, m, log, once, again, n - 1);
      var rows, low := RowsAt(rels, once, again, n - 1), |log| - |again| + n - 1;
      hide AllRecent;
      RowsAtNext(rels, once, again, n - 1);
      WritingKeepsRecent(rels, m, log, rows, low, low, |log|);
    }
  }

  lemma EndIsRecent(rels: Relations, m: State, log: seq<ChangeEvent>, low: nat)
    requires rels.Keys == m.Keys && low <= |log|
    ensures AllRecent(rels, m, log, WrittenAll(rels, m, log), low, |log|)
  {
    hide WrittenAll, RowsAt, Lookup;
    RowsAtEnds(rels, m, log);
    var once := WrittenAll(rels, m, log);
    forall oid, key ensures Recent(rels, m, log, once, low, |log|, oid, key) {
      assert Lookup(once, oid, key) == Lookup(RowsAt(rels, m, log, |log|), oid, key);
    }
  }

  // ----- A skipped event -----

  lemma NeverExecuted(s: SinkView, e: ChangeEvent, o: SinkOutcomes)
    requires SameDomain(s.cache) && !o.execute
    ensures Handled(s, e, o).0.Err?
  {
    hide Got, FreshUpsert, FreshDelete, MergeOp, DeleteArgs;
  }

  function SkippingSteps(): seq<ReplayStep>
  {
    [Consume(Outcome(SinkOutcomes(true, false), true)), Consume(Outcome(NO_SINK_FAILURE, true))]
  }

  lemma TwoSteps(rels: Relations, log: seq<ChangeEvent>, db: Db, m: State)
    requires rels.Keys == m.Keys && |log| >= 2
    ensures var steps, start := SkippingSteps(), ReplicaRun(rels, log, db, m, []);
            && start.position == 0
            && ReplicaRun(rels, log, db, m, steps) ==
               ConsumeOne(rels, ConsumeOne(rels, start, log[0], steps[0].outcome), log[1], steps[1].outcome)
  {
    hide ConsumeOne, CacheOf;
    var steps := SkippingSteps();
    assert steps[..1] == [steps[0]] && [steps[0]][..0] == [];
    var start := ReplicaRun(rels, log, db, m, []);
    assert ReplicaRun(rels, log, db, m, steps[..1]) == ReplicaNext(rels, log, start, steps[0]);
    OnePositionOn(rels, start, log[0], steps[0].outcome);
  }

  lemma OnePositionOn(rels: Relations, r: Replica, event: ChangeEvent, o: Outcome)
    requires Ready(rels, r)
    ensures ConsumeOne(rels, r, event, o).position == r.position + 1
  {
    hide Handles, Takes, SinkWrite, Consumed;
  }

  lemma StartReplica(rels: Relations, log: seq<ChangeEvent>, db: Db, m: State)
    requires rels.Keys == m.Keys
    ensures var start := ReplicaRun(rels, log, db, m, []);
            && Coherent(rels, start.progress.sink) && start.progress.sink.db == db && start.progress.committed == map[]
            && start.position == 0 && start.settled == 0 && start.applied == {}
  {
    hide CacheOf, Coherent;
    CoherentRestart(rels, db);
  }

  /** A failure leaves a mark in the sink only. */
  lemma FailedOne(rels: Relations, r: Replica, event: ChangeEvent, o: Outcome)
    requires Ready(rels, r) && !Handles(r, event, o) && Takes(rels, event)
    ensures var next := ConsumeOne(rels, r, event, o);
            && next.progress == Progress(Handled(r.progress.sink, event, o.sink).1, r.progress.committed)
            && next.position == r.position + 1 && next.settled == r.settled && next.applied == r.applied
  {
    hide Handled, Takes, SinkWrite;
  }

  lemma FirstFails(rels: Relations, r: Replica, m: State, event: ChangeEvent)
    requires SuitableAll(rels) && Ready(rels, r) && AcceptableEvent(rels, event)
    requires Coherent(rels, r.progress.sink) && Holds(rels, r.progress.sink.db, m)
    ensures var next := ConsumeOne(rels, r, event, SkippingSteps()[0].outcome);
            && next.progress.committed == r.progress.committed && next.position == r.position + 1
            && next.settled == r.settled && next.applied == r.applied
            && Coherent(rels, next.progress.sink) && next.progress.sink.db == r.progress.sink.db
  {
    TakenIffAcceptable(rels, event);
    assert SameDomain(r.progress.sink.cache) && Takes(rels, event);
    var o := SkippingSteps()[0].outcome;
    hide SuitableAll, Holds, Coherent, AcceptableEvent, Applied, Handled, CacheOf, Takes, Refused, ConsumeOne;
    NeverExecuted(r.progress.sink, event, o.sink);
    FailedOne(rels, r, event, o);
    HandledEitherWay(rels, r.progress.sink, m, event, o.sink);
  }

  lemma SecondSucceeds(rels: Relations, r: Replica, m: State, event: ChangeEvent)
    requires SuitableAll(rels) && Ready(rels, r) && AcceptableEvent(rels, event)
    requires Coherent(rels, r.progress.sink) && Holds(rels, r.progress.sink.db, m) && rels.Keys == m.Keys
    requires r.position == 1 && r.settled == 0 && r.applied == {}
    ensures var next := ConsumeOne(rels, r, event, SkippingSteps()[1].outcome);
            IsSkipped(next, 0) && next.settled == 0 && Holds(rels, next.progress.sink.db, Applied(rels, m, event))
  {
    hide SuitableAll, Holds, Coherent, AcceptableEvent, Applied, Handled, CacheOf, Takes;
    EventIsWrite(rels, r.progress.sink, m, event);
  }

  /** In every log that starts with two events the sink can handle: when the first fails and the second does not, the
      first is skipped for good, and the tables hold what the second alone wrote. */
  lemma ASkippedEvent(rels: Relations, log: seq<ChangeEvent>, db: Db, m: State)
    requires SuitableAll(rels) && rels.Keys == m.Keys && Holds(rels, db, m) && |log| >= 2
    requires AcceptableEvent(rels, log[0]) && AcceptableEvent(rels, log[1])
    ensures var r := ReplicaRun(rels, log, db, m, SkippingSteps());
            IsSkipped(r, 0) && r.settled == 0 && Holds(rels, r.progress.sink.db, Applied(rels, m, log[1]))
  {
    hide SuitableAll, Holds, Coherent, AcceptableEvent, Applied, CacheOf, ConsumeOne, IsSkipped, ReplicaRun,
      ReplicaNext, Handles;
    TwoSteps(rels, log, db, m);
    StartReplica(rels, log, db, m);
    var start := ReplicaRun(rels, log, db, m, []);
    FirstFails(rels, start, m, log[0]);
    SecondSucceeds(rels, ConsumeOne(rels, start, log[0], SkippingSteps()[0].outcome), m, log[1]);
  }
}
