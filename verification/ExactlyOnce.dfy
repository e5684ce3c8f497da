/** Runs in which no call to Kafka fails while the stream is delivered, with crashes and lost connections anywhere. */
module ExactlyOnce {
  import opened Wire
  import opened ChangeEvents
  import opened Producer
  import opened ProducerRuns

  /** Relation records are sent on a best-effort basis, and a final abort may fail: neither matters here. */
  predicate Successful(step: Step)
  {
    step.Deliver? ==> step.o.begin && step.o.send && step.o.commit
  }

  predicate AllSuccessful(steps: seq<Step>)
  {
    forall i | 0 <= i < |steps| :: Successful(steps[i])
  }

  function RunFrom(src: seq<SourceTxn>, st: System, steps: seq<Step>): System
  {
    if steps == [] then st
    else
      var last := |steps| - 1;
      Next(src, RunFrom(src, st, steps[..last]), steps[last])
  }

  lemma {:induction false} RunAppend(src: seq<SourceTxn>, a: seq<Step>, b: seq<Step>)
    ensures Run(src, a + b) == RunFrom(src, Run(src, a), b)
  {
    hide Next;
    if b == [] {
      assert a + b == a;
    } else {
      var last := |b| - 1;
      RunAppend(src, a, b[..last]);
      assert (a + b)[..|a + b| - 1] == a + b[..last];
    }
  }

  /** Since the batches `base`, exactly the transactions from `from` on were published, one whole batch each. */
  predicate Clean(src: seq<SourceTxn>, st: System, base: seq<seq<Piece>>, from: nat)
  {
    && from <= st.covered == st.at <= |src|
    && st.held == []
    && (st.txn.kafka.open <==> st.txn.inTransaction)
    && (st.stage >= 1 <==> st.txn.inTransaction)
    && |st.published| == |base| + st.covered - from
    && st.published[..|base|] == base
    && forall b | |base| <= b < |st.published| :: st.published[b] == [Entire(src, from + b - |base|)]
  }

  lemma CleanKept(src: seq<SourceTxn>, st: System, step: Step, base: seq<seq<Piece>>, from: nat)
    requires ValidSource(src) && GoodPosition(src, st) && GoodCheckpoint(src, st)
    requires Clean(src, st, base, from) && Successful(step)
    ensures Clean(src, Proceed(src, st, step), base, from)
  {
    hide EventsOf, InFlight, Resume, StartLsn, AtRisk, Checkpoint, EndOf;
    ResumeAfterCovered(src, st);
    if step.Close? {
      ResumeAfterCovered(src, st.(txn := Closed(st.txn, step.abortOk)));
    }
  }

  lemma {:induction false} RunFromKeeps(src: seq<SourceTxn>, st: System, steps: seq<Step>)
    requires ValidSource(src) && Inv(src, st)
    ensures Inv(src, RunFrom(src, st, steps))
  {
    hide Inv, Next;
    if steps != [] {
      RunFromKeeps(src, st, steps[..|steps| - 1]);
      InvKept(src, RunFrom(src, st, steps[..|steps| - 1]), steps[|steps| - 1]);
    }
  }

  lemma {:induction false} RunFromClean(src: seq<SourceTxn>, st: System, steps: seq<Step>, base: seq<seq<Piece>>,
                                        from: nat)
    requires ValidSource(src) && Inv(src, st) && Clean(src, st, base, from) && AllSuccessful(steps)
    ensures Clean(src, RunFrom(src, st, steps), base, from)
  {
    hide Inv, Proceed, Clean;
    if steps != [] {
      var front := steps[..|steps| - 1];
      RunFromClean(src, st, front, base, from);
      RunFromKeeps(src, st, front);
      InvParts(src, RunFrom(src, st, front));
      CleanKept(src, RunFrom(src, st, front), Taken(src, RunFrom(src, st, front), steps[|steps| - 1]), base, from);
    }
  }

  /** What consumers see: the events of every committed batch, in order. */
  function Visible(log: seq<seq<Record>>): seq<ChangeEvent>
  {
    if log == [] then []
    else
      var last := |log| - 1;
      Visible(log[..last]) + Events(log[last])
  }

  /** The decodable events of the first `n` transactions that end at or before a checkpoint. */
  function EventsUpTo(src: seq<SourceTxn>, n: nat, checkpoint: nat): seq<ChangeEvent>
    requires n <= |src|
  {
    if n == 0 then []
    else EventsUpTo(src, n - 1, checkpoint) + if src[n - 1].endLsn <= checkpoint then EventsOf(src, n - 1) else []
  }

  lemma {:induction false} OneBatchEach(src: seq<SourceTxn>, log: seq<seq<Record>>, checkpoint: nat)
    requires |log| <= |src|
    requires forall b | 0 <= b < |log| :: Events(log[b]) == EventsOf(src, b) && src[b].endLsn <= checkpoint
    ensures Visible(log) == EventsUpTo(src, |log|, checkpoint)
  {
    hide Events, EventsOf;
    if log != [] {
      OneBatchEach(src, log[..|log| - 1], checkpoint);
    }
  }

  lemma {:induction false} NothingBeyond(src: seq<SourceTxn>, n: nat, m: nat, checkpoint: nat)
    requires n <= m <= |src| && forall i | n <= i < m :: src[i].endLsn > checkpoint
    ensures EventsUpTo(src, m, checkpoint) == EventsUpTo(src, n, checkpoint)
  {
    if n < m {
      NothingBeyond(src, n, m - 1, checkpoint);
    }
  }

  /** A batch of one entire transaction spells its events. */
  lemma EntireSpells(src: seq<SourceTxn>, i: nat)
    requires i < |src|
    ensures AllFit(src, [Entire(src, i)]) && Spelled(src, [Entire(src, i)]) == EventsOf(src, i)
  {
    hide EventsOf, Spelled;
    Nothing(src);
    SpelledMore(src, [], Entire(src, i));
    var all := EventsOf(src, i);
    assert [] + [Entire(src, i)] == [Entire(src, i)];
    assert all[..|all|] == all == [] + all;
  }

  /** Exactly once: in every run without a failed call, whatever the crashes, the log holds one batch for each
      source transaction that ends at or before the checkpoint, in order and with all of its decodable events,
      and nothing else. */
  lemma ExactlyOnce(src: seq<SourceTxn>, steps: seq<Step>)
    requires ValidSource(src) && AllSuccessful(steps)
    ensures var log := Run(src, steps).txn.kafka.log;
            && |log| <= |src|
            && (forall b | 0 <= b < |log| :: Events(log[b]) == EventsOf(src, b))
            && (forall i | 0 <= i < |src| :: i < |log| <==> src[i].endLsn <= Checkpoint(log))
            && Visible(log) == EventsUpTo(src, |src|, Checkpoint(log))
  {
    hide Run, RunFrom, EventsOf, Events, Spelled, EndOf, GoodOrder, GoodTorn, GoodAccount, GoodPosition, GoodBuffer,
      Inv, Checkpoint;
    var st := Run(src, steps);
    var log := st.txn.kafka.log;
    StartsClean(src);
    RunAppend(src, [], steps);
    assert [] + steps == steps;
    RunFromClean(src, Initial(), steps, [], 0);
    RunIsGood(src, steps);
    InvParts(src, st);
    forall b | 0 <= b < |log| ensures Events(log[b]) == EventsOf(src, b) {
      EntireSpells(src, b);
    }
    forall i | 0 <= i < |src| ensures i < |log| <==> src[i].endLsn <= Checkpoint(log) {
      BelowCheckpoint(src, st.covered, i);
    }
    OneBatchEach(src, log, Checkpoint(log));
    NothingBeyond(src, |log|, |src|, Checkpoint(log));
  }

  lemma StartsClean(src: seq<SourceTxn>)
    requires ValidSource(src)
    ensures Inv(src, Initial()) && Clean(src, Initial(), [], 0) && Run(src, []) == Initial()
  {
    InitialIsGood(src);
  }

  // ----- Recovery -----

  lemma RestartIsClean(src: seq<SourceTxn>, st: System)
    requires ValidSource(src) && Inv(src, st)
    ensures Clean(src, Restarted(src, st), st.published, st.covered)
  {
    hide Resume, StartLsn, EndOf, Checkpoint;
    InvParts(src, st);
    ResumeAfterCovered(src, st);
  }

  function Messages(src: seq<SourceTxn>, i: nat): nat
    requires i <= |src|
    decreases |src| - i
  {
    if i == |src| then 0 else |src[i].changes| + 2 + Messages(src, i + 1)
  }

  function Left(src: seq<SourceTxn>, st: System): int
    requires st.at <= |src|
  {
    Messages(src, st.at) - st.stage
  }

  function Deliveries(n: nat): (steps: seq<Step>)
    ensures |steps| == n && AllSuccessful(steps)
    ensures forall i | 0 <= i < n :: steps[i].Deliver?
  {
    seq(n, _ => Deliver(Outcomes(true, true, true, true)))
  }

  lemma DeliveryAdvances(src: seq<SourceTxn>, st: System, o: Outcomes)
    requires GoodPosition(src, st) && Left(src, st) > 0 && !Halts(src, st, Deliver(o))
    ensures st.at < |src| && Next(src, st, Deliver(o)).at <= |src|
    ensures Left(src, Next(src, st, Deliver(o))) == Left(src, st) - 1
  {
    hide EventsOf, InFlight, AtRisk, Checkpoint, OnChange, OnCommit, OnBegin;
  }

  /** A change of the transaction at which the program stops. */
  predicate StopsAt(src: seq<SourceTxn>, i: nat, k: nat)
  {
    i < |src| && k < |src[i].changes| && src[i].changes[k].Stopping?
  }

  predicate HasStop(src: seq<SourceTxn>, i: nat)
    requires i < |src|
  {
    exists k: nat | k < |src[i].changes| :: StopsAt(src, i, k)
  }

  predicate NoStopFrom(src: seq<SourceTxn>, from: nat)
  {
    forall i: nat | from <= i < |src| :: !HasStop(src, i)
  }

  lemma NothingHalts(src: seq<SourceTxn>, st: System, step: Step, base: seq<seq<Piece>>, from: nat)
    requires Clean(src, st, base, from) && NoStopFrom(src, from)
    ensures !Halts(src, st, step)
  {
    if st.at < |src| {
      assert !HasStop(src, st.at);
      assert 1 <= st.stage <= |src[st.at].changes| ==> !StopsAt(src, st.at, st.stage - 1);
    }
  }

  lemma {:induction false} DeliveriesAdvance(src: seq<SourceTxn>, st: System, n: nat, base: seq<seq<Piece>>, from: nat)
    requires ValidSource(src) && Inv(src, st) && Clean(src, st, base, from) && NoStopFrom(src, from)
    requires st.at <= |src| && n <= Left(src, st)
    ensures var st2 := RunFrom(src, st, Deliveries(n));
            st2.at <= |src| && Left(src, st2) == Left(src, st) - n
  {
    hide Inv, Next, Left, Clean, NoStopFrom;
    if n > 0 {
      var front := Deliveries(n)[..n - 1];
      assert front == Deliveries(n - 1);
      DeliveriesAdvance(src, st, n - 1, base, from);
      RunFromKeeps(src, st, front);
      RunFromClean(src, st, front, base, from);
      InvParts(src, RunFrom(src, st, front));
      NothingHalts(src, RunFrom(src, st, front), Deliveries(n)[n - 1], base, from);
      DeliveryAdvances(src, RunFrom(src, st, front), Deliveries(n)[n - 1].o);
    }
  }

  lemma NothingLeft(src: seq<SourceTxn>, st: System)
    requires GoodPosition(src, st)
    ensures Left(src, st) >= 0 && (Left(src, st) == 0 ==> st.at == |src|)
  {
  }

  predicate Extends(was: seq<seq<Record>>, now: seq<seq<Record>>)
  {
    |was| <= |now| && now[..|was|] == was
  }

  /** Every transaction above the checkpoint of `was` has become one whole batch after those of `was`. */
  predicate Recovered(src: seq<SourceTxn>, was: System, now: System)
  {
    && was.covered <= |src|
    && Extends(was.txn.kafka.log, now.txn.kafka.log)
    && |now.txn.kafka.log| == |was.txn.kafka.log| + |src| - was.covered
    && (forall b | |was.txn.kafka.log| <= b < |now.txn.kafka.log| ::
          Events(now.txn.kafka.log[b]) == EventsOf(src, was.covered + b - |was.txn.kafka.log|))
    && Checkpoint(now.txn.kafka.log) == EndOf(src, |src|)
  }

  lemma CleanToTheEnd(src: seq<SourceTxn>, was: System, now: System)
    requires GoodLog(src, was) && GoodLog(src, now) && GoodCheckpoint(src, now)
    requires Clean(src, now, was.published, was.covered) && now.at == |src|
    requires Extends(was.txn.kafka.log, now.txn.kafka.log)
    ensures Recovered(src, was, now)
  {
    hide EventsOf, Events, Spelled, EndOf, Checkpoint, Extends;
    forall b | |was.txn.kafka.log| <= b < |now.txn.kafka.log|
      ensures Events(now.txn.kafka.log[b]) == EventsOf(src, was.covered + b - |was.txn.kafka.log|)
    {
      EntireSpells(src, was.covered + b - |was.txn.kafka.log|);
    }
  }

  /** Recovery: after any run, with any failures, if nothing above the checkpoint stops the program, a restart followed
      by enough successful deliveries publishes every transaction above the checkpoint, each as one whole batch, and
      brings the checkpoint to the end of the source. */
  lemma RestartRecovers(src: seq<SourceTxn>, steps: seq<Step>) returns (more: seq<Step>)
    requires ValidSource(src) && NoStopFrom(src, Run(src, steps).covered)
    ensures AllSuccessful(more)
    ensures Recovered(src, Run(src, steps), Run(src, steps + [Restart] + more))
  {
    hide Run, RunFrom, GoodOrder, GoodTorn, GoodAccount, GoodPosition, GoodBuffer, GoodLog, GoodCheckpoint, Inv,
      Deliveries, Left, Clean, Recovered, Extends, Restarted, NoStopFrom;
    var was := Run(src, steps);
    RunIsGood(src, steps);
    InvParts(src, was);
    var resumed := Run(src, steps + [Restart]);
    RestartStep(src, steps);
    RestartIsClean(src, was);
    RunIsGood(src, steps + [Restart]);
    InvParts(src, resumed);
    more := DeliverAll(src, resumed, was.published, was.covered);
    RunAppend(src, steps + [Restart], more);
    var now := RunFrom(src, resumed, more);
    RunFromKeeps(src, resumed, more);
    InvParts(src, now);
    RunFromClean(src, resumed, more, was.published, was.covered);
    RunFromGrows(src, resumed, more);
    CleanToTheEnd(src, was, now);
  }

  lemma DeliverAll(src: seq<SourceTxn>, st: System, base: seq<seq<Piece>>, from: nat) returns (more: seq<Step>)
    requires ValidSource(src) && Inv(src, st) && Clean(src, st, base, from) && NoStopFrom(src, from)
    ensures AllSuccessful(more) && RunFrom(src, st, more).at == |src|
  {
    hide Inv, RunFrom, Left, Clean, NoStopFrom;
    InvParts(src, st);
    NothingLeft(src, st);
    more := Deliveries(Left(src, st));
    DeliveriesAdvance(src, st, Left(src, st), base, from);
    RunFromKeeps(src, st, more);
    InvParts(src, RunFrom(src, st, more));
    NothingLeft(src, RunFrom(src, st, more));
  }

  // ----- Changes at which the program stops -----

  /** The stream has not got past the given change. */
  predicate Before(st: System, i: nat, k: nat)
  {
    st.covered <= i && st.at <= i && (st.at == i ==> st.stage <= k + 1)
  }

  /** Without a failed call it never does: inside its transaction the change stops the program, and the next program
      starts over right after the covered transactions. */
  lemma StaysBefore(src: seq<SourceTxn>, st: System, step: Step, base: seq<seq<Piece>>, from: nat, i: nat, k: nat)
    requires ValidSource(src) && GoodPosition(src, st) && GoodCheckpoint(src, st) && Clean(src, st, base, from)
    requires Successful(step) && StopsAt(src, i, k) && Before(st, i, k)
    ensures Before(Next(src, st, step), i, k)
  {
    hide EventsOf, InFlight, Resume, StartLsn, AtRisk, Checkpoint, EndOf;
    ResumeAfterCovered(src, st);
    if step.Close? {
      ResumeAfterCovered(src, st.(txn := Closed(st.txn, step.abortOk)));
    }
  }

  lemma {:induction false} RunStaysBefore(src: seq<SourceTxn>, st: System, steps: seq<Step>, base: seq<seq<Piece>>,
                                          from: nat, i: nat, k: nat)
    requires ValidSource(src) && Inv(src, st) && Clean(src, st, base, from) && AllSuccessful(steps)
    requires StopsAt(src, i, k) && Before(st, i, k)
    ensures Before(RunFrom(src, st, steps), i, k)
  {
    hide Inv, Next, Clean, Before, StopsAt;
    if steps != [] {
      var front := steps[..|steps| - 1];
      RunStaysBefore(src, st, front, base, from, i, k);
      RunFromKeeps(src, st, front);
      RunFromClean(src, st, front, base, from);
      InvParts(src, RunFrom(src, st, front));
      StaysBefore(src, RunFrom(src, st, front), steps[|steps| - 1], base, from, i, k);
    }
  }

  lemma EndOfCovered(src: seq<SourceTxn>, n: nat, i: nat)
    requires ValidSource(src) && n <= i < |src|
    ensures EndOf(src, n) <= src[i].lsn < src[i].endLsn
  {
  }

  /** In every run without a failed call, whatever the crashes, the checkpoint never passes a transaction with a
      change at which the program stops. */
  lemma CheckpointStaysBeforeStop(src: seq<SourceTxn>, steps: seq<Step>, i: nat)
    requires ValidSource(src) && AllSuccessful(steps) && i < |src| && HasStop(src, i)
    ensures Run(src, steps).covered <= i && Checkpoint(Run(src, steps).txn.kafka.log) <= src[i].lsn
  {
    var k: nat :| k < |src[i].changes| && StopsAt(src, i, k);
    StartsClean(src);
    hide Run, RunFrom, Inv, Clean, StopsAt, Checkpoint, EndOf;
    RunAppend(src, [], steps);
    assert [] + steps == steps;
    RunStaysBefore(src, Initial(), steps, [], 0, i, k);
    RunIsGood(src, steps);
    InvParts(src, Run(src, steps));
    EndOfCovered(src, Run(src, steps).covered, i);
  }

  /** Nor does any successful continuation after a restart, whatever failed before, so the source is never recovered. */
  lemma StopPreventsRecovery(src: seq<SourceTxn>, steps: seq<Step>, more: seq<Step>, i: nat)
    requires ValidSource(src) && AllSuccessful(more) && Run(src, steps).covered <= i < |src| && HasStop(src, i)
    ensures Run(src, steps + [Restart] + more).covered <= i
    ensures !Recovered(src, Run(src, steps), Run(src, steps + [Restart] + more))
  {
    var k: nat :| k < |src[i].changes| && StopsAt(src, i, k);
    hide Run, RunFrom, GoodOrder, GoodTorn, GoodAccount, GoodPosition, GoodBuffer, GoodLog, Inv, Clean, Restarted,
      StopsAt, EndOf, Checkpoint, Extends;
    var was, resumed := Run(src, steps), Run(src, steps + [Restart]);
    RunIsGood(src, steps);
    RestartStep(src, steps);
    RestartIsClean(src, was);
    RestartIsBefore(src, was, i, k);
    RunIsGood(src, steps + [Restart]);
    RunStaysBefore(src, resumed, more, was.published, was.covered, i, k);
    RunAppend(src, steps + [Restart], more);
    RunIsGood(src, steps + [Restart] + more);
    InvParts(src, Run(src, steps + [Restart] + more));
    EndOfCovered(src, Run(src, steps + [Restart] + more).covered, i);
    EndIsLast(src, i);
  }

  lemma RestartIsBefore(src: seq<SourceTxn>, st: System, i: nat, k: nat)
    requires ValidSource(src) && Inv(src, st) && st.covered <= i
    ensures Before(Restarted(src, st), i, k)
  {
    hide Resume, StartLsn, EndOf, Checkpoint;
    InvParts(src, st);
    ResumeAfterCovered(src, st);
  }

  lemma EndIsLast(src: seq<SourceTxn>, i: nat)
    requires ValidSource(src) && i < |src|
    ensures src[i].lsn < EndOf(src, |src|)
  {
    if i < |src| - 1 {
      assert src[i].endLsn <= src[|src| - 1].lsn;
    }
  }

  ghost predicate CanRecover(src: seq<SourceTxn>, steps: seq<Step>)
  {
    exists more ::
      AllSuccessful(more) && Recovered(src, Run(src, steps), Run(src, steps + [Restart] + more))
  }

  /** After any run, with any failures: a restart and some successful deliveries recover the source if and only if no
      transaction above the checkpoint has a change at which the program stops. */
  lemma RecoversIffNothingStops(src: seq<SourceTxn>, steps: seq<Step>)
    requires ValidSource(src)
    ensures CanRecover(src, steps) <==> NoStopFrom(src, Run(src, steps).covered)
  {
    hide Run, Recovered, HasStop, AllSuccessful;
    if NoStopFrom(src, Run(src, steps).covered) {
      var more := RestartRecovers(src, steps);
    }
    if CanRecover(src, steps) {
      var more :| AllSuccessful(more) && Recovered(src, Run(src, steps), Run(src, steps + [Restart] + more));
      forall i: nat | Run(src, steps).covered <= i < |src| ensures !HasStop(src, i) {
        if HasStop(src, i) {
          StopPreventsRecovery(src, steps, more, i);
        }
      }
    }
  }

  lemma RestartStep(src: seq<SourceTxn>, steps: seq<Step>)
    ensures Run(src, steps + [Restart]) == Restarted(src, Run(src, steps))
    ensures Run(src, steps + [Restart]).txn.kafka.log == Run(src, steps).txn.kafka.log
  {
    hide Resume, StartLsn;
    assert (steps + [Restart])[..|steps|] == steps;
  }

  /** What was committed stays committed. */
  lemma LogGrows(src: seq<SourceTxn>, st: System, step: Step)
    ensures Extends(st.txn.kafka.log, Proceed(src, st, step).txn.kafka.log)
  {
    hide EventsOf, InFlight, Resume, StartLsn, AtRisk, Checkpoint;
  }

  lemma {:induction false} RunFromGrows(src: seq<SourceTxn>, st: System, steps: seq<Step>)
    ensures Extends(st.txn.kafka.log, RunFrom(src, st, steps).txn.kafka.log)
  {
    hide Proceed, Taken;
    if steps != [] {
      var before := RunFrom(src, st, steps[..|steps| - 1]);
      RunFromGrows(src, st, steps[..|steps| - 1]);
      LogGrows(src, before, Taken(src, before, steps[|steps| - 1]));
    }
  }

  // ----- The checkpoint read back at start-up -----

  /** The messages of the checkpoint topic: the committed LSN records in big-endian octets. */
  function TopicMessages(lsns: seq<nat>): (messages: seq<Bytes>)
    requires forall i | 0 <= i < |lsns| :: lsns[i] < 0x1_0000_0000_0000_0000
    ensures |messages| == |lsns|
    ensures forall i | 0 <= i < |lsns| :: messages[i] == Put64(lsns[i])
  {
    seq(|lsns|, i requires 0 <= i < |lsns| => Put64(lsns[i]))
  }

  /** The LSN records are 64 bits wide. */
  lemma {:induction false} LsnsAreWide(rs: seq<Record>)
    ensures forall i | 0 <= i < |Lsns(rs)| :: Lsns(rs)[i] < 0x1_0000_0000_0000_0000
  {
    if rs != [] {
      LsnsAreWide(rs[..|rs| - 1]);
    }
  }

  lemma {:induction false} TopicIsWide(log: seq<seq<Record>>)
    ensures forall i | 0 <= i < |LsnTopic(log)| :: LsnTopic(log)[i] < 0x1_0000_0000_0000_0000
  {
    if log != [] {
      TopicIsWide(log[..|log| - 1]);
      LsnsAreWide(log[|log| - 1]);
    }
  }

  /** What start-up reads from the topic is the checkpoint: in every run the greatest LSN it holds, at which the
      stream resumes right after the covered transactions. */
  lemma ReadLsnIsCheckpoint(src: seq<SourceTxn>, steps: seq<Step>)
    requires ValidSource(src)
    ensures var topic := LsnTopic(Run(src, steps).txn.kafka.log);
            && (forall i | 0 <= i < |topic| :: topic[i] < 0x1_0000_0000_0000_0000)
            && var read := LastLsn(TopicMessages(topic));
            && read == Checkpoint(Run(src, steps).txn.kafka.log)
            && (forall x | x in topic :: x <= read)
            && (topic != [] ==> read in topic)
            && Resume(src, read, 0) == Next(src, Run(src, steps), Restart).at
  {
    hide Run, LsnTopic, Put64, U64, Inv, EndOf, GoodLog, GoodOrder, GoodTorn, GoodAccount, GoodPosition, GoodBuffer;
    var st := Run(src, steps);
    CheckpointOrder(src, steps);
    TopicIsWide(st.txn.kafka.log);
    RunIsGood(src, steps);
    InvParts(src, st);
    AppliedIsEarlier(src, st);
    var topic := LsnTopic(st.txn.kafka.log);
    if topic != [] {
      PrintedLsn(topic[|topic| - 1]);
    }
  }

  lemma PrintedLsn(x: UInt64)
    ensures |Put64(x)| == 8 && U64(Put64(x)) == x
  {
    hide U64, Put64;
    Read64(x, []);
    assert Put64(x) + [] == Put64(x);
  }
}
