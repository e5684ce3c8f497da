/** Lost transactions: exactly which transactions at or below the checkpoint never become visible, and why. */
module Losses {
  import opened Producer
  import opened ProducerRuns

  /** What the stream has passed since the checkpoint and the open Kafka transaction does not hold whole. */
  function Dropped(src: seq<SourceTxn>, st: System): set<nat>
  {
    set i: nat | st.covered <= i < st.at && i < |src| && Entire(src, i) !in st.held
  }

  predicate AtCommit(src: seq<SourceTxn>, st: System, step: Step)
  {
    step.Deliver? && st.at < |src| && st.stage == |src[st.at].changes| + 1
  }

  /** A commit that goes through, and so moves the checkpoint past everything before it. */
  predicate Commits(src: seq<SourceTxn>, st: System, step: Step)
  {
    AtCommit(src, st, step) && st.txn.inTransaction && st.txn.kafka.open && step.o.send && step.o.commit
  }

  /** At or below the checkpoint, but in no batch as a whole. */
  predicate IsLost(src: seq<SourceTxn>, st: System, i: nat)
    requires i < |src|
  {
    i < st.covered && Entire(src, i) !in Flatten(st.published)
  }

  // ----- How transactions are dropped -----

  /** The changes of an abandoned transaction are not all of it. */
  predicate GoodAbandoned(src: seq<SourceTxn>, st: System)
  {
    st.at < |src| && st.stage >= 1 && !st.txn.inTransaction ==> Entire(src, st.at) !in st.held
  }

  /** The send or the transaction fails for the change delivered. */
  predicate Abandons(src: seq<SourceTxn>, st: System, step: Step)
  {
    && step.Deliver? && st.at < |src| && 1 <= st.stage <= |src[st.at].changes| && st.txn.inTransaction
    && src[st.at].changes[st.stage - 1].Readable? && !Accepts(st.txn.kafka, step.o.send)
  }

  lemma AbandonedByChange(src: seq<SourceTxn>, st: System, step: Step)
    requires GoodPosition(src, st) && GoodOrder(st) && Abandons(src, st, step)
    ensures Entire(src, st.at) !in Proceed(src, st, step).held
  {
    hide EventsOf, InFlight, AtRisk, Flatten;
    if InFlight(src, st) != [] {
      PartialIsProper(src, st);
    }
  }

  lemma AbandonedKept(src: seq<SourceTxn>, st: System, step: Step)
    requires GoodPosition(src, st) && GoodOrder(st) && GoodAbandoned(src, st)
    ensures GoodAbandoned(src, Proceed(src, st, step))
  {
    hide EventsOf, InFlight, AtRisk, Flatten, Resume, StartLsn, GoodOrder, Entire;
    if Abandons(src, st, step) {
      AbandonedByChange(src, st, step);
    }
  }

  /** What is passed or held whole, and drops out when the open transaction is aborted. */
  function HeldWhole(src: seq<SourceTxn>, st: System): set<nat>
  {
    set i: nat | st.covered <= i < st.at && i < |src| && Entire(src, i) in st.held
  }

  /** Transactions are dropped in two ways only: an abort goes through while they are held, or their own commit is
      reached after they were abandoned or while no Kafka transaction is open. A commit that goes through and a
      restart leave nothing dropped, the one because it is now too late, the other because everything is resent. */
  function DroppedAfter(src: seq<SourceTxn>, st: System, step: Step): set<nat>
  {
    if step.Restart? || step.Close? || Halts(src, st, step) || Commits(src, st, step) then {}
    else if AtCommit(src, st, step) && !(st.txn.inTransaction && st.txn.kafka.open) then Dropped(src, st) + {st.at}
    else if Abandons(src, st, step) && (step.o.abort || !st.txn.kafka.open) then Dropped(src, st) + HeldWhole(src, st)
    else Dropped(src, st)
  }

  lemma DroppedByCommit(src: seq<SourceTxn>, st: System, step: Step)
    requires GoodPosition(src, st) && GoodOrder(st) && GoodAbandoned(src, st) && GoodBuffer(src, st)
    requires AtCommit(src, st, step)
    ensures Dropped(src, DeliverCommit(src, st, step.o)) == DroppedAfter(src, st, step)
  {
    hide EventsOf, InFlight, AtRisk, Flatten, AllFit, Spelled, Events, InOrder;
    var st2 := DeliverCommit(src, st, step.o);
    var whole := st.held + [Entire(src, st.at)];
    assert whole[|st.held|] == Entire(src, st.at);
    forall i: nat | i < |src| ensures i in Dropped(src, st2) <==> i in DroppedAfter(src, st, step) {
      assert i != st.at ==> (Entire(src, i) in whole <==> Entire(src, i) in st.held);
    }
  }

  lemma DroppedByChange(src: seq<SourceTxn>, st: System, step: Step)
    requires GoodPosition(src, st) && GoodBuffer(src, st) && step.Deliver? && st.at < |src|
    requires 1 <= st.stage <= |src[st.at].changes| && !Halts(src, st, step)
    ensures Dropped(src, Proceed(src, st, step)) == DroppedAfter(src, st, step)
  {
    hide EventsOf, InFlight, AtRisk, Flatten, AllFit, Spelled, Events;
    var st2 := Proceed(src, st, step);
    var part := InFlight(src, st);
    forall i: nat | i < |src| ensures i in Dropped(src, st2) <==> i in DroppedAfter(src, st, step) {
      assert i != st.at && part != [] ==>
          (Entire(src, i) in st.held + [Piece(st.at, |part|)] <==> Entire(src, i) in st.held);
    }
  }

  lemma DroppedSteps(src: seq<SourceTxn>, st: System, step: Step)
    requires ValidSource(src) && Inv(src, st) && GoodAbandoned(src, st)
    ensures Dropped(src, Next(src, st, step)) == DroppedAfter(src, st, step)
  {
    InvParts(src, st);
    hide Proceed, Dropped;
    if AtCommit(src, st, step) {
      DroppedAtCommit(src, st, step);
    } else if step.Deliver? && st.at < |src| && st.stage >= 1 && !Halts(src, st, step) {
      DroppedByChange(src, st, step);
    } else {
      DroppedOtherwise(src, st, Taken(src, st, step));
    }
  }

  lemma DroppedAtCommit(src: seq<SourceTxn>, st: System, step: Step)
    requires GoodPosition(src, st) && GoodOrder(st) && GoodAbandoned(src, st) && GoodBuffer(src, st)
    requires AtCommit(src, st, step)
    ensures Dropped(src, Proceed(src, st, step)) == DroppedAfter(src, st, step)
  {
    hide DeliverCommit, Dropped, DroppedAfter;
    DroppedByCommit(src, st, step);
  }

  lemma DroppedOtherwise(src: seq<SourceTxn>, st: System, step: Step)
    requires ValidSource(src) && GoodCheckpoint(src, st)
    requires step.Deliver? && st.at < |src| ==> st.stage == 0
    ensures Dropped(src, Proceed(src, st, step)) == DroppedAfter(src, st, step)
  {
    hide EventsOf, InFlight, AtRisk, Resume, StartLsn, Checkpoint, EndOf;
    ResumeAfterCovered(src, st);
    if step.Close? {
      ResumeAfterCovered(src, st.(txn := Closed(st.txn, step.abortOk)));
    }
  }

  // ----- How they are lost -----

  /** The commit that loses a transaction: it goes through while the transaction is dropped. */
  predicate Loses(src: seq<SourceTxn>, st: System, step: Step, i: nat)
    requires i < |src|
  {
    Commits(src, st, step) && i in Dropped(src, st)
  }

  lemma MemberOfConcat<T>(x: T, a: seq<T>, b: seq<T>)
    ensures x in a + b <==> x in a || x in b
  {
  }

  lemma PieceBelow(ps: seq<Piece>, bound: nat, p: Piece)
    requires AllBelow(ps, bound)
    ensures p in ps ==> p.txn < bound
  {
  }

  lemma PieceFrom(ps: seq<Piece>, bound: nat, p: Piece)
    requires AllFrom(ps, bound)
    ensures p in ps ==> bound <= p.txn
  {
  }

  lemma PublishedByCommit(src: seq<SourceTxn>, st: System, step: Step)
    requires Commits(src, st, step)
    ensures Next(src, st, step).published == st.published + [st.held + [Entire(src, st.at)]]
    ensures Next(src, st, step).covered == st.at + 1
  {
    hide EventsOf, AtRisk;
  }

  lemma LostByCommit(src: seq<SourceTxn>, st: System, step: Step, i: nat)
    requires GoodPosition(src, st) && GoodOrder(st) && i < |src| && Commits(src, st, step)
    ensures IsLost(src, Next(src, st, step), i) <==> IsLost(src, st, i) || i in Dropped(src, st)
  {
    hide EventsOf, Flatten, InOrder, AllBelow, AllFrom, Next;
    var e, at := Entire(src, i), Entire(src, st.at);
    var whole := st.held + [at];
    PublishedByCommit(src, st, step);
    FlattenMore(st.published, whole);
    MemberOfConcat(e, Flatten(st.published), whole);
    MemberOfConcat(e, st.held, [at]);
    PieceBelow(Flatten(st.published), st.covered, e);
    PieceFrom(st.held, st.covered, e);
  }

  lemma LostByStep(src: seq<SourceTxn>, st: System, step: Step, i: nat)
    requires GoodPosition(src, st) && GoodOrder(st) && i < |src|
    ensures IsLost(src, Next(src, st, step), i) <==> IsLost(src, st, i) || Loses(src, st, step, i)
  {
    hide Next, Commits, GoodPosition, GoodOrder, Dropped, Flatten;
    if Commits(src, st, step) {
      LostByCommit(src, st, step, i);
    } else {
      PublishedStays(src, st, step);
    }
  }

  lemma PublishedStays(src: seq<SourceTxn>, st: System, step: Step)
    requires GoodPosition(src, st) && !Commits(src, st, step)
    ensures Next(src, st, step).published == st.published && Next(src, st, step).covered == st.covered
  {
    hide EventsOf, InFlight, AtRisk, Resume, StartLsn;
  }

  predicate LosesAt(src: seq<SourceTxn>, steps: seq<Step>, k: nat, i: nat)
    requires k < |steps| && i < |src|
  {
    Loses(src, Run(src, steps[..k]), steps[k], i)
  }

  lemma LosesOneMore(src: seq<SourceTxn>, steps: seq<Step>, i: nat)
    requires steps != [] && i < |src|
    ensures var last := |steps| - 1;
            (exists k: nat | k < |steps| :: LosesAt(src, steps, k, i)) <==>
            (exists k: nat | k < last :: LosesAt(src, steps[..last], k, i))
            || Loses(src, Run(src, steps[..last]), steps[last], i)
  {
    hide Loses, Run;
    var last := |steps| - 1;
    forall k: nat | k < last ensures LosesAt(src, steps, k, i) == LosesAt(src, steps[..last], k, i) {
      assert steps[..k] == steps[..last][..k];
    }
    assert LosesAt(src, steps, last, i) == Loses(src, Run(src, steps[..last]), steps[last], i);
  }

  /** The exact condition: in every run, a transaction at or below the checkpoint is in no batch as a whole if and
      only if some commit went through while it was dropped. */
  lemma {:induction false} LostIffCommittedOver(src: seq<SourceTxn>, steps: seq<Step>, i: nat)
    requires ValidSource(src) && i < |src|
    ensures IsLost(src, Run(src, steps), i) <==> exists k: nat | k < |steps| :: LosesAt(src, steps, k, i)
  {
    hide Loses, LosesAt, Next, Inv, GoodOrder, GoodPosition, Flatten;
    if steps != [] {
      var last := |steps| - 1;
      var front := steps[..last];
      LostIffCommittedOver(src, front, i);
      RunIsGood(src, front);
      InvParts(src, Run(src, front));
      LostByStep(src, Run(src, front), steps[last], i);
      LosesOneMore(src, steps, i);
    }
  }

  /** A commit that goes through while something is dropped. */
  predicate LossyCommit(src: seq<SourceTxn>, steps: seq<Step>, k: nat)
    requires k < |steps|
  {
    Commits(src, Run(src, steps[..k]), steps[k]) && Dropped(src, Run(src, steps[..k])) != {}
  }

  lemma LossyCommitLosesSome(src: seq<SourceTxn>, steps: seq<Step>, k: nat)
    requires k < |steps|
    ensures LossyCommit(src, steps, k) <==> exists i: nat | i < |src| :: LosesAt(src, steps, k, i)
  {
    hide Run, Commits;
    if LossyCommit(src, steps, k) {
      var i :| i in Dropped(src, Run(src, steps[..k]));
      assert LosesAt(src, steps, k, i);
    }
  }

  predicate SomeLost(src: seq<SourceTxn>, st: System)
  {
    exists i: nat | i < |src| :: IsLost(src, st, i)
  }

  /** Some transaction is lost exactly when some commit of the run is lossy. */
  lemma SomeLostIffLossyCommit(src: seq<SourceTxn>, steps: seq<Step>)
    requires ValidSource(src)
    ensures SomeLost(src, Run(src, steps)) <==> exists k: nat | k < |steps| :: LossyCommit(src, steps, k)
  {
    hide Run, IsLost, LosesAt, LossyCommit;
    if SomeLost(src, Run(src, steps)) {
      var i: nat :| i < |src| && IsLost(src, Run(src, steps), i);
      LostIffCommittedOver(src, steps, i);
      var k: nat :| k < |steps| && LosesAt(src, steps, k, i);
      LossyCommitLosesSome(src, steps, k);
    }
    if exists k: nat | k < |steps| :: LossyCommit(src, steps, k) {
      var k: nat :| k < |steps| && LossyCommit(src, steps, k);
      LossyCommitLosesSome(src, steps, k);
      var i: nat :| i < |src| && LosesAt(src, steps, k, i);
      LostIffCommittedOver(src, steps, i);
    }
  }

  /** The abandonment invariant holds in every run, so the steps above say how anything came to be dropped. */
  lemma {:induction false} RunsDropBySteps(src: seq<SourceTxn>, steps: seq<Step>)
    requires ValidSource(src)
    ensures GoodAbandoned(src, Run(src, steps))
    ensures steps != [] ==>
              var st := Run(src, steps[..|steps| - 1]);
              Dropped(src, Run(src, steps)) == DroppedAfter(src, st, steps[|steps| - 1])
  {
    hide Proceed, Taken, Inv, GoodOrder, GoodPosition, GoodAbandoned, Dropped, DroppedAfter;
    if steps == [] {
      StartsWithoutAbandoned(src);
    } else {
      var front := steps[..|steps| - 1];
      RunsDropBySteps(src, front);
      RunIsGood(src, front);
      InvParts(src, Run(src, front));
      AbandonedKept(src, Run(src, front), Taken(src, Run(src, front), steps[|steps| - 1]));
      DroppedSteps(src, Run(src, front), steps[|steps| - 1]);
    }
  }

  lemma StartsWithoutAbandoned(src: seq<SourceTxn>)
    ensures GoodAbandoned(src, Run(src, []))
  {
  }

  /** What is lost is not even visible event by event: in a source without repeated events, the last event of a lost
      transaction is in no batch. */
  lemma LostIsInvisible(src: seq<SourceTxn>, steps: seq<Step>, i: nat, b: nat)
    requires ValidSource(src) && DistinctEvents(src) && i < |src| && EventsOf(src, i) != []
    requires IsLost(src, Run(src, steps), i) && b < |Run(src, steps).txn.kafka.log|
    ensures EventsOf(src, i)[|EventsOf(src, i)| - 1] !in Events(Run(src, steps).txn.kafka.log[b])
  {
    hide Run, EventsOf, Events, Spelled, Flatten, Inv;
    RunIsGood(src, steps);
    var st := Run(src, steps);
    InvParts(src, st);
    var last := EventsOf(src, i)[|EventsOf(src, i)| - 1];
    var ps := st.published[b];
    if last in Spelled(src, ps) {
      var k, a := SpelledMember(src, ps, last);
      PieceInAll(st.published, b, k);
    }
  }

  lemma {:induction false} PieceInAll(pss: seq<seq<Piece>>, b: nat, k: nat)
    requires b < |pss| && k < |pss[b]|
    ensures pss[b][k] in Flatten(pss)
  {
    var last := |pss| - 1;
    if b < last {
      PieceInAll(pss[..last], b, k);
    }
  }

  // ----- A lost transaction -----

  /** The begin of the first transaction fails, its first change is refused, and everything else succeeds. */
  function LosingSteps(): seq<Step>
  {
    var fine := Deliver(Outcomes(true, true, true, true));
    [Deliver(Outcomes(false, true, true, true)), fine, fine, fine, fine, fine, fine]
  }

  lemma LosingFirstFour()
    ensures var st := Run(TwoTransactions(), LosingSteps()[..4]);
            st.at == 1 && st.stage == 0 && st.covered == 0 && st.held == []
            && !st.txn.inTransaction && !st.txn.kafka.open
  {
    var src, steps := TwoTransactions(), LosingSteps();
    hide Run, Events, Lsns, AtRisk, Checkpoint, DecodableEvents, EventsOf, InFlight;
    RunNothing(src);
    assert steps[..0] == [];
    RunMore(src, steps, 0);
    RunMore(src, steps, 1);
    RunMore(src, steps, 2);
    RunMore(src, steps, 3);
  }

  lemma LosingLastThree()
    ensures LosesAt(TwoTransactions(), LosingSteps(), 6, 0)
  {
    var src, steps := TwoTransactions(), LosingSteps();
    hide Run, Events, Lsns, AtRisk, Checkpoint, DecodableEvents, EventsOf, InFlight;
    LosingFirstFour();
    RunMore(src, steps, 4);
    RunMore(src, steps, 5);
  }

  /** A run that loses a transaction: one failed begin is enough. */
  lemma ALostTransaction() returns (src: seq<SourceTxn>, steps: seq<Step>)
    ensures ValidSource(src) && DistinctEvents(src) && |src| == 2 && EventsOf(src, 0) != []
    ensures IsLost(src, Run(src, steps), 0)
  {
    hide Run, IsLost, LosesAt, DistinctEvents, DecodableEvents;
    src, steps := TwoTransactions(), LosingSteps();
    SampleSource();
    SampleEvents();
    LosingLastThree();
    LostIffCommittedOver(src, steps, 0);
  }
}
