/** A whole session of the event loop, message by message, is a run of the system. */
module Sessions {
  import opened Wrappers
  import opened Wire
  import opened ChangeEvents
  import opened RelationDecoder
  import opened MessageDecoder
  import opened Producer
  import opened ProducerRuns
  import opened ExactlyOnce

  /** Messages that the loop passes over: relations it cannot parse, and everything it does not know. */
  predicate IsIgnored(ev: ReplicationEvent)
  {
    match ev
    case Other => true
    case XLogData(data) =>
      && data != [] && !IsChange(data)
      && (data[0] == TAG_RELATION ==> ParseRelation(data).Err? && ParseRelation(data) != Err(IndexPanic))
    case _ => false
  }

  /** They change nothing. */
  lemma IgnoredChangesNothing(s: Session, ev: ReplicationEvent, o: Outcomes)
    requires IsIgnored(ev)
    ensures Handle(s, ev, o) == s
  {
    hide ParseRelation, ParseChange;
  }

  /** Nor does a change that cannot be decoded. */
  lemma RefusedChangesNothing(s: Session, data: Bytes, o: Outcomes)
    requires IsChange(data) && ParseChange(data, s.relations).Err? && ParseChange(data, s.relations) != Err(IndexPanic)
    ensures Handle(s, XLogData(data), o) == s
  {
    hide ParseRelation, ParseChange;
  }

  /** What a message is to the system: the next of the source, a relation, or nothing. */
  predicate IsStep(src: seq<SourceTxn>, st: System, relations: RelationMap, ev: (ReplicationEvent, Outcomes),
                   step: Step)
  {
    match step
    case Deliver(o) => o == ev.1 && st.at < |src| && IsNextMessage(src, st, relations, ev.0)
    case Announce(relation, o) =>
      && o == ev.1 && ev.0.XLogData? && ev.0.data != [] && ev.0.data[0] == TAG_RELATION
      && ParseRelation(ev.0.data).Ok? && ParseRelation(ev.0.data).value.inner == relation
    case Idle => IsIgnored(ev.0)
    case _ => false
  }

  lemma LoopStep(src: seq<SourceTxn>, st: System, s: Session, ev: (ReplicationEvent, Outcomes), step: Step)
    requires !s.stopped && s.txn == st.txn && IsStep(src, st, s.relations, ev, step)
    ensures var s2, next := Handle(s, ev.0, ev.1), Next(src, st, step);
            && (s2.stopped <==> Halts(src, st, step))
            && next.txn == if s2.stopped then Txn(false, s2.txn.applied, Fenced(s2.txn.kafka)) else s2.txn
  {
    hide ParseChange, ParseRelation, EventsOf, InFlight, AtRisk, IsNextMessage, DeliverBegin, DeliverChange,
      DeliverCommit;
    if step.Deliver? {
      LoopFollowsSystem(src, st, s, ev.0, ev.1);
    }
  }

  /** Each message of the session is the step of the run at its place, and none of them stops the program. */
  predicate AreSteps(src: seq<SourceTxn>, st: System, s: Session, evs: seq<(ReplicationEvent, Outcomes)>,
                     steps: seq<Step>)
    requires |evs| == |steps|
  {
    evs == [] ||
    var last := |evs| - 1;
    var before := RunFrom(src, st, steps[..last]);
    && AreSteps(src, st, s, evs[..last], steps[..last])
    && IsStep(src, before, HandleAll(s, evs[..last]).relations, evs[last], steps[last])
    && !Halts(src, before, steps[last])
  }

  lemma {:induction false} SessionFollowsRun(src: seq<SourceTxn>, st: System, s: Session,
                                             evs: seq<(ReplicationEvent, Outcomes)>, steps: seq<Step>)
    requires !s.stopped && s.txn == st.txn && |evs| == |steps| && AreSteps(src, st, s, evs, steps)
    ensures !HandleAll(s, evs).stopped && HandleAll(s, evs).txn == RunFrom(src, st, steps).txn
  {
    hide Handle, Next, IsStep, Halts;
    if evs != [] {
      var last := |evs| - 1;
      SessionFollowsRun(src, st, s, evs[..last], steps[..last]);
      LoopStep(src, RunFrom(src, st, steps[..last]), HandleAll(s, evs[..last]), evs[last], steps[last]);
    }
  }

  /** How the session's end looks to the system. */
  function EndOfSession(ending: Ending): Step
  {
    match ending
    case ConnectionClosed(abortOk) => Close(abortOk)
    case ReceiveFailed => Restart
  }

  /** A whole session that no change stops, from a fresh program to its end and the next fresh program, is a run of the
      system: what the loop leaves behind, fenced, is the state in which the run goes on. */
  lemma SessionIsARun(src: seq<SourceTxn>, before: seq<Step>, s: Session, evs: seq<(ReplicationEvent, Outcomes)>,
                      steps: seq<Step>, ending: Ending)
    requires !s.stopped && s.txn == Run(src, before).txn && |evs| == |steps|
    requires AreSteps(src, Run(src, before), s, evs, steps)
    ensures var left := SessionResult(s, evs, ending);
            var now := Run(src, before + steps + [EndOfSession(ending)]);
            && HandleAll(s, evs).txn == Run(src, before + steps).txn
            && !left.stopped
            && now.txn == Txn(false, left.txn.applied, Fenced(left.txn.kafka))
  {
    hide Handle, HandleAll, AreSteps, Run, RunFrom, Resume, StartLsn;
    SessionFollowsRun(src, Run(src, before), s, evs, steps);
    RunAppend(src, before, steps);
    RunAppend(src, before + steps, [EndOfSession(ending)]);
    RunOne(src, Run(src, before + steps), EndOfSession(ending));
  }

  /** A session that a change stops: nothing after that message is handled, the final abort is not reached, and what is
      left behind, fenced, is again the state in which the run goes on. */
  lemma StoppedSessionIsARun(src: seq<SourceTxn>, before: seq<Step>, s: Session, evs: seq<(ReplicationEvent, Outcomes)>,
                             steps: seq<Step>, last: (ReplicationEvent, Outcomes), step: Step,
                             rest: seq<(ReplicationEvent, Outcomes)>, ending: Ending)
    requires !s.stopped && s.txn == Run(src, before).txn && |evs| == |steps|
    requires AreSteps(src, Run(src, before), s, evs, steps)
    requires IsStep(src, Run(src, before + steps), HandleAll(s, evs).relations, last, step)
    requires Halts(src, Run(src, before + steps), step)
    ensures var left := SessionResult(s, evs + [last] + rest, ending);
            var now := Run(src, before + steps + [step]);
            && left.stopped && left.txn == HandleAll(s, evs).txn
            && now.txn == Txn(false, left.txn.applied, Fenced(left.txn.kafka))
  {
    SessionFollowsRun(src, Run(src, before), s, evs, steps);
    hide Handle, AreSteps, Run, RunFrom, Resume, StartLsn, IsStep, Halts;
    RunAppend(src, before, steps);
    RunAppend(src, before + steps, [step]);
    RunOne(src, Run(src, before + steps), step);
    LoopStep(src, Run(src, before + steps), HandleAll(s, evs), last, step);
    var all := evs + [last] + rest;
    assert all[..|evs| + 1] == evs + [last] && (evs + [last])[..|evs|] == evs;
    assert HandleAll(s, evs + [last]) == Handle(HandleAll(s, evs), last.0, last.1);
    HaltKeepsTxn(src, Run(src, before + steps), HandleAll(s, evs), last, step);
    StaysStopped(s, all, |evs| + 1);
  }

  lemma HaltKeepsTxn(src: seq<SourceTxn>, st: System, s: Session, ev: (ReplicationEvent, Outcomes), step: Step)
    requires !s.stopped && s.txn == st.txn && IsStep(src, st, s.relations, ev, step) && Halts(src, st, step)
    ensures Handle(s, ev.0, ev.1).txn == s.txn
  {
    hide ParseChange, ParseRelation;
  }

  lemma RunOne(src: seq<SourceTxn>, st: System, step: Step)
    ensures RunFrom(src, st, [step]) == Next(src, st, step)
  {
    hide Next;
    assert [step][..0] == [];
  }
}
