/** The loop that feeds a sink: apply an event, then commit its offset. */
module Consumer {
  import opened Wrappers
  import opened ChangeEvents
  import opened RelationCaches
  import opened PostgresSinks

  /** What the stream yields; `None` is a payload that cannot be decoded. */
  datatype StreamItem = EventMessage(event: Option<ChangeEvent>) | RelationMessage(rel: Option<Relation>) | StreamError

  /** Whether the sink's calls and the commit get through. */
  datatype Outcome = Outcome(sink: SinkOutcomes, commit: bool)

  /** A message with its place in one of the partitions of the topics read. */
  datatype Delivery = Delivery(partition: nat, offset: nat, message: StreamItem, outcome: Outcome)

  /** `committed` holds the offset at which a restarted consumer resumes in a partition. */
  datatype Progress = Progress(sink: SinkView, committed: map<nat, nat>)

  /** A partition without a committed offset is read from its beginning. */
  function ResumesAt(committed: map<nat, nat>, partition: nat): nat
  {
    if partition in committed then committed[partition] else 0
  }

  /** A failed event is skipped; only a handled one is committed. */
  function Consumed(p: Progress, d: Delivery): (q: Progress)
    requires SameDomain(p.sink.cache)
    ensures SameDomain(q.sink.cache)
  {
    match d.message
    case EventMessage(Some(event)) =>
      var (r, sink) := Handled(p.sink, event, d.outcome.sink);
      Progress(sink, if r.Ok? && d.outcome.commit then p.committed[d.partition := d.offset + 1] else p.committed)
    case RelationMessage(Some(rel)) => p.(sink := p.sink.(cache := Updated(p.sink.cache, rel)))
    case _ => p
  }

  function ConsumedAll(p: Progress, ds: seq<Delivery>): (q: Progress)
    requires SameDomain(p.sink.cache)
    ensures SameDomain(q.sink.cache)
  {
    if ds == [] then p else Consumed(ConsumedAll(p, ds[..|ds| - 1]), ds[|ds| - 1])
  }

  class KafkaClient {
    var committed: map<nat, nat>

    constructor (committed: map<nat, nat>)
      ensures this.committed == committed
    {
      this.committed := committed;
    }

    method ConsumeFromKafka(sink: PostgresSink, ds: seq<Delivery>)
      requires SameDomain(sink.relations.View())
      modifies this, sink, sink.relations, sink.upserts, sink.deletes
      ensures Progress(sink.View(), committed) == ConsumedAll(Progress(old(sink.View()), old(committed)), ds)
    {
      hide Handled, Updated;
      for i := 0 to |ds|
        invariant Progress(sink.View(), committed) == ConsumedAll(Progress(old(sink.View()), old(committed)), ds[..i])
      {
        assert ds[..i + 1][..i] == ds[..i];
        var d := ds[i];
        match d.message {
          case EventMessage(Some(event)) =>
            var r := sink.OnEvent(event, d.outcome.sink);
            if r.Ok? && d.outcome.commit {
              committed := committed[d.partition := d.offset + 1];
            }
          case RelationMessage(Some(rel)) =>
            sink.OnRelation(rel);
          case _ =>
        }
      }
      assert ds[..|ds|] == ds;
    }
  }

  // ----- What is committed -----

  /** The i-th delivery is an event of the partition that the sink handles and whose commit gets through. */
  predicate CommitsAt(p: Progress, ds: seq<Delivery>, partition: nat, i: nat)
    requires SameDomain(p.sink.cache) && i < |ds|
  {
    && ds[i].partition == partition && ds[i].message.EventMessage? && ds[i].message.event.Some? && ds[i].outcome.commit
    && Handled(ConsumedAll(p, ds[..i]).sink, ds[i].message.event.value, ds[i].outcome.sink).0.Ok?
  }

  predicate NoneCommitsFrom(p: Progress, ds: seq<Delivery>, partition: nat, start: nat)
    requires SameDomain(p.sink.cache)
  {
    forall j: nat | start <= j < |ds| :: !CommitsAt(p, ds, partition, j)
  }

  /** The offset committed for a partition follows the last of its events that was handled and committed. */
  lemma {:induction false} CommittedFollowsTheLastHandled(p: Progress, ds: seq<Delivery>, partition: nat, i: nat)
    requires SameDomain(p.sink.cache) && i < |ds|
    requires CommitsAt(p, ds, partition, i) && NoneCommitsFrom(p, ds, partition, i + 1)
    ensures ResumesAt(ConsumedAll(p, ds).committed, partition) == ds[i].offset + 1
  {
    hide CommitsAt, NoneCommitsFrom, ConsumedAll, ResumesAt;
    var last := |ds| - 1;
    CommittedByLast(p, ds, partition);
    if i < last {
      CommitsBefore(p, ds, partition);
      NoneAfterIsNotLast(p, ds, partition, i);
      CommittedFollowsTheLastHandled(p, ds[..last], partition, i);
    }
  }

  /** It stays when there is none: no failed event, undecodable payload, relation or stream error moves it, nor does
      any event of another partition. */
  lemma {:induction false} CommittedStaysWithoutHandled(p: Progress, ds: seq<Delivery>, partition: nat)
    requires SameDomain(p.sink.cache) && NoneCommitsFrom(p, ds, partition, 0)
    ensures ResumesAt(ConsumedAll(p, ds).committed, partition) == ResumesAt(p.committed, partition)
  {
    if ds != [] {
      hide CommitsAt, Consumed;
      CommittedByLast(p, ds, partition);
      CommitsBefore(p, ds, partition);
      CommittedStaysWithoutHandled(p, ds[..|ds| - 1], partition);
    }
  }

  lemma CommittedByOne(p: Progress, d: Delivery, partition: nat)
    requires SameDomain(p.sink.cache)
    ensures var commits := && d.partition == partition && d.message.EventMessage? && d.message.event.Some?
                           && d.outcome.commit && Handled(p.sink, d.message.event.value, d.outcome.sink).0.Ok?;
            ResumesAt(Consumed(p, d).committed, partition) ==
            if commits then d.offset + 1 else ResumesAt(p.committed, partition)
  {
    hide Handled, Updated;
  }

  lemma CommittedByLast(p: Progress, ds: seq<Delivery>, partition: nat)
    requires SameDomain(p.sink.cache) && ds != []
    ensures var last := |ds| - 1;
            ResumesAt(ConsumedAll(p, ds).committed, partition) ==
            if CommitsAt(p, ds, partition, last) then ds[last].offset + 1
            else ResumesAt(ConsumedAll(p, ds[..last]).committed, partition)
  {
    hide Handled, Consumed, ResumesAt;
    CommittedByOne(ConsumedAll(p, ds[..|ds| - 1]), ds[|ds| - 1], partition);
  }

  lemma NoneAfterIsNotLast(p: Progress, ds: seq<Delivery>, partition: nat, i: nat)
    requires SameDomain(p.sink.cache) && i < |ds| - 1 && NoneCommitsFrom(p, ds, partition, i + 1)
    ensures !CommitsAt(p, ds, partition, |ds| - 1)
  {
    hide CommitsAt;
  }

  lemma CommitsBefore(p: Progress, ds: seq<Delivery>, partition: nat)
    requires SameDomain(p.sink.cache) && ds != []
    ensures var last := |ds| - 1;
            && (forall j: nat | j < last :: CommitsAt(p, ds, partition, j) == CommitsAt(p, ds[..last], partition, j))
            && (forall i: nat | i <= last :: NoneCommitsFrom(p, ds, partition, i) <==>
                  NoneCommitsFrom(p, ds[..last], partition, i) && !CommitsAt(p, ds, partition, last))
  {
    hide Handled, Updated, ConsumedAll;
    var last := |ds| - 1;
    forall j: nat | j < last ensures CommitsAt(p, ds, partition, j) == CommitsAt(p, ds[..last], partition, j) {
      assert ds[..j] == ds[..last][..j];
    }
  }

  // ----- Announcements -----

  /** The relations announced, in order. */
  function AnnouncedIn(ds: seq<Delivery>): (log: seq<Relation>)
  {
    if ds == [] then []
    else
      var m := ds[|ds| - 1].message;
      AnnouncedIn(ds[..|ds| - 1]) + if m.RelationMessage? && m.rel.Some? then [m.rel.value] else []
  }

  lemma CacheAfterOne(p: Progress, d: Delivery)
    requires SameDomain(p.sink.cache)
    ensures Consumed(p, d).sink.cache ==
            if d.message.RelationMessage? && d.message.rel.Some? then Updated(p.sink.cache, d.message.rel.value)
            else p.sink.cache
  {
    hide Handled, Updated;
  }

  /** Whatever was loaded at start-up and whatever arrives, the sink's cache is the one computed afresh from the
      compacted log of what was loaded and what was announced since; nothing else touches it. */
  lemma {:induction false} CacheFollowsAnnouncements(p: Progress, ds: seq<Delivery>, loaded: seq<Relation>)
    requires p.sink.cache == CacheOf(Compacted(loaded))
    ensures ConsumedAll(p, ds).sink.cache == CacheOf(Compacted(loaded + AnnouncedIn(ds)))
  {
    hide Consumed, CacheOf, Compacted, Updated;
    if ds == [] {
      assert loaded + AnnouncedIn(ds) == loaded;
    } else {
      var last := |ds| - 1;
      var log := loaded + AnnouncedIn(ds[..last]);
      CacheFollowsAnnouncements(p, ds[..last], loaded);
      CacheAfterOne(ConsumedAll(p, ds[..last]), ds[last]);
      var m := ds[last].message;
      if m.RelationMessage? && m.rel.Some? {
        CompactedMore(log, m.rel.value);
        UpdateIsRecompute(Compacted(log), m.rel.value);
        assert loaded + AnnouncedIn(ds) == log + [m.rel.value];
      } else {
        assert loaded + AnnouncedIn(ds) == log;
      }
    }
  }

  lemma CompactedMore(log: seq<Relation>, rel: Relation)
    ensures Compacted(log + [rel]) == Compacted(log)[rel.oid := rel]
  {
    assert (log + [rel])[..|log|] == log;
  }
}
