/** Relations that become known while the consumer runs: an event is written once its relation is announced, and no
    sooner. */
module Announcements {
  import opened Wrappers
  import opened Wire
  import opened ChangeEvents
  import opened Toast
  import opened SqlGrammar
  import opened RelationCaches
  import opened Database
  import opened PostgresSinks
  import opened Mirror
  import opened Histories
  import opened Consumer
  import opened Replays

  /** What is known is right. */
  predicate KnownOf(rels: Relations, known: Relations)
  {
    forall oid | oid in known :: oid in rels && known[oid] == rels[oid]
  }

  /** The sink as if it knew every relation. */
  function Informed(rels: Relations, s: SinkView): SinkView
  {
    s.(cache := CacheOf(rels))
  }

  lemma InformedIsCoherent(rels: Relations, known: Relations, s: SinkView)
    requires KnownOf(rels, known) && Coherent(known, s)
    ensures Coherent(rels, Informed(rels, s))
  {
    hide CacheOf, UpsertFor, DeleteFor, UpsertFits;
  }

  /** Two caches say the same about a relation. */
  predicate SameAt(a: CacheView, b: CacheView, oid: UInt32)
    requires SameDomain(a) && SameDomain(b)
  {
    && oid in a.tableNames && oid in b.tableNames
    && ShapeIn(a, oid) == ShapeIn(b, oid) && a.identities[oid] == b.identities[oid]
  }

  lemma SaysTheSame(rels: Relations, known: Relations, oid: UInt32)
    requires KnownOf(rels, known) && oid in known
    ensures SameAt(CacheOf(known), CacheOf(rels), oid)
  {
    hide ShapeOf, ShapeIn, KeyIdentity;
    ShapeInCache(rels, oid);
    ShapeInCache(known, oid);
  }

  lemma GotAlike(cached: Statements, a: CacheView, b: CacheView, oid: UInt32, prepare: Shape -> Option<Statement>,
                 ok: bool)
    requires SameDomain(a) && SameDomain(b) && SameAt(a, b, oid)
    ensures Got(cached, a, oid, prepare, ok) == Got(cached, b, oid, prepare, ok)
  {
    hide ShapeIn;
  }

  lemma WriteAlike(s: SinkView, cache: CacheView, oid: UInt32, row: seq<PgValue>, o: SinkOutcomes)
    requires SameDomain(s.cache) && SameDomain(cache) && SameAt(s.cache, cache, oid)
    ensures var (r, s2) := WriteRow(s, oid, row, o);
            WriteRow(s.(cache := cache), oid, row, o) == (r, s2.(cache := cache))
  {
    GotAlike(s.upserts, s.cache, cache, oid, FreshUpsert, o.prepare);
    hide FreshUpsert, Got, Execute, SameAt, SameDomain;
  }

  lemma RemoveAlike(s: SinkView, cache: CacheView, oid: UInt32, before: seq<PgValue>, o: SinkOutcomes)
    requires SameDomain(s.cache) && SameDomain(cache) && SameAt(s.cache, cache, oid)
    ensures var (r, s2) := RemoveRow(s, oid, before, o);
            RemoveRow(s.(cache := cache), oid, before, o) == (r, s2.(cache := cache))
  {
    GotAlike(s.deletes, s.cache, cache, oid, FreshDelete, o.prepare);
    assert oid in s.cache.identities && oid in cache.identities && s.cache.identities[oid] == cache.identities[oid];
    hide FreshDelete, Got, Execute, SameAt, SameDomain, DeleteArgs;
  }

  /** Handling an event looks at nothing but its own relation. */
  lemma HandledAlike(s: SinkView, cache: CacheView, e: ChangeEvent, o: SinkOutcomes)
    requires SameDomain(s.cache) && SameDomain(cache) && SameAt(s.cache, cache, e.rel)
    ensures var (r, s2) := Handled(s, e, o); Handled(s.(cache := cache), e, o) == (r, s2.(cache := cache))
  {
    hide WriteRow, RemoveRow, SameAt, SameDomain;
    if MergeOp(e.op).Some? {
      hide Handled, MergeOp, WriteOf;
      HandledIsItsWrite(s, e, o);
      HandledIsItsWrite(s.(cache := cache), e, o);
      match WriteOf(e.op) {
        case Put(row) => WriteAlike(s, cache, e.rel, row, o);
        case Remove(key) => RemoveAlike(s, cache, e.rel, key, o);
      }
    }
  }

  /** An event of a relation that was not announced is an error, although its table may exist, and leaves everything
      as it was. */
  lemma UnknownIsRefused(known: Relations, s: SinkView, e: ChangeEvent, o: SinkOutcomes)
    requires Coherent(known, s) && e.rel !in known
    ensures SameDomain(s.cache)
    ensures Handled(s, e, o) ==
            (Err(if MergeOp(e.op).Some? then SinkError.UnknownRelation(e.rel) else ToastedInKeyOnly), s)
  {
    hide CacheOf, FreshUpsert, FreshDelete, Execute, DeleteArgs, MergeOp, UpsertFor, DeleteFor, UpsertFits;
  }

  // ----- One event -----

  predicate Knowing(rels: Relations, known: Relations, s: SinkView, m: State)
  {
    KnownOf(rels, known) && Coherent(known, s) && Holds(rels, s.db, m)
  }

  /** What an event leaves in the tables: those of unknown relations, and those that are refused, leave nothing. */
  function WrittenKnowing(rels: Relations, known: Relations, m: State, e: ChangeEvent): (next: State)
    requires rels.Keys == m.Keys
    ensures next.Keys == m.Keys
  {
    if e.rel in known then SinkWrite(rels, m, e) else m
  }

  lemma StaysKnowing(rels: Relations, known: Relations, s: SinkView, s2: SinkView)
    requires KnownOf(rels, known) && Coherent(known, s) && s2.cache == s.cache && Coherent(rels, Informed(rels, s2))
    requires s2.upserts.Keys <= s.upserts.Keys + known.Keys && s2.deletes.Keys <= s.deletes.Keys + known.Keys
    ensures Coherent(known, s2)
  {
    hide CacheOf, UpsertFor, DeleteFor, UpsertFits;
  }

  /** Statements are kept for the event's relation only. */
  lemma KeptStatements(s: SinkView, e: ChangeEvent, o: SinkOutcomes)
    requires SameDomain(s.cache)
    ensures var s2 := Handled(s, e, o).1;
            s2.upserts.Keys <= s.upserts.Keys + {e.rel} && s2.deletes.Keys <= s.deletes.Keys + {e.rel}
  {
    hide FreshUpsert, FreshDelete, Execute, DeleteArgs, MergeOp, ShapeIn;
  }

  lemma KnowsDomains(rels: Relations, known: Relations, s: SinkView, m: State)
    requires Knowing(rels, known, s, m)
    ensures rels.Keys == m.Keys && s.cache == CacheOf(known) && SameDomain(s.cache) && SameDomain(CacheOf(rels))
    ensures Holds(rels, Informed(rels, s).db, m)
  {
  }

  lemma InformedHandlesAlike(rels: Relations, known: Relations, s: SinkView, e: ChangeEvent)
    requires KnownOf(rels, known) && Coherent(known, s) && e.rel in known
    ensures SameDomain(s.cache)
    ensures var (r, s2) := Handled(s, e, NO_SINK_FAILURE);
            Handled(Informed(rels, s), e, NO_SINK_FAILURE) == (r, Informed(rels, s2))
  {
    SaysTheSame(rels, known, e.rel);
    assert s.cache == CacheOf(known) && SameDomain(s.cache) && SameDomain(CacheOf(rels));
    hide Coherent, Handled, CacheOf, KnownOf, SameAt, SameDomain;
    HandledAlike(s, CacheOf(rels), e, NO_SINK_FAILURE);
  }

  lemma KnownStaysKnowing(rels: Relations, known: Relations, s: SinkView, e: ChangeEvent)
    requires KnownOf(rels, known) && Coherent(known, s) && e.rel in known
    ensures SameDomain(s.cache)
    ensures var s2 := Handled(s, e, NO_SINK_FAILURE).1; Coherent(rels, Informed(rels, s2)) ==> Coherent(known, s2)
  {
    assert SameDomain(s.cache);
    hide Coherent, Handled, CacheOf, KnownOf, SameDomain;
    var s2 := Handled(s, e, NO_SINK_FAILURE).1;
    KeptStatements(s, e, NO_SINK_FAILURE);
    assert {e.rel} <= known.Keys;
    if Coherent(rels, Informed(rels, s2)) {
      StaysKnowing(rels, known, s, s2);
    }
  }

  /** An event of an announced relation is handled as if every relation had been announced. */
  lemma KnownEvent(rels: Relations, known: Relations, s: SinkView, m: State, e: ChangeEvent)
    requires SuitableAll(rels) && Knowing(rels, known, s, m) && e.rel in known && Tolerable(rels, e)
    ensures rels.Keys == m.Keys && SameDomain(s.cache)
    ensures var (r, s2) := Handled(s, e, NO_SINK_FAILURE);
            (r.Ok? <==> Takes(rels, e)) && Knowing(rels, known, s2, SinkWrite(rels, m, e))
  {
    KnowsDomains(rels, known, s, m);
    hide SuitableAll, Coherent, Holds, Handled, CacheOf, SinkWrite, Takes, Tolerable, KnownOf, SameDomain;
    InformedIsCoherent(rels, known, s);
    InformedHandlesAlike(rels, known, s, e);
    OneEvent(rels, Informed(rels, s), m, e);
    KnownStaysKnowing(rels, known, s, e);
  }

  /** Known or not, with no failure outside: an event is written exactly when its relation was announced and the sink
      takes it, and an error is reported exactly when it is not. */
  lemma EventKnowing(rels: Relations, known: Relations, s: SinkView, m: State, e: ChangeEvent)
    requires SuitableAll(rels) && Knowing(rels, known, s, m) && (e.rel in rels ==> Tolerable(rels, e))
    ensures rels.Keys == m.Keys && SameDomain(s.cache)
    ensures var (r, s2) := Handled(s, e, NO_SINK_FAILURE);
            && (r.Ok? <==> e.rel in known && Takes(rels, e))
            && Knowing(rels, known, s2, WrittenKnowing(rels, known, m, e))
  {
    KnowsDomains(rels, known, s, m);
    hide SuitableAll, Coherent, Holds, Handled, CacheOf, SinkWrite, Takes, Tolerable, SameDomain;
    if e.rel in known {
      KnownEvent(rels, known, s, m, e);
    } else {
      UnknownIsRefused(known, s, e, NO_SINK_FAILURE);
    }
  }

  // ----- Runs -----

  /** Nothing fails outside, what is announced is right, and the sink can handle or refuses what arrives. */
  predicate Undisturbed(rels: Relations, d: Delivery)
  {
    d.outcome.sink == NO_SINK_FAILURE &&
    match d.message
    case RelationMessage(Some(rel)) => rel.oid in rels && rels[rel.oid] == rel
    case EventMessage(Some(e)) => e.rel in rels ==> Tolerable(rels, e)
    case _ => true
  }

  /** The relations known after the deliveries: those loaded at start-up and those announced since. */
  function KnownNow(loaded: seq<Relation>, ds: seq<Delivery>): Relations
  {
    Compacted(loaded + AnnouncedIn(ds))
  }

  function KnownNext(known: Relations, d: Delivery): Relations
  {
    match d.message
    case RelationMessage(Some(rel)) => known[rel.oid := rel]
    case _ => known
  }

  lemma KnownMoreNow(loaded: seq<Relation>, ds: seq<Delivery>)
    requires ds != []
    ensures KnownNow(loaded, ds) == KnownNext(KnownNow(loaded, ds[..|ds| - 1]), ds[|ds| - 1])
  {
    hide Compacted;
    var log, m := loaded + AnnouncedIn(ds[..|ds| - 1]), ds[|ds| - 1].message;
    if m.RelationMessage? && m.rel.Some? {
      CompactedMore(log, m.rel.value);
      assert loaded + AnnouncedIn(ds) == log + [m.rel.value];
    } else {
      assert loaded + AnnouncedIn(ds) == log;
    }
  }

  function RowsNow(rels: Relations, known: Relations, m: State, d: Delivery): (next: State)
    requires rels.Keys == m.Keys
    ensures next.Keys == m.Keys
  {
    match d.message
    case EventMessage(Some(e)) => WrittenKnowing(rels, known, m, e)
    case _ => m
  }

  function RowsAfter(rels: Relations, loaded: seq<Relation>, m: State, ds: seq<Delivery>): (rows: State)
    requires rels.Keys == m.Keys
    ensures rows.Keys == m.Keys
  {
    if ds == [] then m
    else
      var front := ds[..|ds| - 1];
      RowsNow(rels, KnownNow(loaded, front), RowsAfter(rels, loaded, m, front), ds[|ds| - 1])
  }

  lemma CoherentKnowing(rels: Relations, known: Relations, s: SinkView, rel: Relation)
    requires KnownOf(rels, known) && Coherent(known, s) && rel.oid in rels && rels[rel.oid] == rel
    ensures var more := known[rel.oid := rel];
            KnownOf(rels, more) && Coherent(more, s.(cache := Updated(s.cache, rel)))
  {
    UpdateIsRecompute(known, rel);
    hide CacheOf, UpsertFor, DeleteFor, UpsertFits, Updated;
  }

  lemma AnnouncementKnowing(rels: Relations, known: Relations, s: SinkView, m: State, rel: Relation)
    requires Knowing(rels, known, s, m) && rel.oid in rels && rels[rel.oid] == rel
    ensures Knowing(rels, known[rel.oid := rel], s.(cache := Updated(s.cache, rel)), m)
  {
    hide Coherent, KnownOf, Holds, Updated;
    CoherentKnowing(rels, known, s, rel);
  }

  lemma SinkAfter(p: Progress, d: Delivery)
    requires SameDomain(p.sink.cache)
    ensures Consumed(p, d).sink ==
            match d.message
            case RelationMessage(Some(rel)) => p.sink.(cache := Updated(p.sink.cache, rel))
            case EventMessage(Some(e)) => Handled(p.sink, e, d.outcome.sink).1
            case _ => p.sink
  {
    hide Handled, Updated;
  }

  lemma EventDelivered(rels: Relations, known: Relations, s: SinkView, m: State, d: Delivery)
    requires SuitableAll(rels) && Knowing(rels, known, s, m) && Undisturbed(rels, d)
    requires d.message.EventMessage? && d.message.event.Some?
    ensures rels.Keys == m.Keys && SameDomain(s.cache)
    ensures Knowing(rels, known, Handled(s, d.message.event.value, d.outcome.sink).1, RowsNow(rels, known, m, d))
  {
    hide *;
    KnowsDomains(rels, known, s, m);
    UndisturbedEvent(rels, known, m, d);
    EventKnowing(rels, known, s, m, d.message.event.value);
  }

  lemma UndisturbedEvent(rels: Relations, known: Relations, m: State, d: Delivery)
    requires Undisturbed(rels, d) && d.message.EventMessage? && d.message.event.Some? && rels.Keys == m.Keys
    ensures var e := d.message.event.value;
            && d.outcome.sink == NO_SINK_FAILURE && (e.rel in rels ==> Tolerable(rels, e))
            && RowsNow(rels, known, m, d) == WrittenKnowing(rels, known, m, e)
  {
    hide Tolerable, WrittenKnowing;
  }

  lemma DeliveryKnowing(rels: Relations, known: Relations, p: Progress, m: State, d: Delivery)
    requires SuitableAll(rels) && Knowing(rels, known, p.sink, m) && Undisturbed(rels, d)
    ensures rels.Keys == m.Keys && SameDomain(p.sink.cache)
    ensures Knowing(rels, KnownNext(known, d), Consumed(p, d).sink, RowsNow(rels, known, m, d))
  {
    KnowsDomains(rels, known, p.sink, m);
    SinkAfter(p, d);
    hide SuitableAll, Knowing, Handled, Updated, WrittenKnowing, Tolerable, SameDomain, Consumed;
    match d.message {
      case RelationMessage(Some(rel)) => AnnouncementKnowing(rels, known, p.sink, m, rel);
      case EventMessage(Some(e)) => EventDelivered(rels, known, p.sink, m, d);
      case _ =>
    }
  }

  lemma OneMoreDelivery(rels: Relations, loaded: seq<Relation>, p: Progress, m: State, ds: seq<Delivery>)
    requires rels.Keys == m.Keys && SameDomain(p.sink.cache) && ds != []
    ensures var front, d := ds[..|ds| - 1], ds[|ds| - 1];
            && ConsumedAll(p, ds) == Consumed(ConsumedAll(p, front), d)
            && RowsAfter(rels, loaded, m, ds) ==
               RowsNow(rels, KnownNow(loaded, front), RowsAfter(rels, loaded, m, front), d)
  {
    hide Consumed, RowsNow, KnownNow;
  }

  lemma NoDeliveryYet(rels: Relations, loaded: seq<Relation>, p: Progress, m: State)
    requires rels.Keys == m.Keys && SameDomain(p.sink.cache)
    ensures ConsumedAll(p, []) == p && RowsAfter(rels, loaded, m, []) == m && KnownNow(loaded, []) == Compacted(loaded)
  {
    assert loaded + AnnouncedIn([]) == loaded;
  }

  /** However events and announcements are mixed: the tables hold what the events wrote whose relation was known when
      they arrived. */
  lemma {:induction false} AnnouncedAreFollowed(rels: Relations, loaded: seq<Relation>, p: Progress, m: State,
                                                ds: seq<Delivery>)
    requires SuitableAll(rels) && Knowing(rels, Compacted(loaded), p.sink, m)
    requires forall i | 0 <= i < |ds| :: Undisturbed(rels, ds[i])
    ensures rels.Keys == m.Keys && SameDomain(p.sink.cache)
    ensures Knowing(rels, KnownNow(loaded, ds), ConsumedAll(p, ds).sink, RowsAfter(rels, loaded, m, ds))
  {
    hide *;
    KnowsDomains(rels, Compacted(loaded), p.sink, m);
    if ds == [] {
      NoDeliveryYet(rels, loaded, p, m);
    } else {
      var last := |ds| - 1;
      var front := ds[..last];
      AnnouncedAreFollowed(rels, loaded, p, m, front);
      OneMoreDelivery(rels, loaded, p, m, ds);
      KnownMoreNow(loaded, ds);
      DeliveryKnowing(rels, KnownNow(loaded, front), ConsumedAll(p, front), RowsAfter(rels, loaded, m, front),
          ds[last]);
    }
  }

  function Delivered(partition: nat, offset: nat, e: ChangeEvent): Delivery
  {
    Delivery(partition, offset, EventMessage(Some(e)), Outcome(NO_SINK_FAILURE, true))
  }

  lemma ConsumedEvent(p: Progress, partition: nat, offset: nat, e: ChangeEvent)
    requires SameDomain(p.sink.cache)
    ensures var (r, s2) := Handled(p.sink, e, NO_SINK_FAILURE);
            Consumed(p, Delivered(partition, offset, e)) ==
            Progress(s2, if r.Ok? then p.committed[partition := offset + 1] else p.committed)
  {
    hide Handled;
  }

  lemma AcceptableIsWritten(rels: Relations, known: Relations, m: State, e: ChangeEvent)
    requires AcceptableEvent(rels, e) && rels.Keys == m.Keys
    ensures Tolerable(rels, e) && Takes(rels, e)
    ensures e.rel in known ==> WrittenKnowing(rels, known, m, e) == Applied(rels, m, e)
  {
    hide AcceptableEvent, Applied;
    TakenIffAcceptable(rels, e);
  }

  lemma KnowingHolds(rels: Relations, known: Relations, s: SinkView, m: State)
    requires Knowing(rels, known, s, m)
    ensures Coherent(known, s) && Holds(rels, s.db, m)
  {
    hide Coherent, Holds;
  }

  lemma WrittenIffKnown(rels: Relations, known: Relations, p: Progress, m: State, partition: nat, offset: nat,
                        e: ChangeEvent)
    requires SuitableAll(rels) && Knowing(rels, known, p.sink, m) && AcceptableEvent(rels, e)
    ensures rels.Keys == m.Keys && SameDomain(p.sink.cache)
    ensures var now := Consumed(p, Delivered(partition, offset, e));
            if e.rel in known
            then Holds(rels, now.sink.db, Applied(rels, m, e)) && now.committed == p.committed[partition := offset + 1]
            else now == p
  {
    hide *;
    KnowsDomains(rels, known, p.sink, m);
    AcceptableIsWritten(rels, known, m, e);
    ConsumedEvent(p, partition, offset, e);
    EventKnowing(rels, known, p.sink, m, e);
    if e.rel in known {
      KnowingHolds(rels, known, Handled(p.sink, e, NO_SINK_FAILURE).1, WrittenKnowing(rels, known, m, e));
    } else {
      KnowingHolds(rels, known, p.sink, m);
      UnknownIsRefused(known, p.sink, e, NO_SINK_FAILURE);
    }
  }

  /** After any such deliveries, an event that the sink can handle is written and committed if its relation was
      announced meanwhile, or known from the start, and is an error that changes nothing if it was not. */
  lemma WrittenIffAnnounced(rels: Relations, loaded: seq<Relation>, p: Progress, m: State, ds: seq<Delivery>,
                            partition: nat, offset: nat, e: ChangeEvent)
    requires SuitableAll(rels) && Knowing(rels, Compacted(loaded), p.sink, m) && AcceptableEvent(rels, e)
    requires forall i | 0 <= i < |ds| :: Undisturbed(rels, ds[i])
    ensures rels.Keys == m.Keys && SameDomain(p.sink.cache)
    ensures var was, rows := ConsumedAll(p, ds), RowsAfter(rels, loaded, m, ds);
            var now := Consumed(was, Delivered(partition, offset, e));
            if e.rel in KnownNow(loaded, ds)
            then Holds(rels, now.sink.db, Applied(rels, rows, e)) &&
                now.committed == was.committed[partition := offset + 1]
            else now == was
  {
    hide *;
    KnowsDomains(rels, Compacted(loaded), p.sink, m);
    AnnouncedAreFollowed(rels, loaded, p, m, ds);
    WrittenIffKnown(rels, KnownNow(loaded, ds), ConsumedAll(p, ds), RowsAfter(rels, loaded, m, ds), partition, offset,
        e);
  }
}
