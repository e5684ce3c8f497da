/** What the PostgreSQL sink remembers about relations, and the statements it prepares from it. */
module RelationCaches {
  import opened Wrappers
  import opened Wire
  import opened ChangeEvents
  import opened Sql
  import opened SqlGrammar

  // ----- One relation -----

  /** A string as its octets, one character each. */
  function Chars(octets: Bytes): (s: string)
    ensures |s| == |octets| && forall i | 0 <= i < |s| :: s[i] == octets[i] as int as char
  {
    seq(|octets|, i requires 0 <= i < |octets| => octets[i] as int as char)
  }

  datatype Identity = Full | KeyColumns(positions: set<nat>)

  function KeyPositions(fields: seq<Field>): set<nat>
  {
    set i: nat | i < |fields| && fields[i].isKey
  }

  function KeyIdentity(rel: Relation): Identity
  {
    if rel.replicaId == Keys then KeyColumns(KeyPositions(rel.fields)) else Full
  }

  function FieldNames(fields: seq<Field>): (names: seq<string>)
    ensures |names| == |fields| && forall i | 0 <= i < |fields| :: names[i] == Chars(fields[i].name)
  {
    seq(|fields|, i requires 0 <= i < |fields| => Chars(fields[i].name))
  }

  function KeyNames(fields: seq<Field>): (names: seq<string>)
  {
    if fields == [] then []
    else
      var last := |fields| - 1;
      KeyNames(fields[..last]) + if fields[last].isKey then [Chars(fields[last].name)] else []
  }

  /** The key names are the names at the key positions. */
  lemma {:induction false} KeyNamesAreTheProjection(fields: seq<Field>)
    ensures |KeyNames(fields)| == |KeyIndexes(fields)|
    ensures forall j | 0 <= j < |KeyNames(fields)| :: KeyNames(fields)[j] == Chars(fields[KeyIndexes(fields)[j]].name)
  {
    if fields != [] {
      KeyNamesAreTheProjection(fields[..|fields| - 1]);
    }
  }

  // ----- The cache -----

  type Relations = map<UInt32, Relation>

  datatype CacheView = CacheView(identities: map<UInt32, Identity>, tableNames: map<UInt32, string>,
                                 fields: map<UInt32, seq<string>>, keys: map<UInt32, seq<string>>)

  function Mapped<V>(rels: Relations, f: Relation -> V): map<UInt32, V>
  {
    map oid | oid in rels :: f(rels[oid])
  }

  /** Recomputation from the relations themselves. */
  function CacheOf(rels: Relations): (c: CacheView)
    ensures SameDomain(c) && c.tableNames.Keys == rels.Keys
  {
    CacheView(Mapped(rels, KeyIdentity),
              Mapped(rels, (r: Relation) => Chars(r.name)),
              Mapped(rels, (r: Relation) => FieldNames(r.fields)),
              Mapped(rels, (r: Relation) => KeyNames(r.fields)))
  }

  function Updated(c: CacheView, rel: Relation): (updated: CacheView)
    ensures SameDomain(c) ==> SameDomain(updated)
  {
    CacheView(c.identities[rel.oid := KeyIdentity(rel)], c.tableNames[rel.oid := Chars(rel.name)],
              c.fields[rel.oid := FieldNames(rel.fields)], c.keys[rel.oid := KeyNames(rel.fields)])
  }

  predicate SameDomain(c: CacheView)
  {
    c.identities.Keys == c.tableNames.Keys == c.fields.Keys == c.keys.Keys
  }

  class RelationCache {
    var identities: map<UInt32, Identity>
    var tableNames: map<UInt32, string>
    var fields: map<UInt32, seq<string>>
    var keys: map<UInt32, seq<string>>

    function View(): CacheView
      reads this
    {
      CacheView(identities, tableNames, fields, keys)
    }

    constructor ()
      ensures View() == CacheOf(map[])
    {
      identities, tableNames, fields, keys := map[], map[], map[], map[];
    }

    constructor FromRels(rels: Relations)
      ensures View() == CacheOf(rels)
    {
      identities := Mapped(rels, KeyIdentity);
      tableNames := Mapped(rels, (r: Relation) => Chars(r.name));
      fields := Mapped(rels, (r: Relation) => FieldNames(r.fields));
      keys := Mapped(rels, (r: Relation) => KeyNames(r.fields));
    }

    method Update(rel: Relation)
      modifies this
      ensures View() == Updated(old(View()), rel)
    {
      identities := identities[rel.oid := KeyIdentity(rel)];
      fields := fields[rel.oid := FieldNames(rel.fields)];
      keys := keys[rel.oid := KeyNames(rel.fields)];
      tableNames := tableNames[rel.oid := Chars(rel.name)];
    }
  }

  // ----- Incremental and recomputed caches agree -----

  function UpdatedAll(c: CacheView, log: seq<Relation>): CacheView
  {
    if log == [] then c else Updated(UpdatedAll(c, log[..|log| - 1]), log[|log| - 1])
  }

  /** The log compacted to one relation per OID, as the sinks load it. */
  function Compacted(log: seq<Relation>): Relations
  {
    if log == [] then map[]
    else
      var last := |log| - 1;
      Compacted(log[..last])[log[last].oid := log[last]]
  }

  /** No later announcement has the same OID. */
  predicate IsLatest(log: seq<Relation>, i: nat)
    requires i < |log|
  {
    forall j | i < j < |log| :: log[j].oid != log[i].oid
  }

  /** The compacted log knows exactly the OIDs that occur. */
  lemma {:induction false} CompactedKnows(log: seq<Relation>, oid: UInt32)
    ensures oid in Compacted(log) <==> exists i | 0 <= i < |log| :: log[i].oid == oid
  {
    if log != [] {
      var last := |log| - 1;
      var front := log[..last];
      CompactedKnows(front, oid);
      assert forall i | 0 <= i < last :: front[i] == log[i];
    }
  }

  /** Under each of them it holds the latest announcement. */
  lemma {:induction false} CompactedHoldsTheLatest(log: seq<Relation>, i: nat)
    requires i < |log| && IsLatest(log, i)
    ensures log[i].oid in Compacted(log) && Compacted(log)[log[i].oid] == log[i]
  {
    var last := |log| - 1;
    if i < last {
      assert log[last].oid != log[i].oid;
      assert IsLatest(log[..last], i);
      CompactedHoldsTheLatest(log[..last], i);
    }
  }

  /** The messages of the relation topic in order; one that cannot be decoded is skipped. */
  function DecodedRelations(messages: seq<Option<Relation>>): (log: seq<Relation>)
  {
    if messages == [] then []
    else
      var last := |messages| - 1;
      DecodedRelations(messages[..last]) + if messages[last].Some? then [messages[last].value] else []
  }

  /** The i-th message is decodable, and no later decodable one is about the same OID. */
  predicate IsLatestDecoded(messages: seq<Option<Relation>>, i: nat)
  {
    && i < |messages| && messages[i].Some?
    && forall j | i < j < |messages| && messages[j].Some? :: messages[j].value.oid != messages[i].value.oid
  }

  /** What loading keeps: under each OID its latest decodable announcement, and nothing else. */
  lemma {:induction false} LoadedHoldsTheLatest(messages: seq<Option<Relation>>)
    ensures var loaded := Compacted(DecodedRelations(messages));
            && (forall i: nat | IsLatestDecoded(messages, i) ::
                  messages[i].value.oid in loaded && loaded[messages[i].value.oid] == messages[i].value)
            && forall oid | oid in loaded ::
                 exists i: nat | IsLatestDecoded(messages, i) :: messages[i].value.oid == oid
  {
    hide Compacted, DecodedRelations;
    if messages == [] {
      NothingLoaded();
    } else {
      var last := |messages| - 1;
      var front := messages[..last];
      LoadedHoldsTheLatest(front);
      LoadStep(messages, last);
      assert messages[..last + 1] == messages;
      LatestBefore(messages);
      var loaded := Compacted(DecodedRelations(messages));
      forall oid | oid in loaded
        ensures exists i: nat | IsLatestDecoded(messages, i) :: messages[i].value.oid == oid
      {
        if messages[last].Some? && oid == messages[last].value.oid {
          assert IsLatestDecoded(messages, last);
        } else {
          var i: nat :| IsLatestDecoded(front, i) && front[i].value.oid == oid;
          assert IsLatestDecoded(messages, i);
        }
      }
    }
  }

  lemma LatestBefore(messages: seq<Option<Relation>>)
    requires messages != []
    ensures var last := |messages| - 1;
            && (IsLatestDecoded(messages, last) <==> messages[last].Some?)
            && forall i: nat | i < last ::
                 IsLatestDecoded(messages, i) <==>
                 && IsLatestDecoded(messages[..last], i)
                 && (messages[last].Some? ==> messages[last].value.oid != messages[i].value.oid)
  {
    var last := |messages| - 1;
    forall i: nat | i < last
      ensures IsLatestDecoded(messages, i) <==>
              && IsLatestDecoded(messages[..last], i)
              && (messages[last].Some? ==> messages[last].value.oid != messages[i].value.oid)
    {
      assert forall j | 0 <= j < last :: messages[..last][j] == messages[j];
    }
  }

  lemma NothingLoaded()
    ensures Compacted(DecodedRelations([])) == map[]
  {
  }

  lemma LoadStep(messages: seq<Option<Relation>>, i: nat)
    requires i < |messages|
    ensures var was, now := Compacted(DecodedRelations(messages[..i])), Compacted(DecodedRelations(messages[..i + 1]));
            now == if messages[i].Some? then was[messages[i].value.oid := messages[i].value] else was
  {
    assert messages[..i + 1][..i] == messages[..i];
    var log := DecodedRelations(messages[..i]);
    if messages[i].Some? {
      assert (log + [messages[i].value])[..|log|] == log;
    } else {
      assert log + [] == log;
    }
  }

  /** One wait for the topic: a message, an error of Kafka, or nothing in time. */
  datatype Poll = Arrived(rel: Option<Relation>) | KafkaFailure | Quiet

  /** The messages before the first wait that brings none. */
  function Received(polls: seq<Poll>): (messages: seq<Option<Relation>>)
    ensures |messages| <= |polls|
    ensures forall i | 0 <= i < |messages| :: polls[i] == Arrived(messages[i])
    ensures |messages| < |polls| ==> !polls[|messages|].Arrived?
  {
    if polls == [] || !polls[0].Arrived? then [] else [polls[0].rel] + Received(polls[1..])
  }

  lemma {:induction false} ReceivedUpTo(polls: seq<Poll>, i: nat)
    requires i <= |polls| && forall j | 0 <= j < i :: polls[j].Arrived?
    ensures i <= |Received(polls)|
  {
    if i > 0 {
      ReceivedUpTo(polls[1..], i - 1);
    }
  }

  /** The sequence ends when the time for loading is up. Loading stops at the first quiet wait, and fails on an
      error. */
  method LoadRelations(polls: seq<Poll>) returns (r: Result<Relations, ()>)
    ensures var n := |Received(polls)|;
            r == if n < |polls| && polls[n].KafkaFailure? then Err(())
                 else Ok(Compacted(DecodedRelations(Received(polls))))
  {
    hide Compacted, DecodedRelations;
    var relations: Relations := map[];
    ghost var messages := Received(polls);
    NothingLoaded();
    for i := 0 to |polls|
      invariant i <= |messages|
      invariant relations == Compacted(DecodedRelations(messages[..i]))
    {
      match polls[i] {
        case Arrived(rel) =>
          assert forall j | 0 <= j <= i :: polls[j].Arrived?;
          ReceivedUpTo(polls, i + 1);
          LoadStep(messages, i);
          if rel.Some? {
            relations := relations[rel.value.oid := rel.value];
          }
        case KafkaFailure =>
          return Err(());
        case Quiet =>
          assert messages[..i] == messages;
          return Ok(relations);
      }
    }
    assert messages[..|polls|] == messages;
    return Ok(relations);
  }

  lemma MappedMore<V>(rels: Relations, rel: Relation, f: Relation -> V)
    ensures Mapped(rels, f)[rel.oid := f(rel)] == Mapped(rels[rel.oid := rel], f)
  {
  }

  lemma UpdateIsRecompute(rels: Relations, rel: Relation)
    ensures Updated(CacheOf(rels), rel) == CacheOf(rels[rel.oid := rel])
  {
    hide Mapped, KeyIdentity, Chars, FieldNames, KeyNames;
    MappedMore(rels, rel, KeyIdentity);
    MappedMore(rels, rel, (r: Relation) => Chars(r.name));
    MappedMore(rels, rel, (r: Relation) => FieldNames(r.fields));
    MappedMore(rels, rel, (r: Relation) => KeyNames(r.fields));
  }

  /** Caches agree with recomputation: whatever was loaded at start-up and announced since, the cache is the one
      computed afresh from the compacted log of everything, and its four maps share one domain. */
  lemma {:induction false} UpdatesAreRecompute(loaded: seq<Relation>, announced: seq<Relation>)
    ensures UpdatedAll(CacheOf(Compacted(loaded)), announced) == CacheOf(Compacted(loaded + announced))
    ensures SameDomain(UpdatedAll(CacheOf(Compacted(loaded)), announced))
  {
    hide CacheOf, Updated;
    if announced == [] {
      assert loaded + announced == loaded;
    } else {
      var last := |announced| - 1;
      UpdatesAreRecompute(loaded, announced[..last]);
      assert (loaded + announced)[..|loaded + announced| - 1] == loaded + announced[..last];
      UpdateIsRecompute(Compacted(loaded + announced[..last]), announced[last]);
    }
  }

  // ----- Statement caches -----

  datatype SinkError = UnknownRelation(oid: UInt32) | Platform | ToastedInKeyOnly

  /** What a statement is about. */
  datatype Shape = Shape(table: string, rows: seq<string>, keys: seq<string>)

  function ShapeIn(c: CacheView, oid: UInt32): Shape
    requires SameDomain(c) && oid in c.tableNames
  {
    Shape(c.tableNames[oid], c.fields[oid], c.keys[oid])
  }

  function ShapeOf(rel: Relation): Shape
  {
    Shape(Chars(rel.name), FieldNames(rel.fields), KeyNames(rel.fields))
  }

  /** Preparing fails on a text that is not a statement, and may fail for reasons of the server. */
  function FreshUpsert(s: Shape): Option<Statement>
  {
    ReadUpsert(UpsertText(s.table, s.rows, s.keys))
  }

  function FreshDelete(s: Shape): Option<Statement>
  {
    ReadDelete(DeleteText(s.table, s.keys))
  }

  type Statements = map<UInt32, Statement>

  /** A statement is prepared on a miss and kept. */
  function Got(cached: Statements, c: CacheView, oid: UInt32, prepare: Shape -> Option<Statement>, ok: bool)
    : (Result<Statement, SinkError>, Statements)
    requires SameDomain(c)
  {
    if oid in cached then (Ok(cached[oid]), cached)
    else if oid !in c.tableNames then (Err(SinkError.UnknownRelation(oid)), cached)
    else
      match prepare(ShapeIn(c, oid))
      case Some(statement) => if ok then (Ok(statement), cached[oid := statement]) else (Err(Platform), cached)
      case None => (Err(Platform), cached)
  }

  class UpsertStatementCache {
    var statements: Statements

    constructor ()
      ensures statements == map[]
    {
      statements := map[];
    }

    method Get(oid: UInt32, relations: RelationCache, ok: bool) returns (r: Result<Statement, SinkError>)
      requires SameDomain(relations.View())
      modifies this
      ensures (r, statements) == Got(old(statements), relations.View(), oid, FreshUpsert, ok)
    {
      hide ReadUpsert, UpsertText;
      if oid in statements {
        return Ok(statements[oid]);
      }
      if oid !in relations.tableNames {
        return Err(SinkError.UnknownRelation(oid));
      }
      var text := GenUpsert(relations.tableNames[oid], relations.fields[oid], relations.keys[oid]);
      var prepared := ReadUpsert(text);
      if prepared.None? || !ok {
        return Err(Platform);
      }
      statements := statements[oid := prepared.value];
      return Ok(prepared.value);
    }
  }

  class DeleteStatementCache {
    var statements: Statements

    constructor ()
      ensures statements == map[]
    {
      statements := map[];
    }

    method Get(oid: UInt32, relations: RelationCache, ok: bool) returns (r: Result<Statement, SinkError>)
      requires SameDomain(relations.View())
      modifies this
      ensures (r, statements) == Got(old(statements), relations.View(), oid, FreshDelete, ok)
    {
      hide ReadDelete, DeleteText;
      if oid in statements {
        return Ok(statements[oid]);
      }
      if oid !in relations.keys || oid !in relations.tableNames {
        return Err(SinkError.UnknownRelation(oid));
      }
      var text := GenDelete(relations.tableNames[oid], relations.keys[oid]);
      var prepared := ReadDelete(text);
      if prepared.None? || !ok {
        return Err(Platform);
      }
      statements := statements[oid := prepared.value];
      return Ok(prepared.value);
    }
  }

  // ----- Cached statements over whole runs -----

  datatype CacheStep = AnnounceRelation(rel: Relation) | UseUpsert(oid: UInt32, ok: bool) | UseDelete(oid: UInt32,
      ok: bool)

  /** The last two maps are history: the shape each statement was prepared for. */
  datatype Caches = Caches(relations: CacheView, upserts: Statements, deletes: Statements,
                           upsertShapes: map<UInt32, Shape>, deleteShapes: map<UInt32, Shape>)

  function Prepared(shapes: map<UInt32, Shape>, was: Statements, now: Statements, c: CacheView,
                    oid: UInt32): map<UInt32, Shape>
    requires SameDomain(c)
  {
    if oid !in was && oid in now && oid in c.tableNames then shapes[oid := ShapeIn(c, oid)] else shapes
  }

  function CacheNext(s: Caches, step: CacheStep): (t: Caches)
    requires SameDomain(s.relations)
    ensures SameDomain(t.relations)
  {
    match step
    case AnnounceRelation(rel) => s.(relations := Updated(s.relations, rel))
    case UseUpsert(oid, ok) =>
      var now := Got(s.upserts, s.relations, oid, FreshUpsert, ok).1;
      s.(upserts := now, upsertShapes := Prepared(s.upsertShapes, s.upserts, now, s.relations, oid))
    case UseDelete(oid, ok) =>
      var now := Got(s.deletes, s.relations, oid, FreshDelete, ok).1;
      s.(deletes := now, deleteShapes := Prepared(s.deleteShapes, s.deletes, now, s.relations, oid))
  }

  function CacheRun(loaded: Relations, steps: seq<CacheStep>): (s: Caches)
    ensures SameDomain(s.relations)
  {
    if steps == [] then Caches(CacheOf(loaded), map[], map[], map[], map[])
    else CacheNext(CacheRun(loaded, steps[..|steps| - 1]), steps[|steps| - 1])
  }

  predicate WellNamed(s: Shape)
  {
    IsName(s.table) && AllNames(s.rows) && AllNames(s.keys)
  }

  predicate WellNamedCache(c: CacheView)
  {
    SameDomain(c) && forall oid | oid in c.tableNames :: WellNamed(ShapeIn(c, oid))
  }

  predicate WellNamedSteps(steps: seq<CacheStep>)
  {
    forall i | 0 <= i < |steps| :: steps[i].AnnounceRelation? ==> WellNamed(ShapeOf(steps[i].rel))
  }

  predicate Remembered(cached: Statements, shapes: map<UInt32, Shape>, prepare: Shape -> Option<Statement>,
                       c: CacheView)
  {
    && cached.Keys == shapes.Keys && cached.Keys <= c.tableNames.Keys
    && forall oid | oid in cached :: WellNamed(shapes[oid]) && prepare(shapes[oid]) == Some(cached[oid])
  }

  predicate GoodCaches(s: Caches)
  {
    && WellNamedCache(s.relations)
    && Remembered(s.upserts, s.upsertShapes, FreshUpsert, s.relations)
    && Remembered(s.deletes, s.deleteShapes, FreshDelete, s.relations)
  }

  lemma GoodCachesKept(s: Caches, step: CacheStep)
    requires GoodCaches(s) && (step.AnnounceRelation? ==> WellNamed(ShapeOf(step.rel)))
    ensures GoodCaches(CacheNext(s, step))
  {
    hide FreshUpsert, FreshDelete, WellNamed, WellNamedCache, Updated, Remembered, ShapeIn, Got, Prepared;
    match step {
      case AnnounceRelation(rel) =>
        AnnouncementIsWellNamed(s.relations, rel);
        RememberedLonger(s.upserts, s.upsertShapes, FreshUpsert, s.relations, rel);
        RememberedLonger(s.deletes, s.deleteShapes, FreshDelete, s.relations, rel);
      case UseUpsert(oid, ok) => UseIsRemembered(s.upserts, s.upsertShapes, s.relations, oid, FreshUpsert, ok);
      case UseDelete(oid, ok) => UseIsRemembered(s.deletes, s.deleteShapes, s.relations, oid, FreshDelete, ok);
    }
  }

  lemma ShapeAfter(c: CacheView, rel: Relation, oid: UInt32)
    requires SameDomain(c) && (oid == rel.oid || oid in c.tableNames)
    ensures oid in Updated(c, rel).tableNames
    ensures ShapeIn(Updated(c, rel), oid) == if oid == rel.oid then ShapeOf(rel) else ShapeIn(c, oid)
  {
    hide KeyIdentity, FieldNames, KeyNames, Chars;
  }

  lemma AnnouncementIsWellNamed(c: CacheView, rel: Relation)
    requires WellNamedCache(c) && WellNamed(ShapeOf(rel))
    ensures WellNamedCache(Updated(c, rel))
  {
    hide WellNamed, ShapeIn, ShapeOf, KeyIdentity, FieldNames, KeyNames, Chars;
    forall oid | oid in Updated(c, rel).tableNames ensures WellNamed(ShapeIn(Updated(c, rel), oid)) {
      ShapeAfter(c, rel, oid);
    }
  }

  lemma RememberedLonger(cached: Statements, shapes: map<UInt32, Shape>, prepare: Shape -> Option<Statement>,
                         c: CacheView,
                         rel: Relation)
    requires Remembered(cached, shapes, prepare, c)
    ensures Remembered(cached, shapes, prepare, Updated(c, rel))
  {
    hide WellNamed, KeyIdentity, FieldNames, KeyNames, Chars;
  }

  lemma UseIsRemembered(cached: Statements, shapes: map<UInt32, Shape>, c: CacheView, oid: UInt32,
                        prepare: Shape -> Option<Statement>, ok: bool)
    requires WellNamedCache(c) && Remembered(cached, shapes, prepare, c)
    ensures var now := Got(cached, c, oid, prepare, ok).1;
            Remembered(now, Prepared(shapes, cached, now, c, oid), prepare, c)
  {
    hide WellNamed, ShapeIn;
  }

  lemma {:induction false} CacheRunIsGood(loaded: Relations, steps: seq<CacheStep>)
    requires WellNamedCache(CacheOf(loaded)) && WellNamedSteps(steps)
    ensures GoodCaches(CacheRun(loaded, steps))
  {
    hide GoodCaches, CacheNext, WellNamed, CacheOf;
    if steps == [] {
      EmptyCachesAreGood(loaded);
    } else {
      CacheRunIsGood(loaded, steps[..|steps| - 1]);
      GoodCachesKept(CacheRun(loaded, steps[..|steps| - 1]), steps[|steps| - 1]);
    }
  }

  lemma EmptyCachesAreGood(loaded: Relations)
    requires WellNamedCache(CacheOf(loaded))
    ensures GoodCaches(CacheRun(loaded, []))
  {
  }

  /** An upsert tells well-named shapes apart; a delete does so for what it uses of them. */
  lemma FreshTellsApart(a: Shape, b: Shape)
    requires WellNamed(a) && WellNamed(b)
    ensures FreshUpsert(a).Some? ==> (FreshUpsert(a) == FreshUpsert(b) <==> a == b)
    ensures FreshDelete(a).Some? ==> (FreshDelete(a) == FreshDelete(b) <==> a.table == b.table && a.keys == b.keys)
  {
    hide ReadUpsert, ReadDelete, UpsertText, DeleteText, IsName, AllNames, EndsWell, Action;
    UpsertReadsBack(a.table, a.rows, a.keys);
    UpsertReadsBack(b.table, b.rows, b.keys);
    DeleteReadsBack(a.table, a.keys);
    DeleteReadsBack(b.table, b.keys);
    if Numbered(a.keys) == Numbered(b.keys) {
      NumberedTellsApart(a.keys, b.keys);
    }
  }

  lemma NumberedTellsApart(a: seq<string>, b: seq<string>)
    requires Numbered(a) == Numbered(b)
    ensures a == b
  {
    assert |Numbered(a)| == |Numbered(b)|;
    forall i | 0 <= i < |a| ensures a[i] == b[i] {
      assert Numbered(a)[i].0 == Numbered(b)[i].0;
    }
  }

  /** A cached statement is the fresh one exactly when what it was prepared for is unchanged: the whole shape for an
      upsert, the table and the keys for a delete. The caches are never told about an announcement. */
  lemma CachedIsFreshIffShapeUnchanged(loaded: Relations, steps: seq<CacheStep>)
    requires WellNamedCache(CacheOf(loaded)) && WellNamedSteps(steps)
    ensures var s := CacheRun(loaded, steps);
            && s.upserts.Keys == s.upsertShapes.Keys <= s.relations.tableNames.Keys
            && s.deletes.Keys == s.deleteShapes.Keys <= s.relations.tableNames.Keys
            && (forall oid | oid in s.upserts ::
                  FreshUpsert(ShapeIn(s.relations, oid)) == Some(s.upserts[oid]) <==>
                  s.upsertShapes[oid] == ShapeIn(s.relations, oid))
            && (forall oid | oid in s.deletes ::
                  FreshDelete(ShapeIn(s.relations, oid)) == Some(s.deletes[oid]) <==>
                  && s.deleteShapes[oid].table == ShapeIn(s.relations, oid).table
                  && s.deleteShapes[oid].keys == ShapeIn(s.relations, oid).keys)
  {
    hide FreshUpsert, FreshDelete, WellNamed, CacheOf, CacheRun;
    CacheRunIsGood(loaded, steps);
    var s := CacheRun(loaded, steps);
    forall oid | oid in s.upserts
      ensures FreshUpsert(ShapeIn(s.relations, oid)) == Some(s.upserts[oid]) <==>
              s.upsertShapes[oid] == ShapeIn(s.relations, oid)
    {
      FreshTellsApart(s.upsertShapes[oid], ShapeIn(s.relations, oid));
    }
    forall oid | oid in s.deletes
      ensures FreshDelete(ShapeIn(s.relations, oid)) == Some(s.deletes[oid]) <==>
              && s.deleteShapes[oid].table == ShapeIn(s.relations, oid).table
              && s.deleteShapes[oid].keys == ShapeIn(s.relations, oid).keys
    {
      FreshTellsApart(s.deleteShapes[oid], ShapeIn(s.relations, oid));
    }
  }

  /** Every announcement of a known OID repeats its shape. */
  predicate Steady(loaded: Relations, steps: seq<CacheStep>)
  {
    forall i | 0 <= i < |steps| ::
      var c := CacheRun(loaded, steps[..i]).relations;
      steps[i].AnnounceRelation? && steps[i].rel.oid in c.tableNames ==>
          ShapeOf(steps[i].rel) == ShapeIn(c, steps[i].rel.oid)
  }

  predicate Unchanged(s: Caches)
    requires SameDomain(s.relations)
  {
    && (forall oid | oid in s.upsertShapes ::
          oid in s.relations.tableNames && s.upsertShapes[oid] == ShapeIn(s.relations, oid))
    && (forall oid | oid in s.deleteShapes ::
          oid in s.relations.tableNames && s.deleteShapes[oid] == ShapeIn(s.relations, oid))
  }

  lemma UnchangedKept(s: Caches, step: CacheStep)
    requires SameDomain(s.relations) && Unchanged(s)
    requires step.AnnounceRelation? && step.rel.oid in s.relations.tableNames ==>
             ShapeOf(step.rel) == ShapeIn(s.relations, step.rel.oid)
    ensures Unchanged(CacheNext(s, step))
  {
    hide FreshUpsert, FreshDelete, KeyIdentity, FieldNames, KeyNames, Chars, Updated, ShapeIn, ShapeOf;
    if step.AnnounceRelation? {
      forall oid | oid in s.relations.tableNames
        ensures oid in Updated(s.relations, step.rel).tableNames
        ensures ShapeIn(Updated(s.relations, step.rel), oid) == ShapeIn(s.relations, oid)
      {
        ShapeAfter(s.relations, step.rel, oid);
      }
    }
  }

  lemma SteadyBefore(loaded: Relations, steps: seq<CacheStep>)
    requires Steady(loaded, steps) && steps != []
    ensures var last := |steps| - 1;
            var c := CacheRun(loaded, steps[..last]).relations;
            && Steady(loaded, steps[..last])
            && (steps[last].AnnounceRelation? && steps[last].rel.oid in c.tableNames ==>
                  ShapeOf(steps[last].rel) == ShapeIn(c, steps[last].rel.oid))
  {
    hide CacheRun, ShapeOf, ShapeIn;
    var front := steps[..|steps| - 1];
    assert forall i | 0 <= i < |front| :: front[..i] == steps[..i] && front[i] == steps[i];
  }

  lemma {:induction false} SteadyRunIsUnchanged(loaded: Relations, steps: seq<CacheStep>)
    requires Steady(loaded, steps)
    ensures Unchanged(CacheRun(loaded, steps))
  {
    hide CacheNext, Unchanged, CacheOf;
    if steps == [] {
      NothingCached(loaded);
    } else {
      var last := |steps| - 1;
      var front := steps[..last];
      SteadyBefore(loaded, steps);
      hide Steady;
      SteadyRunIsUnchanged(loaded, front);
      UnchangedKept(CacheRun(loaded, front), steps[last]);
    }
  }

  lemma NothingCached(loaded: Relations)
    ensures Unchanged(CacheRun(loaded, []))
  {
  }

  /** In every run that re-announces an OID only with its shape unchanged, every cached statement is the fresh one. */
  lemma SteadyRunsHaveFreshStatements(loaded: Relations, steps: seq<CacheStep>)
    requires WellNamedCache(CacheOf(loaded)) && WellNamedSteps(steps) && Steady(loaded, steps)
    ensures var s := CacheRun(loaded, steps);
            && s.upserts.Keys <= s.relations.tableNames.Keys && s.deletes.Keys <= s.relations.tableNames.Keys
            && (forall oid | oid in s.upserts :: FreshUpsert(ShapeIn(s.relations, oid)) == Some(s.upserts[oid]))
            && (forall oid | oid in s.deletes :: FreshDelete(ShapeIn(s.relations, oid)) == Some(s.deletes[oid]))
  {
    hide FreshUpsert, FreshDelete, WellNamed, CacheOf, CacheRun, Steady;
    CachedIsFreshIffShapeUnchanged(loaded, steps);
    SteadyRunIsUnchanged(loaded, steps);
  }
}
