/** What one event does to the sink's tables: a blind write of one row or one key. */
module Mirror {
  import opened Wrappers
  import opened Wire
  import opened ChangeEvents
  import opened Toast
  import opened Sql
  import opened SqlGrammar
  import opened RelationCaches
  import opened Database
  import opened PostgresSinks

  // ----- Relations and what the sink supports of them -----

  /** Named without delimiters, with a key; under full identity the server flags every column. */
  predicate Suitable(rel: Relation)
  {
    && IsName(Chars(rel.name)) && AllNames(FieldNames(rel.fields)) && Distinct(FieldNames(rel.fields))
    && KeyIndexes(rel.fields) != []
    && (rel.replicaId == Row ==> |KeyIndexes(rel.fields)| == |rel.fields|)
  }

  /** The sink knows tables by their bare names. */
  predicate SuitableAll(rels: Relations)
  {
    && (forall oid | oid in rels :: Suitable(rels[oid]))
    && forall a, b | a in rels && b in rels && a != b :: Chars(rels[a].name) != Chars(rels[b].name)
  }

  function UpsertFor(rel: Relation): Statement
  {
    var names, keys := FieldNames(rel.fields), KeyNames(rel.fields);
    Upsert(Chars(rel.name), names, OneTo(|names|), keys, Action(names, keys))
  }

  function DeleteFor(rel: Relation): Statement
  {
    Statement.Delete(Chars(rel.name), Numbered(KeyNames(rel.fields)))
  }

  lemma KeyNamesAreNames(fields: seq<Field>)
    requires AllNames(FieldNames(fields))
    ensures AllNames(KeyNames(fields)) && |KeyNames(fields)| == |KeyIndexes(fields)|
  {
    hide IsName, FieldNames, KeyNames, KeyIndexes;
    KeyNamesAreTheProjection(fields);
    forall j: nat | j < |KeyNames(fields)| ensures IsName(KeyNames(fields)[j]) {
      KeyNameIsColumnName(fields, j);
    }
  }

  /** The upsert text is a statement. */
  predicate UpsertFits(fields: seq<Field>)
  {
    fields != [] && EndsWell(FieldNames(fields), KeyNames(fields))
  }

  lemma LastNameIsKeyIff(fields: seq<Field>)
    requires fields != [] && Distinct(FieldNames(fields))
    ensures FieldNames(fields)[|fields| - 1] in KeyNames(fields) <==> fields[|fields| - 1].isKey
  {
    hide FieldNames, KeyNames, KeyIndexes;
    var names, keys, ks, last := FieldNames(fields), KeyNames(fields), KeyIndexes(fields), |fields| - 1;
    KeyNamesAreTheProjection(fields);
    KeysAreTheFlaggedColumns(fields);
    forall j: nat | j < |keys| ensures keys[j] == names[last] <==> ks[j] == last {
      KeyNameIsColumnName(fields, j);
    }
    if fields[last].isKey {
      assert last in ks;
      var j :| 0 <= j < |ks| && ks[j] == last;
      assert keys[j] in keys;
    }
  }

  /** It is when every column is a key or the last is none. */
  lemma UpsertFitsIff(fields: seq<Field>)
    requires fields != [] && Distinct(FieldNames(fields))
    ensures UpsertFits(fields) <==> (forall i | 0 <= i < |fields| :: fields[i].isKey) || !fields[|fields| - 1].isKey
  {
    hide FieldNames, KeyNames, KeyIndexes;
    KeyNamesAreTheProjection(fields);
    AllKeysIff(fields);
    LastNameIsKeyIff(fields);
  }

  lemma SuitableStatements(rel: Relation)
    requires Suitable(rel)
    ensures FreshUpsert(ShapeOf(rel)) == if UpsertFits(rel.fields) then Some(UpsertFor(rel)) else None
    ensures FreshDelete(ShapeOf(rel)) == Some(DeleteFor(rel))
    ensures rel.fields != []
  {
    assert rel.fields != [] by {
      SomeColumn(rel.fields);
    }
    hide ReadUpsert, UpsertText, ReadDelete, DeleteText, IsName, AllNames, FieldNames, KeyNames, KeyIndexes,
      Distinct, Action, EndsWell, Chars, OneTo, Numbered;
    var names, keys := FieldNames(rel.fields), KeyNames(rel.fields);
    KeyNamesAreNames(rel.fields);
    UpsertReadsBack(Chars(rel.name), names, keys);
    DeleteReadsBack(Chars(rel.name), keys);
  }

  lemma SomeColumn(fields: seq<Field>)
    requires KeyIndexes(fields) != []
    ensures fields != []
  {
  }

  // ----- What an event writes -----

  /** Rows by relation and key. */
  type State = map<UInt32, Contents>

  datatype Write = Put(row: seq<PgValue>) | Remove(key: seq<PgValue>)

  function WriteOf(op: Op): Write
  {
    match op
    case Insert(row) => Put(row)
    case Update(before, row) => Put(Merged(before, row))
    case Delete(before) => Remove(before)
  }

  /** What the sink can do with a relation: write rows when the upsert fits, remove them when the key columns come
      first. */
  predicate Supports(rel: Relation, op: Op)
  {
    match WriteOf(op)
    case Put(_) => UpsertFits(rel.fields)
    case Remove(_) => PrefixKeys(rel.fields)
  }

  predicate Acceptable(rel: Relation, op: Op)
  {
    WellShaped(rel, op) && Supports(rel, op)
  }

  /** The operation merges, and then carries a whole row or a whole key. */
  predicate WellShaped(rel: Relation, op: Op)
  {
    && MergeOp(op).Some?
    && match WriteOf(op)
       case Put(row) => Storable(rel.fields, row)
       case Remove(key) => |key| == |KeyIndexes(rel.fields)| && Toasted !in key
  }

  /** The event merges and asks for what the sink supports. */
  predicate Takes(rels: Relations, e: ChangeEvent)
  {
    e.rel in rels && MergeOp(e.op).Some? && Supports(rels[e.rel], e.op)
  }

  /** The sink refuses the event: it does not merge, or it asks for what the sink does not support. */
  predicate Refused(rels: Relations, e: ChangeEvent)
  {
    MergeOp(e.op).None? || (e.rel in rels && WellShaped(rels[e.rel], e.op) && !Supports(rels[e.rel], e.op))
  }

  function Written(fields: seq<Field>, m: Contents, w: Write): Contents
    requires w.Put? ==> |w.row| == |fields|
  {
    match w
    case Put(row) => m[KeyOf(fields, row) := row]
    case Remove(key) => m - {key}
  }

  predicate AcceptableEvent(rels: Relations, e: ChangeEvent)
  {
    e.rel in rels && Acceptable(rels[e.rel], e.op)
  }

  function Applied(rels: Relations, m: State, e: ChangeEvent): State
    requires AcceptableEvent(rels, e) && rels.Keys == m.Keys
  {
    m[e.rel := Written(rels[e.rel].fields, m[e.rel], WriteOf(e.op))]
  }

  // ----- The refinement -----

  predicate HoldsTable(rel: Relation, db: Db, m: Contents)
  {
    && Keyed(rel.fields, m)
    && Chars(rel.name) in db && db[Chars(rel.name)] == TableOf(FieldNames(rel.fields), m)
  }

  predicate Holds(rels: Relations, db: Db, m: State)
  {
    rels.Keys == m.Keys && forall oid | oid in rels :: HoldsTable(rels[oid], db, m[oid])
  }

  /** Cached statements are fresh. */
  predicate Coherent(rels: Relations, s: SinkView)
  {
    && s.cache == CacheOf(rels)
    && (forall oid | oid in s.upserts ::
          oid in rels && UpsertFits(rels[oid].fields) && s.upserts[oid] == UpsertFor(rels[oid]))
    && (forall oid | oid in s.deletes :: oid in rels && s.deletes[oid] == DeleteFor(rels[oid]))
  }

  const NO_SINK_FAILURE := SinkOutcomes(true, true)

  lemma ShapeInCache(rels: Relations, oid: UInt32)
    requires oid in rels
    ensures ShapeIn(CacheOf(rels), oid) == ShapeOf(rels[oid])
    ensures CacheOf(rels).identities[oid] == KeyIdentity(rels[oid])
  {
    hide KeyIdentity, Chars, FieldNames, KeyNames;
  }

  /** Cached or not, the statement is the one for the relation, if there is one. */
  lemma GotStatements(rels: Relations, s: SinkView, oid: UInt32)
    requires SuitableAll(rels) && Coherent(rels, s) && oid in rels
    ensures Got(s.upserts, s.cache, oid, FreshUpsert, true) ==
            if UpsertFits(rels[oid].fields) then (Ok(UpsertFor(rels[oid])), s.upserts[oid := UpsertFor(rels[oid])])
            else (Err(Platform), s.upserts)
    ensures Got(s.deletes, s.cache, oid, FreshDelete, true) ==
            (Ok(DeleteFor(rels[oid])), s.deletes[oid := DeleteFor(rels[oid])])
  {
    hide CacheOf, FreshUpsert, FreshDelete, Suitable, UpsertFor, DeleteFor, UpsertFits, ShapeOf, ShapeIn;
    SuitableStatements(rels[oid]);
    ShapeInCache(rels, oid);
    assert oid in s.upserts ==> s.upserts[oid := UpsertFor(rels[oid])] == s.upserts;
    assert oid in s.deletes ==> s.deletes[oid := DeleteFor(rels[oid])] == s.deletes;
  }

  lemma PutExecutes(rel: Relation, db: Db, m: Contents, row: seq<PgValue>)
    requires Suitable(rel) && HoldsTable(rel, db, m) && Storable(rel.fields, row)
    ensures var r := Execute(db, UpsertFor(rel), row, true);
            var m2 := Written(rel.fields, m, Put(row));
            && r == Ok(WithTable(rel, db, m2))
            && Keyed(rel.fields, m2)
  {
    hide Upserted, FieldNames, KeyNames, Chars, NewRow, KeyOf, Keyed, TableOf, Action, KeyIsNull;
    UpsertPuts(rel.fields, m, row);
    ConflictIsSameKey(rel.fields, row, row);
  }

  lemma RemoveExecutes(rel: Relation, db: Db, m: Contents, before: seq<PgValue>)
    requires Suitable(rel) && PrefixKeys(rel.fields) && HoldsTable(rel, db, m)
    requires |before| == |KeyIndexes(rel.fields)| && Toasted !in before
    ensures DeleteArgs(KeyIdentity(rel), before) == before
    ensures var r := Execute(db, DeleteFor(rel), before, true);
            var m2 := Written(rel.fields, m, Remove(before));
            && r == Ok(WithTable(rel, db, m2))
            && Keyed(rel.fields, m2)
  {
    hide FieldNames, KeyNames, KeyIndexes, Chars, KeyOf, Keyed, TableOf, Selected, KeyPositions, Filtered, PrefixKeys;
    KeyNamesAreTheProjection(rel.fields);
    KeySurvivesFilterIffPrefix(rel.fields, before);
    DeleteRemoves(rel.fields, m, before);
  }

  function WithTable(rel: Relation, db: Db, m: Contents): Db
  {
    db[Chars(rel.name) := TableOf(FieldNames(rel.fields), m)]
  }

  /** Writing one relation's table leaves the others as they are. */
  lemma OtherTablesStay(rels: Relations, db: Db, m: State, oid: UInt32, m2: Contents)
    requires SuitableAll(rels) && Holds(rels, db, m) && oid in rels && Keyed(rels[oid].fields, m2)
    ensures Holds(rels, WithTable(rels[oid], db, m2), m[oid := m2])
  {
    hide Suitable, Keyed, TableOf, Chars, FieldNames;
  }

  lemma CoherentAfter(rels: Relations, s: SinkView, oid: UInt32, db: Db)
    requires Coherent(rels, s) && oid in rels
    ensures UpsertFits(rels[oid].fields) ==>
              Coherent(rels, s.(upserts := s.upserts[oid := UpsertFor(rels[oid])], db := db))
    ensures Coherent(rels, s.(deletes := s.deletes[oid := DeleteFor(rels[oid])], db := db))
  {
    hide CacheOf, UpsertFor, DeleteFor, UpsertFits;
  }

  lemma PutIsWrite(rels: Relations, s: SinkView, m: State, oid: UInt32, row: seq<PgValue>)
    requires SuitableAll(rels) && Coherent(rels, s) && Holds(rels, s.db, m) && oid in rels
    requires Storable(rels[oid].fields, row) && UpsertFits(rels[oid].fields)
    ensures var (r, s2) := WriteRow(s, oid, row, NO_SINK_FAILURE);
            && r == Ok(()) && Coherent(rels, s2)
            && Holds(rels, s2.db, m[oid := Written(rels[oid].fields, m[oid], Put(row))])
  {
    var rel := rels[oid];
    assert |row| == |rel.fields|;
    SuitableOne(rels, oid);
    assert HoldsTable(rel, s.db, m[oid]);
    hide CacheOf, FreshUpsert, FreshDelete, Suitable, UpsertFor, DeleteFor, Got, Execute, Storable, KeyIndexes,
      Coherent, HoldsTable, Holds, Written, Chars, FieldNames, Keyed, TableOf, SuitableAll, UpsertFits;
    GotStatements(rels, s, oid);
    PutExecutes(rel, s.db, m[oid], row);
    var m2 := Written(rel.fields, m[oid], Put(row));
    OtherTablesStay(rels, s.db, m, oid, m2);
    CoherentAfter(rels, s, oid, WithTable(rel, s.db, m2));
  }

  lemma RemoveIsWrite(rels: Relations, s: SinkView, m: State, oid: UInt32, before: seq<PgValue>)
    requires SuitableAll(rels) && Coherent(rels, s) && Holds(rels, s.db, m) && oid in rels
    requires |before| == |KeyIndexes(rels[oid].fields)| && Toasted !in before && PrefixKeys(rels[oid].fields)
    ensures var (r, s2) := RemoveRow(s, oid, before, NO_SINK_FAILURE);
            && r == Ok(()) && Coherent(rels, s2)
            && Holds(rels, s2.db, m[oid := Written(rels[oid].fields, m[oid], Remove(before))])
  {
    var rel := rels[oid];
    SuitableOne(rels, oid);
    assert HoldsTable(rel, s.db, m[oid]);
    ShapeInCache(rels, oid);
    assert s.cache == CacheOf(rels);
    hide CacheOf, FreshUpsert, FreshDelete, Suitable, UpsertFor, DeleteFor, Got, Execute, KeyIndexes, Coherent,
      HoldsTable, Holds, Written, Chars, FieldNames, Keyed, TableOf, SuitableAll, DeleteArgs, KeyIdentity, UpsertFits,
      PrefixKeys;
    GotStatements(rels, s, oid);
    RemoveExecutes(rel, s.db, m[oid], before);
    var m2 := Written(rel.fields, m[oid], Remove(before));
    OtherTablesStay(rels, s.db, m, oid, m2);
    CoherentAfter(rels, s, oid, WithTable(rel, s.db, m2));
  }

  lemma HandledIsItsWrite(s: SinkView, e: ChangeEvent, o: SinkOutcomes)
    requires SameDomain(s.cache) && MergeOp(e.op).Some?
    ensures Handled(s, e, o) ==
            match WriteOf(e.op)
            case Put(row) => WriteRow(s, e.rel, row, o)
            case Remove(key) => RemoveRow(s, e.rel, key, o)
  {
    hide WriteRow, RemoveRow, Merged;
  }

  /** With no failure outside, an acceptable event is handled without an error and does to the tables what its
      write does to the rows, whatever rows there were. */
  lemma EventIsWrite(rels: Relations, s: SinkView, m: State, e: ChangeEvent)
    requires SuitableAll(rels) && Coherent(rels, s) && Holds(rels, s.db, m) && AcceptableEvent(rels, e)
    ensures var (r, s2) := Handled(s, e, NO_SINK_FAILURE);
            r == Ok(()) && Coherent(rels, s2) && Holds(rels, s2.db, Applied(rels, m, e))
  {
    hide CacheOf, Handled, WriteRow, RemoveRow, MergeOp, WriteOf, Written, Storable, HoldsTable, SuitableAll,
      KeyIndexes, UpsertFits, PrefixKeys;
    HandledIsItsWrite(s, e, NO_SINK_FAILURE);
    match WriteOf(e.op) {
      case Put(row) => PutIsWrite(rels, s, m, e.rel, row);
      case Remove(before) => RemoveIsWrite(rels, s, m, e.rel, before);
    }
  }

  lemma SuitableOne(rels: Relations, oid: UInt32)
    requires SuitableAll(rels) && oid in rels
    ensures Suitable(rels[oid])
  {
    hide Suitable;
  }

  // ----- Refusals -----

  /** Without a statement there is nothing to execute, whatever the row. */
  lemma PutIsRefused(rels: Relations, s: SinkView, oid: UInt32, row: seq<PgValue>, o: SinkOutcomes)
    requires SuitableAll(rels) && Coherent(rels, s) && oid in rels && !UpsertFits(rels[oid].fields)
    ensures SameDomain(s.cache)
    ensures WriteRow(s, oid, row, o) == (Err(Platform), s)
  {
    assert oid !in s.upserts && SameDomain(s.cache) && oid in s.cache.tableNames;
    ShapeInCache(rels, oid);
    SuitableOne(rels, oid);
    SuitableStatements(rels[oid]);
    assert s.cache == CacheOf(rels);
    hide CacheOf, FreshUpsert, Suitable, ShapeOf, ShapeIn, UpsertFits, Execute;
  }

  lemma KeyIsNotBound(rel: Relation, before: seq<PgValue>)
    requires Suitable(rel) && !PrefixKeys(rel.fields) && |before| == |KeyIndexes(rel.fields)|
    ensures |DeleteArgs(KeyIdentity(rel), before)| != Params(DeleteFor(rel))
  {
    AllKeysIff(rel.fields);
    KeyNamesAreTheProjection(rel.fields);
    KeySurvivesFilterIffPrefix(rel.fields, before);
    hide KeyIndexes, KeyNames, KeyPositions, Filtered, FieldNames;
  }

  lemma WrongNumberIsRefused(db: Db, statement: Statement, args: seq<PgValue>, ok: bool)
    requires |args| != Params(statement)
    ensures Execute(db, statement, args, ok) == Err(Platform)
  {
  }

  lemma RemoveFails(s: SinkView, oid: UInt32, before: seq<PgValue>, o: SinkOutcomes, statement: Statement)
    requires SameDomain(s.cache) && oid in s.cache.identities
    requires var (r, _) := Got(s.deletes, s.cache, oid, FreshDelete, o.prepare);
             r == Ok(statement) || r == Err(Platform)
    requires |DeleteArgs(s.cache.identities[oid], before)| != Params(statement)
    ensures var (_, deletes) := Got(s.deletes, s.cache, oid, FreshDelete, o.prepare);
            RemoveRow(s, oid, before, o) == (Err(Platform), s.(deletes := deletes))
  {
    hide FreshDelete, Got, Execute, Params, DeleteArgs;
    WrongNumberIsRefused(s.db, statement, DeleteArgs(s.cache.identities[oid], before), o.execute);
  }

  /** A key that is not bound whole fails the delete, whatever it is. */
  lemma RemoveIsRefused(rels: Relations, s: SinkView, oid: UInt32, before: seq<PgValue>, o: SinkOutcomes)
    requires SuitableAll(rels) && Coherent(rels, s) && oid in rels && !PrefixKeys(rels[oid].fields)
    requires |before| == |KeyIndexes(rels[oid].fields)|
    ensures SameDomain(s.cache)
    ensures var (r, s2) := RemoveRow(s, oid, before, o);
            r == Err(Platform) && s2.db == s.db && Coherent(rels, s2)
  {
    var rel := rels[oid];
    hide CacheOf, FreshDelete, Suitable, SuitableAll, DeleteFor, Got, Execute, Coherent, KeyIndexes, PrefixKeys,
      DeleteArgs, KeyIdentity, Params, RemoveRow;
    SuitableOne(rels, oid);
    KeyIsNotBound(rel, before);
    GotDelete(rels, s, oid, o.prepare);
    CoherentAfter(rels, s, oid, s.db);
    RemoveFails(s, oid, before, o, DeleteFor(rel));
  }

  lemma GotDelete(rels: Relations, s: SinkView, oid: UInt32, ok: bool)
    requires SuitableAll(rels) && Coherent(rels, s) && oid in rels
    ensures SameDomain(s.cache) && oid in s.cache.identities && s.cache.identities[oid] == KeyIdentity(rels[oid])
    ensures Got(s.deletes, s.cache, oid, FreshDelete, ok) ==
            if ok || oid in s.deletes then (Ok(DeleteFor(rels[oid])), s.deletes[oid := DeleteFor(rels[oid])])
            else (Err(Platform), s.deletes)
  {
    assert SameDomain(s.cache) && oid in s.cache.tableNames;
    ShapeInCache(rels, oid);
    GotStatements(rels, s, oid);
    hide CacheOf, FreshUpsert, FreshDelete, Suitable, UpsertFor, DeleteFor, UpsertFits, ShapeOf, ShapeIn, KeyIdentity;
  }

  /** A refused event is an error and leaves the tables as they were, whatever else fails. */
  lemma EventIsRefused(rels: Relations, s: SinkView, e: ChangeEvent, o: SinkOutcomes)
    requires SuitableAll(rels) && Coherent(rels, s) && Refused(rels, e)
    ensures SameDomain(s.cache)
    ensures var (r, s2) := Handled(s, e, o);
            r.Err? && s2.db == s.db && Coherent(rels, s2) && (MergeOp(e.op).None? ==> r == Err(ToastedInKeyOnly))
  {
    assert SameDomain(s.cache);
    if MergeOp(e.op).Some? {
      hide CacheOf, Handled, WriteRow, RemoveRow, MergeOp, WriteOf, Storable, SuitableAll, KeyIndexes, UpsertFits,
        PrefixKeys, Coherent;
      HandledIsItsWrite(s, e, o);
      match WriteOf(e.op) {
        case Put(row) => PutIsRefused(rels, s, e.rel, row, o);
        case Remove(before) => RemoveIsRefused(rels, s, e.rel, before, o);
      }
    } else {
      hide WriteRow, RemoveRow, Coherent, SuitableAll;
    }
  }

  // ----- Blind writes -----

  function Find(rows: Contents, key: seq<PgValue>): Option<seq<PgValue>>
  {
    if key in rows then Some(rows[key]) else None
  }

  function Lookup(m: State, oid: UInt32, key: seq<PgValue>): Option<seq<PgValue>>
  {
    if oid in m then Find(m[oid], key) else None
  }

  function KeyWritten(fields: seq<Field>, w: Write): seq<PgValue>
    requires w.Put? ==> |w.row| == |fields|
  {
    match w
    case Put(row) => KeyOf(fields, row)
    case Remove(key) => key
  }

  /** An acceptable event writes under this key, in this relation. */
  predicate WritesAt(rels: Relations, e: ChangeEvent, oid: UInt32, key: seq<PgValue>)
    requires AcceptableEvent(rels, e)
  {
    oid == e.rel && key == KeyWritten(rels[e.rel].fields, WriteOf(e.op))
  }

  /** What an event leaves under the key it writes does not depend on what was there; other keys are left alone. */
  lemma WritesAreBlind(rels: Relations, m1: State, m2: State, e: ChangeEvent, oid: UInt32, key: seq<PgValue>)
    requires AcceptableEvent(rels, e) && rels.Keys == m1.Keys == m2.Keys
    ensures if WritesAt(rels, e, oid, key)
            then Lookup(Applied(rels, m1, e), oid, key) == Lookup(Applied(rels, m2, e), oid, key)
            else Lookup(Applied(rels, m1, e), oid, key) == Lookup(m1, oid, key)
  {
    hide KeyOf;
  }

  // ----- Many events -----

  /** Whether every event was handled without an error, and the state after them. */
  function HandledAll(s: SinkView, es: seq<ChangeEvent>): (r: (bool, SinkView))
    requires SameDomain(s.cache)
    ensures r.1.cache == s.cache
  {
    if es == [] then (true, s)
    else
      var last := |es| - 1;
      var (fine, before) := HandledAll(s, es[..last]);
      var (r, after) := Handled(before, es[last], NO_SINK_FAILURE);
      (fine && r.Ok?, after)
  }
}
