/** The source's histories and the sink's tables: when the tables agree with the source, and what they hold when they
    do not. */
module Histories {
  import opened Wrappers
  import opened Wire
  import opened ChangeEvents
  import opened Toast
  import opened RelationCaches
  import opened Database
  import opened PostgresSinks
  import opened Mirror

  // ----- The source -----

  /** What the source does to a table when it emits an operation; `None` when it cannot. An update without an old row
      leaves out what it does not change, never a key column, and keeps the key; full identity always sends the old
      row. An update with its old row may move the row to a new key. */
  function RowsNext(rel: Relation, rows: Contents, op: Op): Option<Contents>
  {
    var fields := rel.fields;
    match op
    case Insert(row) =>
      if Storable(fields, row) && KeyOf(fields, row) !in rows then Some(rows[KeyOf(fields, row) := row]) else None
    case Delete(key) => if key in rows then Some(rows - {key}) else None
    case Update(before, row) =>
      if |row| != |fields| then None
      else if before == [] then
        var key := KeyOf(fields, row);
        if rel.replicaId == Row || Toasted in key || key !in rows then None
        else
          var now := Merged(rows[key], row);
          if Storable(fields, now) && KeyOf(fields, now) == key then Some(rows[key := now]) else None
      else if |before| != |fields| || KeyOf(fields, before) !in rows || rows[KeyOf(fields, before)] != before then None
      else
        var was, now := KeyOf(fields, before), Merged(before, row);
        if !Storable(fields, now) then None
        else if KeyOf(fields, now) == was then Some(rows[was := now])
        else if KeyOf(fields, now) in rows then None
        else Some((rows - {was})[KeyOf(fields, now) := now])
  }

  /** What the source does: it changes a row and an event reaches the sink, or it changes a table in a way of which
      nothing arrives: it truncates it, or the reader refuses what the server sends. */
  datatype Act = Emits(event: ChangeEvent) | Unseen(oid: UInt32, rows: Contents)

  function TableNext(rels: Relations, m: State, oid: UInt32, rows: Option<Contents>): (r: Option<State>)
    requires rels.Keys == m.Keys && oid in rels
    ensures r.Some? ==> r.value.Keys == rels.Keys
  {
    if rows.Some? then Some(m[oid := rows.value]) else None
  }

  function SourceNext(rels: Relations, m: State, a: Act): (r: Option<State>)
    requires rels.Keys == m.Keys
    ensures r.Some? ==> r.value.Keys == rels.Keys
  {
    match a
    case Emits(e) => if e.rel in rels then TableNext(rels, m, e.rel, RowsNext(rels[e.rel], m[e.rel], e.op)) else None
    case Unseen(oid, rows) =>
      if oid in rels && Keyed(rels[oid].fields, rows) then TableNext(rels, m, oid, Some(rows)) else None
  }

  function SourceRun(rels: Relations, m: State, acts: seq<Act>): (r: Option<State>)
    requires rels.Keys == m.Keys
    ensures r.Some? ==> r.value.Keys == rels.Keys
  {
    if acts == [] then Some(m)
    else
      match SourceRun(rels, m, acts[..|acts| - 1])
      case None => None
      case Some(before) => SourceNext(rels, before, acts[|acts| - 1])
  }

  predicate AllKeyed(rels: Relations, m: State)
  {
    rels.Keys == m.Keys && forall oid | oid in rels :: Keyed(rels[oid].fields, m[oid])
  }

  lemma RowsStayKeyed(rel: Relation, rows: Contents, op: Op)
    requires Keyed(rel.fields, rows) && RowsNext(rel, rows, op).Some?
    ensures Keyed(rel.fields, RowsNext(rel, rows, op).value)
  {
    hide KeyOf, Merged;
  }

  lemma SourceStaysKeyed(rels: Relations, m: State, a: Act)
    requires AllKeyed(rels, m) && SourceNext(rels, m, a).Some?
    ensures AllKeyed(rels, SourceNext(rels, m, a).value)
  {
    match a {
      case Emits(e) =>
        assert Keyed(rels[e.rel].fields, m[e.rel]);
        hide Keyed, RowsNext;
        RowsStayKeyed(rels[e.rel], m[e.rel], e.op);
      case Unseen(oid, rows) =>
        hide Keyed;
    }
  }

  lemma {:induction false} SourceRunStaysKeyed(rels: Relations, m: State, acts: seq<Act>)
    requires AllKeyed(rels, m) && SourceRun(rels, m, acts).Some?
    ensures AllKeyed(rels, SourceRun(rels, m, acts).value)
  {
    hide AllKeyed, SourceNext;
    assert rels.Keys == m.Keys by {
      KeyedOids(rels, m);
    }
    if acts != [] {
      SourceRunStaysKeyed(rels, m, acts[..|acts| - 1]);
      SourceStaysKeyed(rels, SourceRun(rels, m, acts[..|acts| - 1]).value, acts[|acts| - 1]);
    }
  }

  lemma KeyedOids(rels: Relations, m: State)
    requires AllKeyed(rels, m)
    ensures rels.Keys == m.Keys
  {
  }

  // ----- What the sink follows -----

  /** The row stays under its key. */
  predicate KeepsKey(rel: Relation, op: Op)
  {
    op.Update? && |op.before| == |op.row| == |rel.fields| ==>
      KeyOf(rel.fields, op.before) == KeyOf(rel.fields, Merged(op.before, op.row))
  }

  lemma NothingToMerge(row: seq<PgValue>)
    ensures MergeOp(Update([], row)).Some? <==> Toasted !in row
    ensures Toasted !in row ==> Merged([], row) == row && forall was: seq<PgValue> :: Merged(was, row) == row
  {
    if Toasted !in row {
      forall i | 0 <= i < |row| ensures row[i] != Toasted && !Stuck([], row, i) {
        assert row[i] in row;
      }
      assert Merged([], row) == row;
      forall was: seq<PgValue> ensures Merged(was, row) == row {
        assert Merged(was, row) == row;
      }
    } else {
      var i :| 0 <= i < |row| && row[i] == Toasted;
      assert Stuck([], row, i);
    }
  }

  lemma OldRowMerges(before: seq<PgValue>, row: seq<PgValue>)
    requires |before| == |row|
    ensures MergeOp(Update(before, row)) == Some(Update(before, Merged(before, row)))
  {
    forall i | 0 <= i < |row| ensures !Stuck(before, row, i) {
    }
  }

  lemma StoredKey(fields: seq<Field>, rows: Contents, key: seq<PgValue>)
    requires Keyed(fields, rows) && key in rows
    ensures |key| == |KeyIndexes(fields)| && Toasted !in key
  {
    hide KeyIndexes;
    assert KeyOf(fields, rows[key]) == key;
  }

  /** What the source emits carries, once merged, a whole row or a whole key. */
  lemma SourceIsWellShaped(rel: Relation, rows: Contents, op: Op)
    requires Keyed(rel.fields, rows) && RowsNext(rel, rows, op).Some? && MergeOp(op).Some?
    ensures WellShaped(rel, op)
  {
    hide KeyOf, Merged, KeyIndexes, MergeOp;
    match op {
      case Insert(row) =>
      case Delete(key) => StoredKey(rel.fields, rows, key);
      case Update(before, row) =>
        if before == [] {
          NothingToMerge(row);
        }
    }
  }

  /** Under the key written, the write leaves what the source has there. */
  lemma WriteAgrees(rel: Relation, rows: Contents, other: Contents, op: Op)
    requires Keyed(rel.fields, rows) && RowsNext(rel, rows, op).Some? && Acceptable(rel, op)
    ensures var key := KeyWritten(rel.fields, WriteOf(op));
            Find(RowsNext(rel, rows, op).value, key) == Find(Written(rel.fields, other, WriteOf(op)), key)
  {
    hide KeyOf, Merged, KeyIndexes, MergeOp;
    if op.Update? && op.before == [] {
      NothingToMerge(op.row);
    }
  }

  /** Elsewhere the source changes nothing, as long as the key is kept. */
  lemma ElsewhereStays(rel: Relation, rows: Contents, op: Op, key: seq<PgValue>)
    requires Keyed(rel.fields, rows) && RowsNext(rel, rows, op).Some? && Acceptable(rel, op) && KeepsKey(rel, op)
    requires key != KeyWritten(rel.fields, WriteOf(op))
    ensures Find(RowsNext(rel, rows, op).value, key) == Find(rows, key)
  {
    hide KeyOf, Merged, KeyIndexes, MergeOp;
    if op.Update? && op.before == [] {
      NothingToMerge(op.row);
    }
  }

  /** A row that moves leaves nothing under its old key, where a write would leave the old row. */
  lemma MovedRowStaysBehind(rel: Relation, rows: Contents, op: Op)
    requires Keyed(rel.fields, rows) && RowsNext(rel, rows, op).Some? && Acceptable(rel, op) && !KeepsKey(rel, op)
    ensures |op.before| == |rel.fields|
    ensures var key := KeyOf(rel.fields, op.before);
            && Find(RowsNext(rel, rows, op).value, key) == None
            && Find(Written(rel.fields, rows, WriteOf(op)), key) == Some(op.before)
  {
    hide KeyOf, Merged, KeyIndexes, MergeOp;
  }

  // ----- The sink -----

  /** What an event leaves in the tables: one that the sink refuses leaves them as they were. */
  function SinkWrite(rels: Relations, m: State, e: ChangeEvent): (next: State)
    requires rels.Keys == m.Keys
    ensures next.Keys == m.Keys
  {
    if AcceptableEvent(rels, e) then Applied(rels, m, e) else m
  }

  function SinkNext(rels: Relations, m: State, a: Act): (next: State)
    requires rels.Keys == m.Keys
    ensures next.Keys == m.Keys
  {
    if a.Emits? then SinkWrite(rels, m, a.event) else m
  }

  function SinkRun(rels: Relations, m: State, acts: seq<Act>): (after: State)
    requires rels.Keys == m.Keys
    ensures after.Keys == m.Keys
  {
    if acts == [] then m else SinkNext(rels, SinkRun(rels, m, acts[..|acts| - 1]), acts[|acts| - 1])
  }

  /** The events that reach the sink. */
  function Emitted(acts: seq<Act>): (es: seq<ChangeEvent>)
  {
    if acts == [] then []
    else
      var last := |acts| - 1;
      Emitted(acts[..last]) + if acts[last].Emits? then [acts[last].event] else []
  }

  /** An event of the source is acceptable or refused. */
  lemma AcceptableIffTaken(rels: Relations, m: State, e: ChangeEvent)
    requires AllKeyed(rels, m) && SourceNext(rels, m, Emits(e)).Some?
    ensures AcceptableEvent(rels, e) <==> Takes(rels, e)
    ensures Refused(rels, e) <==> !Takes(rels, e)
  {
    hide Keyed, RowsNext, MergeOp, WriteOf, Supports;
    if MergeOp(e.op).Some? {
      assert Keyed(rels[e.rel].fields, m[e.rel]);
      SourceIsWellShaped(rels[e.rel], m[e.rel], e.op);
    }
  }

  /** Handling one event of the source, whatever the sink holds. */
  lemma EventIsHandled(rels: Relations, s: SinkView, held: State, m: State, e: ChangeEvent)
    requires SuitableAll(rels) && Coherent(rels, s) && Holds(rels, s.db, held)
    requires AllKeyed(rels, m) && SourceNext(rels, m, Emits(e)).Some?
    ensures var (r, s2) := Handled(s, e, NO_SINK_FAILURE);
            && rels.Keys == held.Keys && Coherent(rels, s2) && Holds(rels, s2.db, SinkWrite(rels, held, e))
            && (if Takes(rels, e) then r == Ok(()) else r.Err? && s2.db == s.db)
  {
    assert rels.Keys == held.Keys && SameDomain(s.cache);
    AcceptableIffTaken(rels, m, e);
    hide AllKeyed, SourceNext, SuitableAll, Coherent, Holds, Handled, Applied, AcceptableEvent, Takes, Refused;
    if Takes(rels, e) {
      EventIsWrite(rels, s, held, e);
    } else {
      EventIsRefused(rels, s, e, NO_SINK_FAILURE);
    }
  }

  predicate AllTaken(rels: Relations, es: seq<ChangeEvent>)
  {
    forall i | 0 <= i < |es| :: Takes(rels, es[i])
  }

  lemma AllTakenMore(rels: Relations, es: seq<ChangeEvent>, e: ChangeEvent)
    ensures AllTaken(rels, es + [e]) <==> AllTaken(rels, es) && Takes(rels, e)
  {
    hide Takes;
    assert (es + [e])[|es|] == e;
    assert forall i | 0 <= i < |es| :: (es + [e])[i] == es[i];
  }

  lemma HandledMore(s: SinkView, es: seq<ChangeEvent>, e: ChangeEvent)
    requires SameDomain(s.cache)
    ensures var before := HandledAll(s, es);
            var after := Handled(before.1, e, NO_SINK_FAILURE);
            HandledAll(s, es + [e]) == (before.0 && after.0.Ok?, after.1)
  {
    hide Handled;
    assert (es + [e])[..|es|] == es;
  }

  /** Over every history of the source the tables hold the sink's rows, and an error is reported exactly when the
      sink does not take some event. */
  lemma {:induction false} HistoryIsHandled(rels: Relations, s: SinkView, m: State, acts: seq<Act>)
    requires SuitableAll(rels) && Coherent(rels, s) && Holds(rels, s.db, m) && AllKeyed(rels, m)
    requires rels.Keys == m.Keys && SourceRun(rels, m, acts).Some?
    ensures SameDomain(s.cache)
    ensures var (fine, s2) := HandledAll(s, Emitted(acts));
            (fine <==> AllTaken(rels, Emitted(acts))) && Coherent(rels, s2) &&
                Holds(rels, s2.db, SinkRun(rels, m, acts))
  {
    hide SuitableAll, Coherent, Holds, AllKeyed, Handled, SourceNext, SinkWrite, Takes, AllTaken;
    CoherentDomain(rels, s);
    if acts == [] {
      NothingEmitted(rels);
    } else {
      var last := |acts| - 1;
      var front := acts[..last];
      HistoryIsHandled(rels, s, m, front);
      SourceRunStaysKeyed(rels, m, front);
      if acts[last].Emits? {
        var e, es := acts[last].event, Emitted(front);
        hide HandledAll;
        HandledMore(s, es, e);
        AllTakenMore(rels, es, e);
        EventIsHandled(rels, HandledAll(s, es).1, SinkRun(rels, m, front), SourceRun(rels, m, front).value, e);
      } else {
        assert Emitted(acts) == Emitted(front);
      }
    }
  }

  lemma NothingEmitted(rels: Relations)
    ensures Emitted([]) == [] && AllTaken(rels, [])
  {
  }

  lemma CoherentDomain(rels: Relations, s: SinkView)
    requires Coherent(rels, s)
    ensures SameDomain(s.cache)
  {
  }

  // ----- What the tables hold -----

  predicate SinkWritesAt(rels: Relations, a: Act, oid: UInt32, key: seq<PgValue>)
  {
    a.Emits? && AcceptableEvent(rels, a.event) && WritesAt(rels, a.event, oid, key)
  }

  /** How much of the history there was when the sink last wrote under a key; 0 when it never did. */
  function LastWritten(rels: Relations, acts: seq<Act>, oid: UInt32, key: seq<PgValue>): (n: nat)
    ensures n <= |acts|
  {
    if acts == [] then 0
    else if SinkWritesAt(rels, acts[|acts| - 1], oid, key) then |acts|
    else LastWritten(rels, acts[..|acts| - 1], oid, key)
  }

  lemma {:induction false} SourceRunPrefix(rels: Relations, m: State, acts: seq<Act>, n: nat)
    requires rels.Keys == m.Keys && n <= |acts| && SourceRun(rels, m, acts).Some?
    ensures SourceRun(rels, m, acts[..n]).Some?
  {
    hide SourceNext;
    if n < |acts| {
      assert acts[..|acts| - 1][..n] == acts[..n];
      SourceRunPrefix(rels, m, acts[..|acts| - 1], n);
    } else {
      assert acts[..n] == acts;
    }
  }

  /** Under the key it writes, an event leaves in the tables what it leaves in the source. */
  lemma WriteAgreesWithSource(rels: Relations, m: State, held: State, a: Act, oid: UInt32, key: seq<PgValue>)
    requires AllKeyed(rels, m) && SourceNext(rels, m, a).Some? && rels.Keys == held.Keys
    requires SinkWritesAt(rels, a, oid, key)
    ensures Lookup(SinkNext(rels, held, a), oid, key) == Lookup(SourceNext(rels, m, a).value, oid, key)
  {
    hide Keyed, RowsNext, Acceptable, KeyWritten, Written;
    var e := a.event;
    WriteAgrees(rels[e.rel], m[e.rel], held[e.rel], e.op);
  }

  /** Where the sink writes, what it leaves does not depend on what was there; elsewhere it leaves everything alone. */
  lemma SinkWritesBlindly(rels: Relations, m1: State, m2: State, e: ChangeEvent, oid: UInt32, key: seq<PgValue>)
    requires rels.Keys == m1.Keys == m2.Keys
    ensures if SinkWritesAt(rels, Emits(e), oid, key)
            then Lookup(SinkWrite(rels, m1, e), oid, key) == Lookup(SinkWrite(rels, m2, e), oid, key)
            else Lookup(SinkWrite(rels, m1, e), oid, key) == Lookup(m1, oid, key)
  {
    hide Applied, AcceptableEvent, WritesAt, Lookup;
    if AcceptableEvent(rels, e) {
      WritesAreBlind(rels, m1, m2, e, oid, key);
    }
  }

  /** At every point of every history the sink's tables hold, under each key, the source's row as of the last event
      that the sink wrote there. */
  lemma {:induction false} SinkHoldsLastWritten(rels: Relations, m: State, acts: seq<Act>, oid: UInt32,
                                                key: seq<PgValue>)
    requires rels.Keys == m.Keys && AllKeyed(rels, m) && SourceRun(rels, m, acts).Some?
    ensures SourceRun(rels, m, acts[..LastWritten(rels, acts, oid, key)]).Some?
    ensures Lookup(SinkRun(rels, m, acts), oid, key) ==
            Lookup(SourceRun(rels, m, acts[..LastWritten(rels, acts, oid, key)]).value, oid, key)
  {
    hide AllKeyed, SourceNext, SinkWrite, Lookup, SinkWritesAt;
    SourceRunPrefix(rels, m, acts, LastWritten(rels, acts, oid, key));
    if acts == [] {
      assert acts[..0] == [];
    } else {
      var last := |acts| - 1;
      var front, a := acts[..last], acts[last];
      SourceRunStaysKeyed(rels, m, front);
      if SinkWritesAt(rels, a, oid, key) {
        assert acts[..|acts|] == acts;
        hide SinkNext;
        WriteAgreesWithSource(rels, SourceRun(rels, m, front).value, SinkRun(rels, m, front), a, oid, key);
      } else {
        SinkHoldsLastWritten(rels, m, front, oid, key);
        var n := LastWritten(rels, front, oid, key);
        assert acts[..n] == front[..n];
        if a.Emits? {
          SinkWritesBlindly(rels, SinkRun(rels, m, front), SinkRun(rels, m, front), a.event, oid, key);
        }
      }
    }
  }

  // ----- When the tables agree -----

  lemma SameNames(names: seq<string>, a: seq<PgValue>, b: seq<PgValue>)
    requires Distinct(names) && |a| == |b| == |names| && Named(names, a) == Named(names, b)
    ensures a == b
  {
    hide Named;
    NamedAt(names, a);
    NamedAt(names, b);
    forall i: nat | i < |a| ensures a[i] == b[i] {
      assert At(Named(names, a), names[i]) == a[i] && At(Named(names, b), names[i]) == b[i];
    }
  }

  lemma SubtableDetermines(fields: seq<Field>, a: Contents, b: Contents, k: seq<PgValue>)
    requires Distinct(FieldNames(fields)) && Keyed(fields, a) && Keyed(fields, b) && k in a
    requires TableOf(FieldNames(fields), a) <= TableOf(FieldNames(fields), b)
    ensures k in b && b[k] == a[k]
  {
    hide Named, FieldNames, KeyOf, Distinct;
    var names := FieldNames(fields);
    assert Named(names, a[k]) in TableOf(names, a);
    var k2 :| k2 in b && Named(names, b[k2]) == Named(names, a[k]);
    SameNames(names, a[k], b[k2]);
  }

  /** A table holds the rows of one contents only. */
  lemma TableDetermines(fields: seq<Field>, a: Contents, b: Contents)
    requires Distinct(FieldNames(fields)) && Keyed(fields, a) && Keyed(fields, b)
    requires TableOf(FieldNames(fields), a) == TableOf(FieldNames(fields), b)
    ensures a == b
  {
    hide FieldNames, Keyed, TableOf, Distinct;
    forall k | k in a ensures k in b && b[k] == a[k] {
      SubtableDetermines(fields, a, b, k);
    }
    forall k | k in b ensures k in a && a[k] == b[k] {
      SubtableDetermines(fields, b, a, k);
    }
  }

  lemma DbDetermines(rels: Relations, db: Db, a: State, b: State)
    requires SuitableAll(rels) && Holds(rels, db, a) && Holds(rels, db, b)
    ensures a == b
  {
    hide FieldNames, Keyed, TableOf, Chars;
    forall oid | oid in rels ensures a[oid] == b[oid] {
      assert Suitable(rels[oid]) && HoldsTable(rels[oid], db, a[oid]) && HoldsTable(rels[oid], db, b[oid]);
      TableDetermines(rels[oid].fields, a[oid], b[oid]);
    }
  }

  lemma HoldIffSameRows(rels: Relations, db: Db, held: State, other: State)
    requires SuitableAll(rels) && Holds(rels, db, held)
    ensures Holds(rels, db, other) <==> held == other
  {
    hide SuitableAll, Holds;
    if Holds(rels, db, other) {
      DbDetermines(rels, db, held, other);
    }
  }

  lemma SameLookups(a: State, b: State)
    requires a.Keys == b.Keys
    ensures a == b <==> forall oid, key :: Lookup(a, oid, key) == Lookup(b, oid, key)
  {
    if forall oid, key :: Lookup(a, oid, key) == Lookup(b, oid, key) {
      forall oid | oid in a ensures a[oid] == b[oid] {
        forall key: seq<PgValue>
          ensures key in a[oid] <==> key in b[oid]
          ensures key in a[oid] ==> a[oid][key] == b[oid][key]
        {
          assert Lookup(a, oid, key) == Lookup(b, oid, key);
        }
      }
    }
  }

  /** The source's row under a key has not changed since the sink last wrote there. */
  predicate UpToDate(rels: Relations, m: State, acts: seq<Act>, oid: UInt32, key: seq<PgValue>)
    requires rels.Keys == m.Keys && SourceRun(rels, m, acts).Some?
  {
    SourceRunPrefix(rels, m, acts, LastWritten(rels, acts, oid, key));
    Lookup(SourceRun(rels, m, acts).value, oid, key) ==
    Lookup(SourceRun(rels, m, acts[..LastWritten(rels, acts, oid, key)]).value, oid, key)
  }

  lemma SameRowsIffUpToDate(rels: Relations, m: State, acts: seq<Act>)
    requires rels.Keys == m.Keys && AllKeyed(rels, m) && SourceRun(rels, m, acts).Some?
    ensures SinkRun(rels, m, acts) == SourceRun(rels, m, acts).value <==>
            forall oid, key :: UpToDate(rels, m, acts, oid, key)
  {
    hide AllKeyed, SourceRun, SinkRun, Lookup, LastWritten;
    var sink, source := SinkRun(rels, m, acts), SourceRun(rels, m, acts).value;
    SameLookups(source, sink);
    forall oid, key ensures UpToDate(rels, m, acts, oid, key) <==> Lookup(source, oid, key) == Lookup(sink, oid, key) {
      SinkHoldsLastWritten(rels, m, acts, oid, key);
    }
  }

  /** After any history of the source, the tables hold exactly the source's rows if and only if under every key the
      source's row has not changed since the sink last wrote there. */
  lemma TablesAgreeIffUpToDate(rels: Relations, s: SinkView, m: State, acts: seq<Act>)
    requires SuitableAll(rels) && Coherent(rels, s) && Holds(rels, s.db, m) && AllKeyed(rels, m)
    requires rels.Keys == m.Keys && SourceRun(rels, m, acts).Some?
    ensures SameDomain(s.cache)
    ensures Holds(rels, HandledAll(s, Emitted(acts)).1.db, SourceRun(rels, m, acts).value) <==>
            forall oid, key :: UpToDate(rels, m, acts, oid, key)
  {
    hide SuitableAll, Coherent, Holds, AllKeyed, SourceRun, SinkRun, HandledAll, UpToDate, Emitted;
    CoherentDomain(rels, s);
    HistoryIsHandled(rels, s, m, acts);
    HoldIffSameRows(rels, HandledAll(s, Emitted(acts)).1.db, SinkRun(rels, m, acts), SourceRun(rels, m, acts).value);
    SameRowsIffUpToDate(rels, m, acts);
  }

  // ----- When they agree throughout -----

  /** The sink takes the event and the row keeps its key, or the sink does not and the event changes nothing either; and
      nothing changes unseen. */
  predicate Followed(rels: Relations, m: State, a: Act)
    requires rels.Keys == m.Keys && SourceNext(rels, m, a).Some?
  {
    match a
    case Emits(e) => if Takes(rels, e) then KeepsKey(rels[e.rel], e.op) else SourceNext(rels, m, a).value == m
    case Unseen(oid, rows) => m[oid] == rows
  }

  /** While the rows agree, they go on to agree exactly when the act is followed. */
  lemma RowsAgreeIffFollowed(rels: Relations, m: State, a: Act)
    requires AllKeyed(rels, m) && SourceNext(rels, m, a).Some?
    ensures SinkNext(rels, m, a) == SourceNext(rels, m, a).value <==> Followed(rels, m, a)
  {
    match a {
      case Emits(e) => EventAgreesIffFollowed(rels, m, e);
      case Unseen(oid, rows) =>
        assert m[oid := rows][oid] == rows;
        assert m[oid] == rows ==> m[oid := rows] == m;
    }
  }

  lemma EventAgreesIffFollowed(rels: Relations, m: State, e: ChangeEvent)
    requires AllKeyed(rels, m) && SourceNext(rels, m, Emits(e)).Some?
    ensures SinkWrite(rels, m, e) == SourceNext(rels, m, Emits(e)).value <==> Followed(rels, m, Emits(e))
  {
    AcceptableIffTaken(rels, m, e);
    if Takes(rels, e) {
      var rel, rows := rels[e.rel], m[e.rel];
      assert Keyed(rel.fields, rows) && AcceptableEvent(rels, e);
      var source, sink := RowsNext(rel, rows, e.op).value, Written(rel.fields, rows, WriteOf(e.op));
      assert SinkWrite(rels, m, e) == m[e.rel := sink] && SourceNext(rels, m, Emits(e)).value == m[e.rel := source];
      assert m[e.rel := sink][e.rel] == sink && m[e.rel := source][e.rel] == source;
      hide AllKeyed, SinkWrite, SourceNext, Keyed, RowsNext, Acceptable, Written, KeepsKey;
      if KeepsKey(rel, e.op) {
        RowsAgree(rel, rows, e.op);
      } else {
        MovedRowStaysBehind(rel, rows, e.op);
      }
    }
  }

  lemma RowsAgree(rel: Relation, rows: Contents, op: Op)
    requires Keyed(rel.fields, rows) && RowsNext(rel, rows, op).Some? && Acceptable(rel, op) && KeepsKey(rel, op)
    ensures RowsNext(rel, rows, op).value == Written(rel.fields, rows, WriteOf(op))
  {
    var source, sink, w := RowsNext(rel, rows, op).value, Written(rel.fields, rows, WriteOf(op)), WriteOf(op);
    assert forall key :: key != KeyWritten(rel.fields, w) ==> Find(sink, key) == Find(rows, key);
    hide RowsNext, Keyed, Acceptable, KeepsKey, Written, KeyWritten, WriteOf;
    forall key ensures Find(source, key) == Find(sink, key) {
      WriteAgrees(rel, rows, rows, op);
      if key != KeyWritten(rel.fields, w) {
        ElsewhereStays(rel, rows, op, key);
      }
    }
    SameFinds(source, sink);
  }

  lemma SameFinds(a: Contents, b: Contents)
    requires forall key :: Find(a, key) == Find(b, key)
    ensures a == b
  {
    forall key: seq<PgValue> ensures key in a <==> key in b ensures key in a ==> a[key] == b[key] {
      assert Find(a, key) == Find(b, key);
    }
  }

  predicate FollowedAt(rels: Relations, m: State, acts: seq<Act>, i: nat)
    requires rels.Keys == m.Keys && SourceRun(rels, m, acts).Some? && i < |acts|
  {
    SourceStep(rels, m, acts, i);
    Followed(rels, SourceRun(rels, m, acts[..i]).value, acts[i])
  }

  lemma SourceStep(rels: Relations, m: State, acts: seq<Act>, i: nat)
    requires rels.Keys == m.Keys && SourceRun(rels, m, acts).Some? && i < |acts|
    ensures SourceRun(rels, m, acts[..i]).Some? && SourceRun(rels, m, acts[..i + 1]).Some?
    ensures SourceNext(rels, SourceRun(rels, m, acts[..i]).value, acts[i]) == SourceRun(rels, m, acts[..i + 1])
  {
    hide SourceNext;
    SourceRunPrefix(rels, m, acts, i);
    SourceRunPrefix(rels, m, acts, i + 1);
    assert acts[..i + 1][..i] == acts[..i];
  }

  /** After `k` events the tables hold exactly the source's rows. */
  predicate AgreeAt(rels: Relations, s: SinkView, m: State, acts: seq<Act>, k: nat)
    requires rels.Keys == m.Keys && SourceRun(rels, m, acts).Some? && k <= |acts| && SameDomain(s.cache)
  {
    SourceRunPrefix(rels, m, acts, k);
    Holds(rels, HandledAll(s, Emitted(acts[..k])).1.db, SourceRun(rels, m, acts[..k]).value)
  }

  predicate RowsSameAt(rels: Relations, m: State, acts: seq<Act>, k: nat)
    requires rels.Keys == m.Keys && k <= |acts|
  {
    SourceRun(rels, m, acts[..k]).Some? && SinkRun(rels, m, acts[..k]) == SourceRun(rels, m, acts[..k]).value
  }

  lemma AgreeIffSameRows(rels: Relations, s: SinkView, m: State, acts: seq<Act>, k: nat)
    requires SuitableAll(rels) && Coherent(rels, s) && Holds(rels, s.db, m) && AllKeyed(rels, m)
    requires rels.Keys == m.Keys && SourceRun(rels, m, acts).Some? && k <= |acts|
    ensures SameDomain(s.cache)
    ensures AgreeAt(rels, s, m, acts, k) <==> RowsSameAt(rels, m, acts, k)
  {
    hide SuitableAll, Coherent, Holds, AllKeyed, SourceRun, SinkRun, HandledAll;
    CoherentDomain(rels, s);
    SourceRunPrefix(rels, m, acts, k);
    HistoryIsHandled(rels, s, m, acts[..k]);
    if AgreeAt(rels, s, m, acts, k) {
      DbDetermines(rels, HandledAll(s, Emitted(acts[..k])).1.db, SourceRun(rels, m, acts[..k]).value,
                   SinkRun(rels, m, acts[..k]));
    }
  }

  lemma SameRowsNext(rels: Relations, m: State, acts: seq<Act>, i: nat)
    requires rels.Keys == m.Keys && AllKeyed(rels, m) && SourceRun(rels, m, acts).Some? && i < |acts|
    ensures RowsSameAt(rels, m, acts, i) ==> (RowsSameAt(rels, m, acts, i + 1) <==> FollowedAt(rels, m, acts, i))
  {
    hide AllKeyed, SourceNext, SinkNext, Followed;
    SourceStep(rels, m, acts, i);
    SourceRunStaysKeyed(rels, m, acts[..i]);
    assert acts[..i + 1][..i] == acts[..i];
    RowsAgreeIffFollowed(rels, SourceRun(rels, m, acts[..i]).value, acts[i]);
  }

  lemma StartsSame(rels: Relations, m: State, acts: seq<Act>)
    requires rels.Keys == m.Keys
    ensures RowsSameAt(rels, m, acts, 0)
  {
    assert acts[..0] == [];
  }

  lemma FollowedOn(rels: Relations, m: State, acts: seq<Act>, k: nat)
    requires rels.Keys == m.Keys && AllKeyed(rels, m) && SourceRun(rels, m, acts).Some? && k < |acts|
    requires RowsSameAt(rels, m, acts, k) && FollowedAt(rels, m, acts, k)
    ensures RowsSameAt(rels, m, acts, k + 1)
  {
    hide AllKeyed, SourceRun, SinkRun, FollowedAt;
    SameRowsNext(rels, m, acts, k);
  }

  lemma {:induction false} FollowedSoFar(rels: Relations, m: State, acts: seq<Act>, k: nat)
    requires rels.Keys == m.Keys && AllKeyed(rels, m) && SourceRun(rels, m, acts).Some? && k <= |acts|
    requires forall i: nat | i < |acts| :: FollowedAt(rels, m, acts, i)
    ensures RowsSameAt(rels, m, acts, k)
  {
    hide AllKeyed, SourceRun, RowsSameAt, FollowedAt;
    if k == 0 {
      StartsSame(rels, m, acts);
    } else {
      FollowedSoFar(rels, m, acts, k - 1);
      FollowedOn(rels, m, acts, k - 1);
    }
  }

  /** For every history of the source, over any number of relations: the tables hold the source's rows after every
      act if and only if every act is followed: the sink takes the event and the row keeps its key, or nothing reaches
      the sink that it takes and nothing changes. */
  lemma TablesAlwaysAgreeIffFollowed(rels: Relations, s: SinkView, m: State, acts: seq<Act>)
    requires SuitableAll(rels) && Coherent(rels, s) && Holds(rels, s.db, m) && AllKeyed(rels, m)
    requires rels.Keys == m.Keys && SourceRun(rels, m, acts).Some?
    ensures SameDomain(s.cache)
    ensures (forall k: nat | k <= |acts| :: AgreeAt(rels, s, m, acts, k)) <==>
            forall i: nat | i < |acts| :: FollowedAt(rels, m, acts, i)
  {
    hide SuitableAll, Coherent, Holds, AllKeyed, SourceRun, SinkRun, AgreeAt, FollowedAt, RowsSameAt;
    CoherentDomain(rels, s);
    if forall k: nat | k <= |acts| :: AgreeAt(rels, s, m, acts, k) {
      forall i: nat | i < |acts| ensures FollowedAt(rels, m, acts, i) {
        AgreeIffSameRows(rels, s, m, acts, i);
        AgreeIffSameRows(rels, s, m, acts, i + 1);
        SameRowsNext(rels, m, acts, i);
      }
    }
    if forall i: nat | i < |acts| :: FollowedAt(rels, m, acts, i) {
      forall k: nat | k <= |acts| ensures AgreeAt(rels, s, m, acts, k) {
        FollowedSoFar(rels, m, acts, k);
        AgreeIffSameRows(rels, s, m, acts, k);
      }
    }
  }

  /** An event that the sink takes and that keeps its key. */
  predicate FollowsEvent(rels: Relations, a: Act)
  {
    a.Emits? && Takes(rels, a.event) && (a.event.rel in rels ==> KeepsKey(rels[a.event.rel], a.event.op))
  }

  /** Sink mirrors source: if the sink takes every event and every row keeps its key, every event is handled without
      an error and the tables hold exactly the source's rows. */
  lemma SinkMirrorsSource(rels: Relations, s: SinkView, m: State, acts: seq<Act>)
    requires SuitableAll(rels) && Coherent(rels, s) && Holds(rels, s.db, m) && AllKeyed(rels, m)
    requires rels.Keys == m.Keys && SourceRun(rels, m, acts).Some?
    requires forall i | 0 <= i < |acts| :: FollowsEvent(rels, acts[i])
    ensures SameDomain(s.cache)
    ensures var (fine, s2) := HandledAll(s, Emitted(acts));
            fine && Coherent(rels, s2) && Holds(rels, s2.db, SourceRun(rels, m, acts).value)
  {
    hide SuitableAll, Coherent, Holds, AllKeyed, SourceRun, SinkRun, HandledAll, FollowsEvent, Emitted, AllTaken,
      FollowedAt;
    CoherentDomain(rels, s);
    HistoryIsHandled(rels, s, m, acts);
    EmittedMerge(rels, acts);
    forall i: nat | i < |acts| ensures FollowedAt(rels, m, acts, i) {
      EventIsFollowed(rels, m, acts, i);
    }
    FollowedSoFar(rels, m, acts, |acts|);
    assert acts[..|acts|] == acts;
  }

  lemma EventIsFollowed(rels: Relations, m: State, acts: seq<Act>, i: nat)
    requires rels.Keys == m.Keys && SourceRun(rels, m, acts).Some? && i < |acts| && FollowsEvent(rels, acts[i])
    ensures FollowedAt(rels, m, acts, i)
  {
    hide SourceRun, Takes, KeepsKey;
    SourceStep(rels, m, acts, i);
  }

  lemma {:induction false} EmittedMerge(rels: Relations, acts: seq<Act>)
    requires forall i | 0 <= i < |acts| :: FollowsEvent(rels, acts[i])
    ensures AllTaken(rels, Emitted(acts))
  {
    hide Takes, KeepsKey;
    if acts != [] {
      EmittedMerge(rels, acts[..|acts| - 1]);
      assert FollowsEvent(rels, acts[|acts| - 1]);
    }
  }

  // ----- Full identity -----

  lemma WholeRowIsKey(rel: Relation, values: seq<PgValue>)
    requires Suitable(rel) && rel.replicaId == Row && |values| == |rel.fields|
    ensures KeyOf(rel.fields, values) == values
  {
    hide FieldNames, KeyIndexes;
    AllKeysIff(rel.fields);
  }

  /** Under full identity every column is a key, so an update keeps its key only when it changes nothing: the sink
      follows no update that changes its row, and the old row stays in its table beside the new one. */
  lemma FullIdentityUpdates(rel: Relation, rows: Contents, before: seq<PgValue>, row: seq<PgValue>)
    requires Suitable(rel) && rel.replicaId == Row && Keyed(rel.fields, rows)
    requires RowsNext(rel, rows, Update(before, row)).Some?
    ensures var source := RowsNext(rel, rows, Update(before, row)).value;
            var sink := Written(rel.fields, rows, WriteOf(Update(before, row)));
            && MergeOp(Update(before, row)).Some? && |before| == |row| == |rel.fields|
            && (KeepsKey(rel, Update(before, row)) <==> Merged(before, row) == before)
            && (KeepsKey(rel, Update(before, row)) ==> source == rows)
            && (!KeepsKey(rel, Update(before, row)) ==> before !in source && before in sink)
  {
    hide Suitable, KeyOf, Merged, MergeOp, Storable, KeyIndexes, Keyed;
    assert |before| == |row| == |rel.fields|;
    OldRowMerges(before, row);
    WholeRowIsKey(rel, before);
    WholeRowIsKey(rel, Merged(before, row));
  }
}
