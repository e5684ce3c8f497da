/** The PostgreSQL sink: an event becomes one statement with its values bound, and the tables mirror the source. */
module PostgresSinks {
  import opened Wrappers
  import opened Wire
  import opened ChangeEvents
  import opened TupleDecoder
  import opened RelationDecoder
  import opened KeyTuple
  import opened MessageDecoder
  import opened Toast
  import opened Sql
  import opened SqlGrammar
  import opened RelationCaches
  import opened Database

  // ----- One event -----

  datatype SinkView = SinkView(cache: CacheView, upserts: Statements, deletes: Statements, db: Db)

  /** Whether preparing and executing succeed as far as the server and the connection are concerned. */
  datatype SinkOutcomes = SinkOutcomes(prepare: bool, execute: bool)

  type SinkResult = Result<(), SinkError>

  /** The old values that stand at the positions of the key columns. */
  function Filtered(values: seq<PgValue>, positions: set<nat>): (kept: seq<PgValue>)
    ensures |kept| <= |values|
  {
    if values == [] then []
    else
      var last := |values| - 1;
      Filtered(values[..last], positions) + if last in positions then [values[last]] else []
  }

  function DeleteArgs(identity: Identity, before: seq<PgValue>): seq<PgValue>
  {
    match identity
    case Full => before
    case KeyColumns(positions) => Filtered(before, positions)
  }

  function Executed(s: SinkView, statement: Statement, args: seq<PgValue>, ok: bool): (r: (SinkResult, SinkView))
    ensures r.1.cache == s.cache
  {
    match Execute(s.db, statement, args, ok)
    case Ok(db) => (Ok(()), s.(db := db))
    case Err(e) => (Err(e), s)
  }

  function WriteRow(s: SinkView, oid: UInt32, row: seq<PgValue>, o: SinkOutcomes): (r: (SinkResult, SinkView))
    requires SameDomain(s.cache)
    ensures r.1.cache == s.cache
  {
    var (statement, upserts) := Got(s.upserts, s.cache, oid, FreshUpsert, o.prepare);
    match statement
    case Ok(st) => Executed(s.(upserts := upserts), st, row, o.execute)
    case Err(e) => (Err(e), s.(upserts := upserts))
  }

  function RemoveRow(s: SinkView, oid: UInt32, before: seq<PgValue>, o: SinkOutcomes): (r: (SinkResult, SinkView))
    requires SameDomain(s.cache)
    ensures r.1.cache == s.cache
  {
    var (statement, deletes) := Got(s.deletes, s.cache, oid, FreshDelete, o.prepare);
    match statement
    case Err(e) => (Err(e), s.(deletes := deletes))
    case Ok(st) =>
      if oid !in s.cache.identities then (Err(SinkError.UnknownRelation(oid)), s.(deletes := deletes))
      else Executed(s.(deletes := deletes), st, DeleteArgs(s.cache.identities[oid], before), o.execute)
  }

  function Handled(s: SinkView, event: ChangeEvent, o: SinkOutcomes): (r: (SinkResult, SinkView))
    requires SameDomain(s.cache)
    ensures r.1.cache == s.cache
  {
    match MergeOp(event.op)
    case None => (Err(ToastedInKeyOnly), s)
    case Some(Insert(row)) => WriteRow(s, event.rel, row, o)
    case Some(Update(_, row)) => WriteRow(s, event.rel, row, o)
    case Some(Delete(before)) => RemoveRow(s, event.rel, before, o)
  }

  class PostgresSink {
    const relations: RelationCache
    const upserts: UpsertStatementCache
    const deletes: DeleteStatementCache
    var db: Db

    function View(): SinkView
      reads this, relations, upserts, deletes
    {
      SinkView(relations.View(), upserts.statements, deletes.statements, db)
    }

    constructor (rels: Relations, db: Db)
      ensures View() == SinkView(CacheOf(rels), map[], map[], db)
      ensures fresh(relations) && fresh(upserts) && fresh(deletes)
    {
      relations := new RelationCache.FromRels(rels);
      upserts := new UpsertStatementCache();
      deletes := new DeleteStatementCache();
      this.db := db;
    }

    method Run(statement: Statement, args: seq<PgValue>, ok: bool) returns (r: SinkResult)
      modifies this
      ensures (r, View()) == Executed(old(View()), statement, args, ok)
    {
      hide Execute;
      var executed := Execute(db, statement, args, ok);
      match executed {
        case Ok(after) =>
          db := after;
          return Ok(());
        case Err(e) =>
          return Err(e);
      }
    }

    method Put(oid: UInt32, row: seq<PgValue>, o: SinkOutcomes) returns (r: SinkResult)
      requires SameDomain(relations.View())
      modifies this, upserts
      ensures (r, View()) == WriteRow(old(View()), oid, row, o)
    {
      hide Execute, Got;
      var statement := upserts.Get(oid, relations, o.prepare);
      match statement {
        case Ok(st) => r := Run(st, row, o.execute);
        case Err(e) => r := Err(e);
      }
    }

    method Remove(oid: UInt32, before: seq<PgValue>, o: SinkOutcomes) returns (r: SinkResult)
      requires SameDomain(relations.View())
      modifies this, deletes
      ensures (r, View()) == RemoveRow(old(View()), oid, before, o)
    {
      hide Execute, Got;
      var statement := deletes.Get(oid, relations, o.prepare);
      match statement {
        case Ok(st) =>
          if oid !in relations.identities {
            return Err(SinkError.UnknownRelation(oid));
          }
          r := Run(st, DeleteArgs(relations.identities[oid], before), o.execute);
        case Err(e) => r := Err(e);
      }
    }

    method OnEvent(event: ChangeEvent, o: SinkOutcomes) returns (r: SinkResult)
      requires SameDomain(relations.View())
      modifies this, upserts, deletes
      ensures (r, View()) == Handled(old(View()), event, o)
    {
      hide WriteRow, RemoveRow;
      var merged := MergeInOp(event.op);
      match merged {
        case None => return Err(ToastedInKeyOnly);
        case Some(Insert(row)) => r := Put(event.rel, row, o);
        case Some(Update(_, row)) => r := Put(event.rel, row, o);
        case Some(Delete(before)) => r := Remove(event.rel, before, o);
      }
    }

    method OnRelation(rel: Relation)
      modifies relations
      ensures View() == old(View()).(cache := Updated(old(View()).cache, rel))
    {
      relations.Update(rel);
    }
  }

  // ----- Binding the delete -----

  /** The key columns come first. */
  predicate PrefixKeys(fields: seq<Field>)
  {
    forall j | 0 <= j < |KeyIndexes(fields)| :: KeyIndexes(fields)[j] == j
  }

  predicate AllIn(n: nat, positions: set<nat>)
  {
    forall i: nat | i < n :: i in positions
  }

  lemma AllInMore(n: nat, positions: set<nat>)
    ensures AllIn(n + 1, positions) <==> AllIn(n, positions) && n in positions
  {
  }

  lemma {:induction false} FilteredKeepsAllIff(values: seq<PgValue>, positions: set<nat>)
    ensures |Filtered(values, positions)| == |values| <==> AllIn(|values|, positions)
    ensures |Filtered(values, positions)| == |values| ==> Filtered(values, positions) == values
  {
    if values != [] {
      hide AllIn;
      var last := |values| - 1;
      FilteredKeepsAllIff(values[..last], positions);
      AllInMore(last, positions);
      assert values == values[..last] + [values[last]];
    }
  }

  /** The positions are those of the keys, whatever their order. */
  lemma KeyPositionsAreTheIndexes(fields: seq<Field>)
    ensures forall i: nat :: i in KeyPositions(fields) <==> i in KeyIndexes(fields)
  {
    hide KeyIndexes;
    KeysAreTheFlaggedColumns(fields);
  }

  lemma PrefixKeysIff(fields: seq<Field>)
    ensures PrefixKeys(fields) <==> forall i: nat | i < |KeyIndexes(fields)| :: i in KeyPositions(fields)
  {
    var ks := KeyIndexes(fields);
    hide KeyIndexes, KeyPositions;
    KeyPositionsAreTheIndexes(fields);
    if PrefixKeys(fields) {
      forall i: nat | i < |ks| ensures i in KeyPositions(fields) {
        assert ks[i] == i;
      }
    }
    if forall i: nat | i < |ks| :: i in KeyPositions(fields) {
      PrefixOfPositions(ks);
    }
  }

  /** Filtering values that are already the key keeps all of them exactly when the key columns come first. */
  lemma KeySurvivesFilterIffPrefix(fields: seq<Field>, key: seq<PgValue>)
    requires |key| == |KeyIndexes(fields)|
    ensures Filtered(key, KeyPositions(fields)) == key <==> PrefixKeys(fields)
    ensures |Filtered(key, KeyPositions(fields))| == |key| <==> PrefixKeys(fields)
  {
    hide KeyIndexes, KeyPositions, Filtered, PrefixKeys;
    PrefixKeysIff(fields);
    FilteredKeepsAllIff(key, KeyPositions(fields));
  }

  /** The j-th condition names the j-th key column and is bound to the value sent for that column. */
  predicate BindsKey(statement: Statement, args: seq<PgValue>, ws: seq<WireValue>, fields: seq<Field>)
    requires |ws| == |fields|
  {
    && |args| == Params(statement) == |KeyIndexes(fields)| == |KeyNames(fields)|
    && statement.Delete?
    && forall j | 0 <= j < |args| ::
         statement.conditions[j] == (KeyNames(fields)[j], j + 1) && args[j] == ValueOf(ws[KeyIndexes(fields)[j]])
  }

  lemma PreparedDelete(table: string, fields: seq<Field>)
    requires IsName(table) && AllNames(KeyNames(fields)) && KeyIndexes(fields) != []
    ensures FreshDelete(Shape(table, FieldNames(fields), KeyNames(fields))) ==
            Some(Statement.Delete(table, Numbered(KeyNames(fields))))
    ensures |KeyNames(fields)| == |KeyIndexes(fields)|
  {
    hide ReadDelete, DeleteText, KeyNames, KeyIndexes, IsName, FieldNames;
    KeyNamesAreTheProjection(fields);
    DeleteReadsBack(table, KeyNames(fields));
  }

  /** The deletes whose key reaches the sink whole and is bound whole. */
  predicate Bindable(fields: seq<Field>)
  {
    PrefixKeys(fields) && KeySurvives(fields)
  }

  /** Delete, from the server's octets to the bound values, for a key tuple of any width: the event decodes and the
      statement gets as many values as it has placeholders exactly when the key columns come first and, from seven
      columns on, every column is a key; then each condition is bound to the value the server sent for its column.
      Otherwise the event or the statement is refused. */
  lemma DeleteBindsIffPrefixKeys(relations: RelationMap, oid: UInt32, ws: seq<WireValue>, table: string, rest: Bytes)
    requires Announced(relations, oid) && WellFormedOldKey(ws, relations[oid].inner)
    requires IsName(table) && AllNames(KeyNames(relations[oid].inner.fields))
    ensures var rel := relations[oid].inner;
            var decoded := ParseDelete(PrintMessage(oid, DeleteMsg(OldKey(ws))) + rest, relations);
            var prepared := FreshDelete(Shape(table, FieldNames(rel.fields), KeyNames(rel.fields)));
            && prepared.Some? && |ws| == |rel.fields|
            && (|rel.fields| <= 6 ==> decoded.Ok?)
            && (decoded.Ok? ==> decoded.value.0.op.Delete? && decoded.value.0.rel == oid)
            && (Bindable(rel.fields) ==> decoded.Ok?)
            && (decoded.Ok? ==> BoundIff(rel, decoded.value.0.op.before, prepared.value, ws))
  {
    WidthOfKeyTuple(ws, relations[oid].inner.fields);
    var rel := relations[oid].inner;
    assert KeyTupleFor(ws, rel.fields) && KeyIndexes(rel.fields) != [] && rel.replicaId == Keys;
    hide ParseDelete, PrintMessage, FreshDelete, KeyNames, KeySurvives, KeyTupleFor, FieldNames, KeyIndexes, IsName,
      AllNames, ValuesAt, UpToCut, BoundIff, Announced, WellFormedOldKey, PrefixKeys;
    PreparedDelete(table, rel.fields);
    if |rel.fields| <= 6 {
      DeleteOfKeyTuple(relations, oid, ws, rest);
      NarrowBound(rel, ws, table);
    } else {
      DeleteOfWideKeyTuple(relations, oid, ws, rest);
      if KeySurvives(rel.fields) {
        WideBound(rel, ws, table);
      }
    }
  }

  /** The values bound fit the statement exactly when the key is bindable, and then they are the key. */
  predicate BoundIff(rel: Relation, before: seq<PgValue>, statement: Statement, ws: seq<WireValue>)
    requires |ws| == |rel.fields|
  {
    var args := DeleteArgs(KeyIdentity(rel), before);
    && (|args| == Params(statement) <==> Bindable(rel.fields))
    && (Bindable(rel.fields) ==> BindsKey(statement, args, ws, rel.fields))
  }

  lemma NarrowBound(rel: Relation, ws: seq<WireValue>, table: string)
    requires rel.replicaId == Keys && KeyTupleFor(ws, rel.fields) && KeyIndexes(rel.fields) != [] && |rel.fields| <= 6
    ensures |ws| == |rel.fields|
    ensures BoundIff(rel, UpToCut(ws, KeyIndexes(rel.fields)).0,
            Statement.Delete(table, Numbered(KeyNames(rel.fields))), ws)
  {
    hide KeyNames, KeyPositions, PrefixKeys, Filtered, UpToCut, KeySurvives, KeyTupleFor, KeyIndexes, ValuesAt;
    KeyTupleArgs(ws, rel.fields);
    PrefixKeysSurvive(rel.fields);
    KeyNamesAreTheProjection(rel.fields);
  }

  lemma WideBound(rel: Relation, ws: seq<WireValue>, table: string)
    requires rel.replicaId == Keys && |ws| == |rel.fields| >= 7 && KeySurvives(rel.fields)
    ensures Bindable(rel.fields)
    ensures BoundIff(rel, ValuesAt(ws, KeyIndexes(rel.fields)), Statement.Delete(table, Numbered(KeyNames(rel.fields))),
            ws)
  {
    hide KeyNames, KeyPositions, PrefixKeys, Filtered, KeySurvives, KeyIndexes;
    WideKeyArgs(ws, rel.fields);
    KeyNamesAreTheProjection(rel.fields);
  }

  lemma PrefixKeysSurvive(fields: seq<Field>)
    requires |fields| <= 6
    ensures PrefixKeys(fields) ==> KeySurvives(fields)
  {
  }

  /** With seven columns or more, a key that survives is every column, and so it is bound whole. */
  lemma WideKeyArgs(ws: seq<WireValue>, fields: seq<Field>)
    requires |ws| == |fields| >= 7
    ensures KeySurvives(fields) ==> PrefixKeys(fields)
    ensures KeySurvives(fields) ==>
              Filtered(ValuesAt(ws, KeyIndexes(fields)), KeyPositions(fields)) == ValuesAt(ws, KeyIndexes(fields))
  {
    hide KeyIndexes, KeyPositions, Filtered, ValuesAt;
    if KeySurvives(fields) {
      AllKeysIff(fields);
      KeySurvivesFilterIffPrefix(fields, ValuesAt(ws, KeyIndexes(fields)));
    }
  }

  lemma DeleteOfWideKeyTuple(relations: RelationMap, oid: UInt32, ws: seq<WireValue>, rest: Bytes)
    requires Announced(relations, oid) && WellFormedOldKey(ws, relations[oid].inner) &&
             |relations[oid].inner.fields| >= 7
    ensures |ws| == |relations[oid].inner.fields|
    ensures var rel := relations[oid].inner;
            var r := ParseDelete(PrintMessage(oid, DeleteMsg(OldKey(ws))) + rest, relations);
            if KeySurvives(rel.fields)
            then r == Ok((ChangeEvent(Op.Delete(ValuesAt(ws, KeyIndexes(rel.fields))), oid), relations[oid]))
            else r.Err?
  {
    WidthOfKeyTuple(ws, relations[oid].inner.fields);
    hide GetOldTupleData, PrintOld, PrintMessage, PrintTuple, ParseDelete, ParseKeyTuple, ValuesAt, KeyIndexes,
      KeyFields;
    DeleteIsItsOldTuple(relations, oid, OldKey(ws), rest);
    OldKeyIsItsTuple(ws, relations[oid], rest);
    WideKeyTupleResult(ws, relations[oid].inner.fields, rest);
  }

  /** What the sink binds of a decoded key tuple. */
  lemma KeyTupleArgs(ws: seq<WireValue>, fields: seq<Field>)
    requires KeyTupleFor(ws, fields) && KeyIndexes(fields) != []
    ensures |ws| == |fields|
    ensures var args := Filtered(UpToCut(ws, KeyIndexes(fields)).0, KeyPositions(fields));
            && (|args| == |KeyIndexes(fields)| <==> PrefixKeys(fields))
            && (PrefixKeys(fields) ==> args == ValuesAt(ws, KeyIndexes(fields)))
  {
    CutKey(ws, fields);
    hide KeyIndexes, KeyPositions, Filtered, UpToCut, KeyTupleFor, ValuesAt, PrefixKeys;
    var cut := UpToCut(ws, KeyIndexes(fields)).0;
    if |cut| == |KeyIndexes(fields)| {
      KeySurvivesFilterIffPrefix(fields, cut);
    } else if PrefixKeys(fields) {
      PrefixKeysAreNotCut(ws, fields);
    }
  }

  lemma ReadCutKey(ws: seq<WireValue>, relation: RelationData, rest: Bytes)
    requires Consistent(relation) && WellFormedOldKey(ws, relation.inner) && |relation.inner.fields| <= 6
    ensures |ws| == |relation.inner.fields|
    ensures var r := GetOldTupleData(PrintOld(OldKey(ws)) + rest, relation);
            r.Ok? && r.value.0 == UpToCut(ws, KeyIndexes(relation.inner.fields)).0
  {
    WidthOfKeyTuple(ws, relation.inner.fields);
    hide ParseKeyTuple, GetOldTupleData, PrintOld, PrintTuple, KeyTupleFor, KeyIndexes, KeyFields, UpToCut, Increasing;
    KeyTupleResult(ws, relation.inner.fields, rest);
    OldKeyIsItsTuple(ws, relation, rest);
  }

  /** What a delete with a key tuple decodes to, whether or not that is the whole key. */
  lemma DeleteOfKeyTuple(relations: RelationMap, oid: UInt32, ws: seq<WireValue>, rest: Bytes)
    requires Announced(relations, oid) && WellFormedOldKey(ws, relations[oid].inner) &&
             |relations[oid].inner.fields| <= 6
    ensures |ws| == |relations[oid].inner.fields|
    ensures ParseDelete(PrintMessage(oid, DeleteMsg(OldKey(ws))) + rest, relations) ==
            Ok((ChangeEvent(Op.Delete(UpToCut(ws, KeyIndexes(relations[oid].inner.fields)).0), oid), relations[oid]))
  {
    ReadCutKey(ws, relations[oid], rest);
    hide GetOldTupleData, PrintOld, PrintMessage, ParseDelete, WellFormedOldKey, UpToCut, Consistent, KeyIndexes;
    DeleteIsItsOldTuple(relations, oid, OldKey(ws), rest);
  }

  /** The decoded values are the key up to the cut. */
  lemma CutKey(ws: seq<WireValue>, fields: seq<Field>)
    requires KeyTupleFor(ws, fields) && KeyIndexes(fields) != []
    ensures |ws| == |fields|
    ensures var cut := UpToCut(ws, KeyIndexes(fields)).0;
            && |cut| <= |KeyIndexes(fields)|
            && (|cut| == |KeyIndexes(fields)| ==> cut == ValuesAt(ws, KeyIndexes(fields)))
  {
    hide PrintCols, KeyIndexes;
    var ks := KeyIndexes(fields);
    assert Cut(ks, 0) == |ks| - 1 ==> ks[..Cut(ks, 0) + 1] == ks;
  }

  lemma PrefixKeysAreNotCut(ws: seq<WireValue>, fields: seq<Field>)
    requires KeyTupleFor(ws, fields) && KeyIndexes(fields) != [] && PrefixKeys(fields)
    ensures |ws| == |fields|
    ensures |UpToCut(ws, KeyIndexes(fields)).0| == |KeyIndexes(fields)|
  {
    hide PrintCols, KeyIndexes;
    CutIsLastIffPrefix(KeyIndexes(fields));
  }

  /** Under full identity the whole old row is bound, which fits the conditions exactly when every column is a key. */
  lemma FullDeleteBindsIffAllKeys(rel: Relation, before: seq<PgValue>)
    requires rel.replicaId == Row && |before| == |rel.fields|
    requires IsName(Chars(rel.name)) && AllNames(KeyNames(rel.fields)) && KeyNames(rel.fields) != []
    ensures var fields, args := rel.fields, DeleteArgs(KeyIdentity(rel), before);
            var prepared := FreshDelete(ShapeOf(rel));
            && prepared.Some? && |KeyNames(fields)| <= |fields|
            && (|args| == Params(prepared.value) <==> forall i | 0 <= i < |fields| :: fields[i].isKey)
            && (|args| == Params(prepared.value) ==>
                  forall j | 0 <= j < |fields| ::
                    prepared.value.conditions[j] == (Chars(fields[j].name), j + 1) && args[j] == before[j])
  {
    hide FreshDelete, KeyNames, KeyIndexes, IsName, FieldNames, Chars;
    KeyNamesAreTheProjection(rel.fields);
    PreparedDelete(Chars(rel.name), rel.fields);
    AllKeysIff(rel.fields);
  }
}
