/** Where an index out of range stops the program, whatever octets arrive. */
module OutOfRange {
  import opened Wrappers
  import opened Wire
  import opened ChangeEvents
  import opened NulSearch
  import opened RelationDecoder
  import opened TupleDecoder
  import opened KeyTuple
  import opened MessageDecoder
  import opened Producer
  import opened Acceptance

  // ----- Relations -----

  /** The message ends after the first octet of the column count. */
  ghost predicate CountIsCut(data: Bytes)
  {
    exists namespace, name, identity, octet :: CutHeader(data, namespace, name, identity, octet)
  }

  predicate CutHeader(data: Bytes, namespace: Bytes, name: Bytes, identity: ReplicaKind, octet: Byte)
  {
    && |data| >= 10 && ValidName(namespace) && ValidName(name)
    && data[5..] == namespace + [NUL] + (name + [NUL] + [IdentityOctet(identity), octet])
  }

  /** After its name, a stored column lacks some of the eight octets of its type. */
  ghost predicate TypeIsCut(data: Bytes)
  {
    |data| >= 10 && exists isKey, name, tail :: CutColumn(data, isKey, name, tail)
  }

  predicate CutColumn(data: Bytes, isKey: bool, name: Bytes, tail: Bytes)
  {
    ValidName(name) && |tail| < 8 && data == [if isKey then 1 else 0] + name + [NUL] + tail
  }

  lemma StoppedColumn(data: Bytes)
    requires ParseField(data) == Err(IndexPanic)
    ensures |data| >= 10 && ExtractString(data[1..]).Ok? && data[0] < 2
    ensures |data| < |ExtractString(data[1..]).value| + 10
  {
    hide ValidUtf8, U32, Ascii, FirstNul;
  }

  lemma ColumnStopsIff(data: Bytes)
    ensures ParseField(data) == Err(IndexPanic) <==> TypeIsCut(data)
  {
    if ParseField(data) == Err(IndexPanic) {
      StoppedColumn(data);
      hide ValidName, U32, ExtractString, ParseField;
      NameInColumn(data);
      var s := ExtractString(data[1..]).value;
      assert CutColumn(data, data[0] == 1, s, data[|s| + 2..]);
    }
    if TypeIsCut(data) {
      hide ParseField, CutColumn;
      var isKey, name, tail :| CutColumn(data, isKey, name, tail);
      CutColumnStops(data, isKey, name, tail);
    }
  }

  lemma CutColumnStops(data: Bytes, isKey: bool, name: Bytes, tail: Bytes)
    requires |data| >= 10 && CutColumn(data, isKey, name, tail)
    ensures ParseField(data) == Err(IndexPanic)
  {
    hide ValidName, U32, ExtractString;
    assert data[0] == (if isKey then 1 else 0) && data[1..] == name + [NUL] + tail;
    ExtractTerminated(name, tail);
  }

  lemma StoppedHeader(data: Bytes)
    requires ParseHeader(data) == Err(IndexPanic)
    ensures |data| >= 10 && ExtractString(data[5..]).Ok?
    ensures var a := 5 + |ExtractString(data[5..]).value| + 1;
            && ExtractString(data[a..]).Ok? && |data| == a + |ExtractString(data[a..]).value| + 3
            && ReplicaFromTag(data[|data| - 2]).Ok?
  {
    hide ValidUtf8, U16, U32, Ascii, FirstNul;
  }

  lemma HeaderStopsIff(data: Bytes)
    ensures ParseHeader(data) == Err(IndexPanic) <==> CountIsCut(data)
  {
    hide ParseHeader, CutHeader;
    if ParseHeader(data) == Err(IndexPanic) {
      StoppedHeaderIsCut(data);
    }
    if CountIsCut(data) {
      var namespace, name, identity, octet :| CutHeader(data, namespace, name, identity, octet);
      CutHeaderStops(data, namespace, name, identity, octet);
    }
  }

  lemma StoppedHeaderIsCut(data: Bytes)
    requires ParseHeader(data) == Err(IndexPanic)
    ensures CountIsCut(data)
  {
    StoppedHeader(data);
    hide ValidName, U16, U32, ExtractString, ParseHeader, IdentityOctet, ReplicaFromTag;
    var namespace := ExtractString(data[5..]).value;
    var a := 5 + |namespace| + 1;
    var name := ExtractString(data[a..]).value;
    var b := |data| - 2;
    var identity := ReplicaFromTag(data[b]).value;
    StringAt(data, 5);
    StringAt(data, a);
    AcceptedIdentity(data[b]);
    assert data[5..] == data[5..a] + (data[a..b] + [data[b], data[b + 1]]);
    assert CutHeader(data, namespace, name, identity, data[b + 1]);
  }

  lemma CutHeaderStops(data: Bytes, namespace: Bytes, name: Bytes, identity: ReplicaKind, octet: Byte)
    requires CutHeader(data, namespace, name, identity, octet)
    ensures ParseHeader(data) == Err(IndexPanic)
  {
    hide ValidName, U16, U32, ExtractString;
    var a, ends := 5 + |namespace| + 1, [IdentityOctet(identity), octet];
    ExtractTerminated(namespace, name + [NUL] + ends);
    assert data[a..] == data[5..][|namespace| + 1..] == name + [NUL] + ends;
    ExtractTerminated(name, ends);
    assert data[a..][|name| + 1] == IdentityOctet(identity);
  }

  /** After `j` columns that were read, the message is over, or the next one is cut. */
  ghost predicate ColumnsRunOver(data: Bytes, at: nat, j: nat)
  {
    ParseFields(data, at, j).Ok? &&
    var end := at + |PrintColumns(ColumnsIn(data, at, j))|;
    end > |data| || TypeIsCut(data[end..])
  }

  lemma {:induction false} ColumnsStopIff(data: Bytes, at: nat, n: nat)
    ensures ParseFields(data, at, n) == Err(IndexPanic) <==> exists j: nat | j < n :: ColumnsRunOver(data, at, j)
    decreases n
  {
    hide ParseField, TypeIsCut, PrintColumn, ColumnIn;
    if n > 0 {
      FirstRunsOver(data, at);
      if at <= |data| {
        ColumnStopsIff(data[at..]);
        forall j: nat | 0 < j < n
          ensures ColumnsRunOver(data, at, j) <==>
                  ParseField(data[at..]).Ok? &&
                  ColumnsRunOver(data, at + ParseField(data[at..]).value.size, j - 1)
        {
          LaterRunsOver(data, at, j);
        }
        if ParseField(data[at..]).Ok? {
          var next := at + ParseField(data[at..]).value.size;
          ColumnsStopIff(data, next, n - 1);
          if exists j: nat | j < n - 1 :: ColumnsRunOver(data, next, j) {
            var j: nat :| j < n - 1 && ColumnsRunOver(data, next, j);
            assert ColumnsRunOver(data, at, j + 1);
          }
        }
      }
    }
  }

  lemma FirstRunsOver(data: Bytes, at: nat)
    ensures ColumnsRunOver(data, at, 0) <==> at > |data| || TypeIsCut(data[at..])
  {
    hide TypeIsCut;
  }

  lemma LaterRunsOver(data: Bytes, at: nat, j: nat)
    requires at <= |data| && 0 < j
    ensures ColumnsRunOver(data, at, j) <==>
            && ParseField(data[at..]).Ok?
            && ColumnsRunOver(data, at + ParseField(data[at..]).value.size, j - 1)
  {
    hide ParseField, TypeIsCut, PrintColumn, ColumnIn;
    if ParseField(data[at..]).Ok? {
      AcceptedColumn(data[at..]);
    }
  }

  /** The message ends inside the column count, before a column that it announces, or inside the type of a stored
      column, and everything before was read. */
  ghost predicate RelationRunsOver(data: Bytes)
  {
    || CountIsCut(data)
    || (ParseHeader(data).Ok? && exists j: nat | j < ParseHeader(data).value.columns ::
          ColumnsRunOver(data, ParseHeader(data).value.end, j))
  }

  /** Whatever the octets, a relation stops the program exactly when it runs over its end. */
  lemma RelationStopsIff(data: Bytes)
    ensures ParseRelation(data) == Err(IndexPanic) <==> RelationRunsOver(data)
  {
    hide ParseHeader, ParseFields, CountIsCut, ColumnsRunOver;
    HeaderStopsIff(data);
    if ParseHeader(data).Ok? {
      ColumnsStopIff(data, ParseHeader(data).value.end, ParseHeader(data).value.columns);
    }
  }

  // ----- Key tuples -----

  /** In a specialised arm: the j-th key is reached, and the octets before it were read; but they are over, or it is a
      text that runs over their end. */
  predicate KeyRunsOver(data: Bytes, at: nat, i: nat, n: nat, keyIdx: nat, fields: seq<KeyField>, indexes: seq<nat>,
                        totalFields: nat, j: nat)
    requires n <= totalFields && keyIdx <= j < |indexes| == |fields| && Increasing(indexes) && i <= indexes[keyIdx]
  {
    assert keyIdx < j ==> indexes[keyIdx] < indexes[j];
    && indexes[j] < n && (forall s | keyIdx <= s < j :: indexes[s] < |indexes| - 1)
    && var before := KeyCols(data, at, i, indexes[j], keyIdx, fields, indexes, totalFields);
       before.Ok? && (before.value.1 > |data| || TextRunsOver(data[before.value.1..], fields[j].kind))
  }

  predicate SomeKeyRunsOver(data: Bytes, at: nat, i: nat, n: nat, keyIdx: nat, fields: seq<KeyField>,
                            indexes: seq<nat>, totalFields: nat)
    requires n <= totalFields && keyIdx < |indexes| == |fields| && Increasing(indexes) && i <= indexes[keyIdx]
  {
    exists j: nat | keyIdx <= j < |indexes| ::
      KeyRunsOver(data, at, i, n, keyIdx, fields, indexes, totalFields, j)
  }

  lemma AtNonKey(data: Bytes, at: nat, i: nat, n: nat, keyIdx: nat, fields: seq<KeyField>, indexes: seq<nat>,
                 totalFields: nat, j: nat)
    requires n <= totalFields && keyIdx <= j < |indexes| == |fields| && Increasing(indexes) && i < indexes[keyIdx]
    ensures KeyRunsOver(data, at, i, n, keyIdx, fields, indexes, totalFields, j) <==>
            KeyRunsOver(data, at + 1, i + 1, n, keyIdx, fields, indexes, totalFields, j)
  {
    hide ParseValue, TextRunsOver;
    assert keyIdx < j ==> indexes[keyIdx] < indexes[j];
  }

  lemma AtKey(data: Bytes, at: nat, i: nat, n: nat, keyIdx: nat, fields: seq<KeyField>, indexes: seq<nat>,
              totalFields: nat, j: nat)
    requires n <= totalFields && keyIdx < j < |indexes| == |fields| && Increasing(indexes) && i == indexes[keyIdx]
    requires at <= |data|
    ensures i + 1 <= indexes[keyIdx + 1]
    ensures var value := ParseValue(data[at..], fields[keyIdx].kind, false);
            KeyRunsOver(data, at, i, n, keyIdx, fields, indexes, totalFields, j) <==>
            && i < |indexes| - 1 && value.Ok?
            && KeyRunsOver(data, at + value.value.1, i + 1, n, keyIdx + 1, fields, indexes, totalFields, j)
  {
    hide ParseValue, TextRunsOver;
    assert indexes[keyIdx] < indexes[keyIdx + 1];
    assert indexes[keyIdx] < indexes[j];
  }

  lemma AtFirstKey(data: Bytes, at: nat, n: nat, keyIdx: nat, fields: seq<KeyField>, indexes: seq<nat>,
                   totalFields: nat)
    requires n <= totalFields && keyIdx < |indexes| == |fields| && Increasing(indexes)
    ensures KeyRunsOver(data, at, indexes[keyIdx], n, keyIdx, fields, indexes, totalFields, keyIdx) <==>
            indexes[keyIdx] < n && (at > |data| || TextRunsOver(data[at..], fields[keyIdx].kind))
  {
    hide ParseValue, TextRunsOver;
  }

  lemma SomeAtNonKey(data: Bytes, at: nat, i: nat, n: nat, keyIdx: nat, fields: seq<KeyField>, indexes: seq<nat>,
                     totalFields: nat)
    requires n <= totalFields && keyIdx < |indexes| == |fields| && Increasing(indexes) && i < indexes[keyIdx]
    ensures SomeKeyRunsOver(data, at, i, n, keyIdx, fields, indexes, totalFields) <==>
            SomeKeyRunsOver(data, at + 1, i + 1, n, keyIdx, fields, indexes, totalFields)
  {
    hide KeyRunsOver;
    if SomeKeyRunsOver(data, at, i, n, keyIdx, fields, indexes, totalFields) {
      var j: nat :| keyIdx <= j < |indexes| && KeyRunsOver(data, at, i, n, keyIdx, fields, indexes, totalFields, j);
      AtNonKey(data, at, i, n, keyIdx, fields, indexes, totalFields, j);
    }
    if SomeKeyRunsOver(data, at + 1, i + 1, n, keyIdx, fields, indexes, totalFields) {
      var j: nat :|
        keyIdx <= j < |indexes| && KeyRunsOver(data, at + 1, i + 1, n, keyIdx, fields, indexes, totalFields, j);
      AtNonKey(data, at, i, n, keyIdx, fields, indexes, totalFields, j);
    }
  }

  /** At a key: it runs over itself, or it is read and a later one does. */
  lemma SomeAtKey(data: Bytes, at: nat, n: nat, keyIdx: nat, fields: seq<KeyField>, indexes: seq<nat>,
                  totalFields: nat)
    requires n <= totalFields && keyIdx < |indexes| == |fields| && Increasing(indexes) && indexes[keyIdx] < n
    requires at <= |data|
    ensures indexes[keyIdx] < |indexes| - 1 ==> keyIdx + 1 < |indexes| && indexes[keyIdx] + 1 <= indexes[keyIdx + 1]
    ensures var i, value := indexes[keyIdx], ParseValue(data[at..], fields[keyIdx].kind, false);
            SomeKeyRunsOver(data, at, i, n, keyIdx, fields, indexes, totalFields) <==>
            || TextRunsOver(data[at..], fields[keyIdx].kind)
            || (i < |indexes| - 1 && value.Ok?
                && SomeKeyRunsOver(data, at + value.value.1, i + 1, n, keyIdx + 1, fields, indexes, totalFields))
  {
    hide KeyRunsOver, ParseValue, TextRunsOver;
    var i, value := indexes[keyIdx], ParseValue(data[at..], fields[keyIdx].kind, false);
    IncreasingClimbs(indexes, keyIdx);
    AtFirstKey(data, at, n, keyIdx, fields, indexes, totalFields);
    if SomeKeyRunsOver(data, at, i, n, keyIdx, fields, indexes, totalFields) {
      var j: nat :| keyIdx <= j < |indexes| && KeyRunsOver(data, at, i, n, keyIdx, fields, indexes, totalFields, j);
      if j > keyIdx {
        AtKey(data, at, i, n, keyIdx, fields, indexes, totalFields, j);
      }
    }
    if i < |indexes| - 1 && value.Ok? {
      assert indexes[keyIdx] < indexes[keyIdx + 1];
      var next := at + value.value.1;
      if SomeKeyRunsOver(data, next, i + 1, n, keyIdx + 1, fields, indexes, totalFields) {
        var j: nat :|
          && keyIdx + 1 <= j < |indexes|
          && KeyRunsOver(data, next, i + 1, n, keyIdx + 1, fields, indexes, totalFields, j);
        AtKey(data, at, i, n, keyIdx, fields, indexes, totalFields, j);
      }
    }
  }

  /** Column by column. */
  lemma {:induction false} KeyArmStopsIff(data: Bytes, at: nat, i: nat, n: nat, keyIdx: nat, fields: seq<KeyField>,
                                          indexes: seq<nat>, totalFields: nat)
    requires n <= totalFields && keyIdx < |indexes| == |fields| && Increasing(indexes) && i <= indexes[keyIdx] && i <= n
    ensures KeyCols(data, at, i, n, keyIdx, fields, indexes, totalFields) == Err(IndexPanic) <==>
            SomeKeyRunsOver(data, at, i, n, keyIdx, fields, indexes, totalFields)
    decreases n - i
  {
    hide ParseValue, TextRunsOver, KeyRunsOver;
    if i == n {
      NoKeyBeyond(data, at, n, keyIdx, fields, indexes, totalFields);
    } else if i < indexes[keyIdx] {
      KeyArmStopsIff(data, at + 1, i + 1, n, keyIdx, fields, indexes, totalFields);
      SomeAtNonKey(data, at, i, n, keyIdx, fields, indexes, totalFields);
    } else {
      AtFirstKey(data, at, n, keyIdx, fields, indexes, totalFields);
      if at <= |data| {
        KeyArmAtKey(data, at, n, keyIdx, fields, indexes, totalFields);
      }
    }
  }

  lemma NoKeyBeyond(data: Bytes, at: nat, n: nat, keyIdx: nat, fields: seq<KeyField>, indexes: seq<nat>,
                      totalFields: nat)
    requires n <= totalFields && keyIdx < |indexes| == |fields| && Increasing(indexes) && n <= indexes[keyIdx]
    ensures !SomeKeyRunsOver(data, at, n, n, keyIdx, fields, indexes, totalFields)
  {
    hide ParseValue, TextRunsOver;
    forall j: nat | keyIdx <= j < |indexes|
      ensures !KeyRunsOver(data, at, n, n, keyIdx, fields, indexes, totalFields, j)
    {
      assert keyIdx < j ==> indexes[keyIdx] < indexes[j];
    }
  }

  lemma {:induction false} KeyArmAtKey(data: Bytes, at: nat, n: nat, keyIdx: nat, fields: seq<KeyField>,
                                       indexes: seq<nat>, totalFields: nat)
    requires n <= totalFields && keyIdx < |indexes| == |fields| && Increasing(indexes) && indexes[keyIdx] < n
    requires at <= |data|
    ensures KeyCols(data, at, indexes[keyIdx], n, keyIdx, fields, indexes, totalFields) == Err(IndexPanic) <==>
            SomeKeyRunsOver(data, at, indexes[keyIdx], n, keyIdx, fields, indexes, totalFields)
    decreases n - indexes[keyIdx], 0
  {
    hide ParseValue, TextRunsOver, SomeKeyRunsOver;
    var i, value := indexes[keyIdx], ParseValue(data[at..], fields[keyIdx].kind, false);
    SomeAtKey(data, at, n, keyIdx, fields, indexes, totalFields);
    ValueStopsIff(data[at..], fields[keyIdx].kind, false);
    if value.Ok? && i < |indexes| - 1 {
      KeyArmStopsIff(data, at + value.value.1, i + 1, n, keyIdx + 1, fields, indexes, totalFields);
    }
  }

  predicate SomeColumnRunsOver(data: Bytes, fields: seq<Field>)
  {
    exists j: nat | j < |fields| :: ColumnRunsOver(data, 2, fields, false, j)
  }

  /** In the general arm: a key runs over, or there are more columns than keys and the keys were read. */
  predicate GeneralRunsOver(data: Bytes, n: nat, fields: seq<KeyField>)
  {
    if n <= |fields| then SomeColumnRunsOver(data, AsFields(fields[..n]))
    else SomeColumnRunsOver(data, AsFields(fields)) || ParseCols(data, 2, AsFields(fields), false).Ok?
  }

  lemma GeneralArmStopsIff(data: Bytes, n: nat, fields: seq<KeyField>)
    requires |data| >= 2
    ensures GeneralKeyCols(data, n, fields) == Err(IndexPanic) <==> GeneralRunsOver(data, n, fields)
  {
    hide ParseCols, ColumnRunsOver, AsFields;
    ColsStopIff(data, 2, AsFields(if n <= |fields| then fields[..n] else fields), false);
  }

  /** A tuple of one to six columns without a key among them, a key that runs over, or too few keys in the general
      arm. */
  predicate KeysRunOver(data: Bytes, relation: RelationData)
    requires Consistent(relation)
  {
    KeyFieldsAreTheProjection(relation.inner.fields);
    && |data| >= 2 && U16(data) <= |relation.inner.fields|
    && if 1 <= U16(data) <= 6
       then || relation.keyIndexes == []
            || SomeKeyRunsOver(data, 2, 0, U16(data), 0, relation.keyFields, relation.keyIndexes,
                               |relation.inner.fields|)
       else GeneralRunsOver(data, U16(data), relation.keyFields)
  }

  lemma KeyTupleStopsIff(data: Bytes, relation: RelationData)
    requires Consistent(relation)
    ensures ParseKeyTuple(data, relation.keyFields, relation.keyIndexes, |relation.inner.fields|) ==
            Err(IndexPanic) <==>
            KeysRunOver(data, relation)
  {
    KeyFieldsAreTheProjection(relation.inner.fields);
    hide U16, GeneralRunsOver, GeneralKeyCols, SomeKeyRunsOver, KeyFields, KeyIndexes;
    var total := |relation.inner.fields|;
    if |data| >= 2 && U16(data) <= total {
      var n := U16(data);
      if 1 <= n <= 6 {
        if relation.keyIndexes != [] {
          KeyArmStopsIff(data, 2, 0, n, 0, relation.keyFields, relation.keyIndexes, total);
        }
      } else {
        GeneralArmStopsIff(data, n, relation.keyFields);
      }
    }
  }

  // ----- Changes -----

  predicate OldRunsOver(data: Bytes, relation: RelationData)
    requires Consistent(relation)
  {
    data != [] &&
    match relation.inner.replicaId
    case Keys => data[0] == WIRE_KEY && KeysRunOver(data[1..], relation)
    case Row => data[0] == WIRE_OLD && TupleRunsOver(data[1..], relation.inner.fields, false)
  }

  predicate NewRunsOver(data: Bytes, fields: seq<Field>, isUpdate: bool)
  {
    data != [] && data[0] == WIRE_NEW && TupleRunsOver(data[1..], fields, isUpdate)
  }

  lemma OldStopsIff(data: Bytes, relation: RelationData)
    requires Consistent(relation)
    ensures GetOldTupleData(data, relation) == Err(IndexPanic) <==> OldRunsOver(data, relation)
  {
    hide ParseKeyTuple, ParseTuple, KeysRunOver, TupleRunsOver, Consistent;
    if data != [] {
      KeyTupleStopsIff(data[1..], relation);
      TupleStopsIff(data[1..], relation.inner.fields, false);
    }
  }

  lemma NewStopsIff(data: Bytes, fields: seq<Field>, isUpdate: bool)
    ensures GetNewTupleData(data, fields, isUpdate) == Err(IndexPanic) <==> NewRunsOver(data, fields, isUpdate)
  {
    hide ParseTuple, TupleRunsOver;
    if data != [] {
      TupleStopsIff(data[1..], fields, isUpdate);
    }
  }

  /** The relation of the message, if it is known, is as it was parsed. */
  predicate KnownConsistently(data: Bytes, relations: RelationMap)
  {
    |data| >= 5 && U32(data[1..]) in relations ==> Consistent(relations[U32(data[1..])])
  }

  /** A tuple runs over: the new tuple of an update begins where its old one is said to end. */
  predicate ChangeRunsOver(data: Bytes, relations: RelationMap)
    requires KnownConsistently(data, relations)
  {
    |data| >= 5 && U32(data[1..]) in relations &&
    var relation, body := relations[U32(data[1..])], data[5..];
    if data[0] == WIRE_INSERT then NewRunsOver(body, relation.inner.fields, false)
    else if data[0] == WIRE_DELETE then OldRunsOver(body, relation)
    else
      var front := OldOrNothing(GetOldTupleData(body, relation));
      || OldRunsOver(body, relation)
      || (front.Ok? && front.value.1 <= |body| && NewRunsOver(body[front.value.1..], relation.inner.fields, true))
  }

  lemma ChangeStopsIff(data: Bytes, relations: RelationMap)
    requires IsChange(data) && KnownConsistently(data, relations)
    ensures ParseChange(data, relations) == Err(IndexPanic) <==> ChangeRunsOver(data, relations)
  {
    hide U32, GetOldTupleData, GetNewTupleData, NewRunsOver, OldRunsOver, Consistent;
    if |data| >= 5 && U32(data[1..]) in relations {
      var relation, body := relations[U32(data[1..])], data[5..];
      NewStopsIff(body, relation.inner.fields, false);
      OldStopsIff(body, relation);
      var front := OldOrNothing(GetOldTupleData(body, relation));
      if front.Ok? && front.value.1 <= |body| {
        assert data[front.value.1 + 5..] == body[front.value.1..];
        NewStopsIff(body[front.value.1..], relation.inner.fields, true);
      }
    }
  }

  // ----- The program -----

  predicate AllConsistent(relations: RelationMap)
  {
    forall oid | oid in relations :: Consistent(relations[oid])
  }

  lemma ParsedIsConsistent(data: Bytes)
    requires ParseRelation(data).Ok?
    ensures Consistent(ParseRelation(data).value)
  {
    hide ParseHeader, ParseFields, KeyIndexes, KeyFields;
  }

  lemma OneKeepsConsistent(s: Session, ev: ReplicationEvent, o: Outcomes)
    requires AllConsistent(s.relations)
    ensures AllConsistent(Handle(s, ev, o).relations)
  {
    hide ParseRelation, ParseChange, Consistent, OnRelation, OnChange, OnBegin, OnCommit;
    if ev.XLogData? && ParseRelation(ev.data).Ok? {
      ParsedIsConsistent(ev.data);
    }
  }

  /** Whatever a session was told, every relation it knows is as it was parsed. */
  lemma {:induction false} SessionsKnowConsistently(s: Session, evs: seq<(ReplicationEvent, Outcomes)>)
    requires AllConsistent(s.relations)
    ensures AllConsistent(HandleAll(s, evs).relations)
  {
    hide AllConsistent, Handle;
    if evs != [] {
      var last := |evs| - 1;
      SessionsKnowConsistently(s, evs[..last]);
      OneKeepsConsistent(HandleAll(s, evs[..last]), evs[last].0, evs[last].1);
    }
  }

  /** Whatever arrives, and whatever becomes of the calls: the octets at which the program stops. */
  lemma ProgramStopsIff(s: Session, data: Bytes, o: Outcomes)
    requires !s.stopped && KnownConsistently(data, s.relations)
    ensures Handle(s, XLogData(data), o).stopped <==>
            || data == []
            || (data[0] == WIRE_RELATION && RelationRunsOver(data))
            || (data[0] in {WIRE_INSERT, WIRE_UPDATE, WIRE_DELETE} && s.txn.inTransaction
                && ChangeRunsOver(data, s.relations))
  {
    hide ParseChange, ParseRelation, RelationRunsOver, ChangeRunsOver, KnownConsistently;
    RelationStopsIff(data);
    if IsChange(data) {
      ChangeStopsIff(data, s.relations);
    }
  }

  /** So in every session of a fresh program: the next message stops it exactly when its octets run over. */
  lemma SessionStopsIff(txn: Txn, evs: seq<(ReplicationEvent, Outcomes)>, data: Bytes, o: Outcomes)
    requires !HandleAll(Session(map[], txn, false), evs).stopped
    ensures var so := HandleAll(Session(map[], txn, false), evs);
            && KnownConsistently(data, so.relations)
            && (Handle(so, XLogData(data), o).stopped <==>
                || data == []
                || (data[0] == WIRE_RELATION && RelationRunsOver(data))
                || (data[0] in {WIRE_INSERT, WIRE_UPDATE, WIRE_DELETE} && so.txn.inTransaction
                    && ChangeRunsOver(data, so.relations)))
  {
    hide HandleAll, Handle, RelationRunsOver, ChangeRunsOver, Consistent;
    SessionsKnowConsistently(Session(map[], txn, false), evs);
    ProgramStopsIff(HandleAll(Session(map[], txn, false), evs), data, o);
  }
}
