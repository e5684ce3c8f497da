/** Insert, update and delete messages: the parsers, and the printer they undo. */
module MessageDecoder {
  import opened Wrappers
  import opened Wire
  import opened ChangeEvents
  import opened RelationDecoder
  import opened TupleDecoder
  import opened KeyTuple

  const TAG_INSERT := 'I' as Byte
  const TAG_UPDATE := 'U' as Byte
  const TAG_DELETE := 'D' as Byte
  const TAG_NEW := 'N' as Byte
  const TAG_OLD := 'O' as Byte
  const TAG_KEY := 'K' as Byte

  type RelationMap = map<UInt32, RelationData>

  // ----- Parsers -----

  function GetOldTupleData(data: Bytes, relation: RelationData): Decoded<(seq<PgValue>, nat)>
  {
    if data == [] then Err(TruncatedInput)
    else if data[0] == TAG_KEY then
      if relation.inner.replicaId != Keys then Err(WrongOldTupleKind(Keys))
      else
        var r :- ParseKeyTuple(data[1..], relation.keyFields, relation.keyIndexes, |relation.inner.fields|);
        Ok((r.0, r.1 + 1))
    else if data[0] == TAG_OLD then
      if relation.inner.replicaId != Row then Err(WrongOldTupleKind(Row))
      else
        var r :- ParseTuple(data[1..], relation.inner.fields, false);
        Ok((r.0, r.1 + 1))
    else Err(WrongOldTupleKey(data[0]))
  }

  function GetNewTupleData(data: Bytes, fields: seq<Field>, isUpdate: bool): Decoded<seq<PgValue>>
  {
    if data == [] then Err(TruncatedInput)
    else if data[0] != TAG_NEW then Err(WrongNewTupleKey(data[0]))
    else
      var r :- ParseTuple(data[1..], fields, isUpdate);
      Ok(r.0)
  }

  /** The relation a message is about. */
  function MessageRelation(data: Bytes, relations: RelationMap): Decoded<(UInt32, RelationData)>
  {
    if |data| < 5 then Err(TruncatedInput)
    else
      var oid := U32(data[1..]);
      if oid in relations then Ok((oid, relations[oid])) else Err(UnknownRelation(oid))
  }

  function ParseInsert(data: Bytes, relations: RelationMap): (r: Decoded<(ChangeEvent, RelationData)>)
  {
    var (_, relation) :- MessageRelation(data, relations);
    var row :- GetNewTupleData(data[5..], relation.inner.fields, false);
    Ok((ChangeEvent(Insert(row), relation.inner.oid), relation))
  }

  function ParseDelete(data: Bytes, relations: RelationMap): (r: Decoded<(ChangeEvent, RelationData)>)
  {
    var (oid, relation) :- MessageRelation(data, relations);
    var (before, _) :- GetOldTupleData(data[5..], relation);
    Ok((ChangeEvent(Delete(before), oid), relation))
  }

  function ParseUpdate(data: Bytes, relations: RelationMap): (r: Decoded<(ChangeEvent, RelationData)>)
  {
    var (oid, relation) :- MessageRelation(data, relations);
    var (before, oldDataEnd) :- OldOrNothing(GetOldTupleData(data[5..], relation));
    if |data| < oldDataEnd + 5 then Err(TruncatedInput)
    else
      var row :- GetNewTupleData(data[oldDataEnd + 5..], relation.inner.fields, true);
      Ok((ChangeEvent(Update(before, row), oid), relation))
  }

  /** An update whose first tuple is already the new one has no old tuple. */
  function OldOrNothing(r: Decoded<(seq<PgValue>, nat)>): Decoded<(seq<PgValue>, nat)>
  {
    if r == Err(WrongOldTupleKey(TAG_NEW)) then Ok(([], 0)) else r
  }

  // ----- Printer: section 55.9 of the PostgreSQL 16 manual -----

  const WIRE_INSERT: Byte := 0x49
  const WIRE_UPDATE: Byte := 0x55
  const WIRE_DELETE: Byte := 0x44
  const WIRE_NEW: Byte := 0x4E
  const WIRE_OLD: Byte := 0x4F
  const WIRE_KEY: Byte := 0x4B

  datatype OldTuple = NoOld | OldKey(key: seq<WireValue>) | OldRow(row: seq<WireValue>)

  datatype Message =
    | InsertMsg(row: seq<WireValue>)
    | UpdateMsg(before: OldTuple, row: seq<WireValue>)
    | DeleteMsg(before: OldTuple)

  function PrintOld(o: OldTuple): Bytes
  {
    match o
    case NoOld => []
    case OldKey(ws) => [WIRE_KEY] + PrintTuple(ws)
    case OldRow(ws) => [WIRE_OLD] + PrintTuple(ws)
  }

  function PrintNew(ws: seq<WireValue>): Bytes
  {
    [WIRE_NEW] + PrintTuple(ws)
  }

  function PrintMessage(oid: UInt32, m: Message): Bytes
  {
    match m
    case InsertMsg(row) => [WIRE_INSERT] + (Put32(oid) + PrintNew(row))
    case UpdateMsg(before, row) => [WIRE_UPDATE] + (Put32(oid) + (PrintOld(before) + PrintNew(row)))
    case DeleteMsg(before) => [WIRE_DELETE] + (Put32(oid) + PrintOld(before))
  }

  predicate Announced(relations: RelationMap, oid: UInt32)
  {
    && oid in relations
    && relations[oid].inner.oid == oid
    && Consistent(relations[oid])
    && |relations[oid].inner.fields| < 0x1_0000
  }

  predicate WellFormedOldRow(ws: seq<WireValue>, r: Relation)
  {
    r.replicaId == Row && WellFormedCols(ws, r.fields, false)
  }

  /** Under key identity the key columns are sent, and null for the others. */
  predicate WellFormedOldKey(ws: seq<WireValue>, r: Relation)
  {
    r.replicaId == Keys && KeyTupleFor(ws, r.fields) && KeyIndexes(r.fields) != []
  }

  predicate WellFormedOld(o: OldTuple, r: Relation)
  {
    match o
    case NoOld => true
    case OldKey(ws) => WellFormedOldKey(ws, r)
    case OldRow(ws) => WellFormedOldRow(ws, r)
  }

  /** What the server sends. */
  predicate WellFormedMessage(m: Message, r: Relation)
  {
    match m
    case InsertMsg(row) => WellFormedCols(row, r.fields, false)
    case UpdateMsg(before, row) => WellFormedOld(before, r) && WellFormedCols(row, r.fields, true)
    case DeleteMsg(before) => !before.NoOld? && WellFormedOld(before, r)
  }

  /** What the parsers read as it was meant: everything but key tuples whose key is lost, and key tuples of six columns
      or fewer in front of a new tuple. */
  predicate Survives(m: Message, r: Relation)
  {
    match m
    case InsertMsg(_) => true
    case UpdateMsg(before, _) => before.OldKey? ==> |r.fields| >= 7 && KeySurvives(r.fields)
    case DeleteMsg(before) => before.OldKey? ==> KeySurvives(r.fields)
  }

  function OldValues(o: OldTuple, r: Relation): seq<PgValue>
    requires WellFormedOld(o, r)
  {
    match o
    case NoOld => []
    case OldKey(ws) => ValuesAt(ws, KeyIndexes(r.fields))
    case OldRow(ws) => ValuesOf(ws)
  }

  /** The operation that a message means. */
  function OpOf(m: Message, r: Relation): Op
    requires WellFormedMessage(m, r)
  {
    match m
    case InsertMsg(row) => Insert(ValuesOf(row))
    case UpdateMsg(before, row) => Update(OldValues(before, r), ValuesOf(row))
    case DeleteMsg(before) => Delete(OldValues(before, r))
  }

  /** Dispatch on the first octet, as the reader's loop does. */
  function ParseChange(data: Bytes, relations: RelationMap): Decoded<(ChangeEvent, RelationData)>
    requires data != []
  {
    if data[0] == TAG_INSERT then ParseInsert(data, relations)
    else if data[0] == TAG_UPDATE then ParseUpdate(data, relations)
    else ParseDelete(data, relations)
  }

  // ----- The parsers undo the printer -----

  lemma ReadHeader(tag: Byte, oid: UInt32, body: Bytes, relations: RelationMap)
    requires oid in relations
    ensures var data := [tag] + (Put32(oid) + body);
            && |data| == 5 + |body| && data[0] == tag && data[5..] == body
            && MessageRelation(data, relations) == Ok((oid, relations[oid]))
  {
    hide U32, Put32;
    var data := [tag] + (Put32(oid) + body);
    assert data[1..] == Put32(oid) + body;
    Read32(oid, body);
  }

  lemma ReadNew(ws: seq<WireValue>, fields: seq<Field>, isUpdate: bool, rest: Bytes)
    requires WellFormedCols(ws, fields, isUpdate) && |fields| < 0x1_0000
    ensures GetNewTupleData(PrintNew(ws) + rest, fields, isUpdate) == Ok(ValuesOf(ws))
  {
    hide ParseTuple, PrintTuple, WellFormedCols, ValuesOf;
    assert (PrintNew(ws) + rest)[1..] == PrintTuple(ws) + rest;
    TupleRoundTrip(ws, fields, isUpdate, rest);
  }

  lemma ReadOldRow(ws: seq<WireValue>, relation: RelationData, rest: Bytes)
    requires WellFormedOldRow(ws, relation.inner) && |relation.inner.fields| < 0x1_0000
    ensures GetOldTupleData(PrintOld(OldRow(ws)) + rest, relation) == Ok((ValuesOf(ws), |PrintOld(OldRow(ws))|))
  {
    hide ParseTuple, PrintTuple, WellFormedCols, ValuesOf;
    assert (PrintOld(OldRow(ws)) + rest)[1..] == PrintTuple(ws) + rest;
    TupleRoundTrip(ws, relation.inner.fields, false, rest);
  }

  lemma WidthOfKeyTuple(ws: seq<WireValue>, fields: seq<Field>)
    requires KeyTupleFor(ws, fields)
    ensures |ws| == |fields|
  {
  }

  lemma OldKeyIsItsTuple(ws: seq<WireValue>, relation: RelationData, rest: Bytes)
    requires relation.inner.replicaId == Keys
    ensures GetOldTupleData(PrintOld(OldKey(ws)) + rest, relation) ==
            match ParseKeyTuple(PrintTuple(ws) + rest, relation.keyFields, relation.keyIndexes, |relation.inner.fields|)
            case Ok(r) => Ok((r.0, r.1 + 1))
            case Err(e) => Err(e)
  {
    hide ParseKeyTuple, ParseTuple, PrintTuple;
    assert (PrintOld(OldKey(ws)) + rest)[1..] == PrintTuple(ws) + rest;
  }

  /** An old key is read as the key exactly when it survives, and then one octet too large up to six columns. */
  lemma ReadOldKey(ws: seq<WireValue>, relation: RelationData, rest: Bytes)
    requires Consistent(relation) && WellFormedOldKey(ws, relation.inner) && |relation.inner.fields| < 0x1_0000
    ensures |ws| == |relation.inner.fields|
    ensures var r := GetOldTupleData(PrintOld(OldKey(ws)) + rest, relation);
            && (r.Ok? && r.value.0 == ValuesAt(ws, KeyIndexes(relation.inner.fields)) <==>
               KeySurvives(relation.inner.fields))
            && (KeySurvives(relation.inner.fields) ==>
                  r.value.1 == |PrintOld(OldKey(ws))| + if |ws| <= 6 then 1 else 0)
            && r != Err(WrongOldTupleKey(WIRE_NEW))
  {
    WidthOfKeyTuple(ws, relation.inner.fields);
    hide ParseKeyTuple, GetOldTupleData, PrintTuple, KeyTupleFor, KeyIndexes, KeyFields, ValuesAt, KeySurvives;
    OldKeyIsItsTuple(ws, relation, rest);
    KeyTupleComesBackIff(ws, relation.inner.fields, rest);
  }

  lemma InsertRoundTrip(relations: RelationMap, oid: UInt32, row: seq<WireValue>, rest: Bytes)
    requires Announced(relations, oid) && WellFormedMessage(InsertMsg(row), relations[oid].inner)
    ensures ParseInsert(PrintMessage(oid, InsertMsg(row)) + rest, relations) ==
            Ok((ChangeEvent(Insert(ValuesOf(row)), oid), relations[oid]))
  {
    hide GetNewTupleData, PrintNew, WellFormedCols, MessageRelation, ValuesOf, Put32;
    ReadHeader(WIRE_INSERT, oid, PrintNew(row) + rest, relations);
    assert PrintMessage(oid, InsertMsg(row)) + rest == [WIRE_INSERT] + (Put32(oid) + (PrintNew(row) + rest));
    ReadNew(row, relations[oid].inner.fields, false, rest);
  }

  /** A delete is its old tuple, or the failure to read it. */
  lemma DeleteIsItsOldTuple(relations: RelationMap, oid: UInt32, before: OldTuple, rest: Bytes)
    requires oid in relations
    ensures ParseDelete(PrintMessage(oid, DeleteMsg(before)) + rest, relations) ==
            match GetOldTupleData(PrintOld(before) + rest, relations[oid])
            case Ok(r) => Ok((ChangeEvent(Delete(r.0), oid), relations[oid]))
            case Err(e) => Err(e)
  {
    hide GetOldTupleData, PrintOld, MessageRelation, Put32;
    ReadHeader(WIRE_DELETE, oid, PrintOld(before) + rest, relations);
    assert PrintMessage(oid, DeleteMsg(before)) + rest == [WIRE_DELETE] + (Put32(oid) + (PrintOld(before) + rest));
  }

  /** A delete decodes to its old values, unless they are a key that does not survive. */
  lemma DeleteDecodesIff(relations: RelationMap, oid: UInt32, before: OldTuple, rest: Bytes)
    requires Announced(relations, oid) && WellFormedMessage(DeleteMsg(before), relations[oid].inner)
    ensures ParseDelete(PrintMessage(oid, DeleteMsg(before)) + rest, relations) ==
            Ok((ChangeEvent(Delete(OldValues(before, relations[oid].inner)), oid), relations[oid])) <==>
            Survives(DeleteMsg(before), relations[oid].inner)
  {
    hide GetOldTupleData, PrintOld, WellFormedOldKey, WellFormedOldRow, KeySurvives, ParseDelete, ValuesAt, ValuesOf,
      PrintMessage, KeyIndexes;
    DeleteIsItsOldTuple(relations, oid, before, rest);
    if before.OldKey? {
      ReadOldKey(before.key, relations[oid], rest);
    } else {
      ReadOldRow(before.row, relations[oid], rest);
    }
  }

  /** An update is its two tuples, the new one where the old one is said to end. */
  lemma UpdateIsItsTuples(relations: RelationMap, oid: UInt32, before: OldTuple, row: seq<WireValue>, rest: Bytes)
    requires oid in relations
    ensures var relation, body := relations[oid], PrintOld(before) + (PrintNew(row) + rest);
            ParseUpdate(PrintMessage(oid, UpdateMsg(before, row)) + rest, relations) ==
            match OldOrNothing(GetOldTupleData(body, relation))
            case Err(e) => Err(e)
            case Ok(front) =>
              if |body| < front.1 then Err(TruncatedInput)
              else
                match GetNewTupleData(body[front.1..], relation.inner.fields, true)
                case Err(e) => Err(e)
                case Ok(now) => Ok((ChangeEvent(Update(front.0, now), oid), relation))
  {
    hide GetOldTupleData, GetNewTupleData, PrintOld, PrintNew, MessageRelation, Put32, OldOrNothing;
    var body := PrintOld(before) + (PrintNew(row) + rest);
    var data := [WIRE_UPDATE] + (Put32(oid) + body);
    assert PrintMessage(oid, UpdateMsg(before, row)) + rest == data;
    ReadHeader(WIRE_UPDATE, oid, body, relations);
    var front := OldOrNothing(GetOldTupleData(body, relations[oid]));
    assert front.Ok? && |body| >= front.value.1 ==> data[front.value.1 + 5..] == body[front.value.1..];
  }

  /** After a whole old row, or none, the new tuple starts exactly where it should. */
  lemma UpdateRoundTrip(relations: RelationMap, oid: UInt32, before: OldTuple, row: seq<WireValue>, rest: Bytes)
    requires Announced(relations, oid) && WellFormedMessage(UpdateMsg(before, row), relations[oid].inner) &&
             !before.OldKey?
    ensures ParseUpdate(PrintMessage(oid, UpdateMsg(before, row)) + rest, relations) ==
            Ok((ChangeEvent(Update(OldValues(before, relations[oid].inner), ValuesOf(row)), oid), relations[oid]))
  {
    hide ParseUpdate, PrintMessage, GetNewTupleData, WellFormedCols, WellFormedOldRow, PrintTuple, ValuesOf,
      ParseTuple, ParseKeyTuple;
    UpdateIsItsTuples(relations, oid, before, row, rest);
    ReadNew(row, relations[oid].inner.fields, true, rest);
    var tail := PrintNew(row) + rest;
    if before.NoOld? {
      assert PrintOld(before) + tail == tail == tail[0..];
      assert tail[0] == WIRE_NEW;
    } else {
      ReadOldRow(before.row, relations[oid], tail);
      DropFront(PrintOld(before), tail);
    }
  }

  /** After a key that survives, up to six columns, the new tuple is read one octet late: its tag is skipped and the
      high octet of its column count is taken for the tag. */
  lemma NarrowKeyIsRefused(relations: RelationMap, oid: UInt32, key: seq<WireValue>, row: seq<WireValue>, rest: Bytes)
    requires Announced(relations, oid) && WellFormedMessage(UpdateMsg(OldKey(key), row), relations[oid].inner)
    requires |relations[oid].inner.fields| <= 6 && KeySurvives(relations[oid].inner.fields)
    ensures ParseUpdate(PrintMessage(oid, UpdateMsg(OldKey(key), row)) + rest, relations) == Err(WrongNewTupleKey(0))
  {
    hide ParseUpdate, PrintMessage, GetOldTupleData, GetNewTupleData, WellFormedValue, PrintTuple, PrintOld, ValuesAt,
      Consistent, KeyIndexes, KeySurvives;
    var tail := PrintNew(row) + rest;
    UpdateIsItsTuples(relations, oid, OldKey(key), row, rest);
    ReadOldKey(key, relations[oid], tail);
    LateStart(row, relations[oid].inner.fields, rest);
    LateSlice(PrintOld(OldKey(key)), tail);
    assert tail[1..] == PrintTuple(row) + rest;
  }

  /** After a wide key that survives it is read in its place. */
  lemma WideKeyRoundTrip(relations: RelationMap, oid: UInt32, key: seq<WireValue>, row: seq<WireValue>, rest: Bytes)
    requires Announced(relations, oid) && WellFormedMessage(UpdateMsg(OldKey(key), row), relations[oid].inner)
    requires |relations[oid].inner.fields| >= 7 && KeySurvives(relations[oid].inner.fields)
    ensures ParseUpdate(PrintMessage(oid, UpdateMsg(OldKey(key), row)) + rest, relations) ==
            Ok((ChangeEvent(OpOf(UpdateMsg(OldKey(key), row), relations[oid].inner), oid), relations[oid]))
  {
    hide ParseUpdate, PrintMessage, GetOldTupleData, GetNewTupleData, WellFormedCols, PrintNew, PrintOld, ValuesAt,
      Consistent, KeyIndexes, KeySurvives, ValuesOf;
    var tail := PrintNew(row) + rest;
    UpdateIsItsTuples(relations, oid, OldKey(key), row, rest);
    ReadOldKey(key, relations[oid], tail);
    ReadNew(row, relations[oid].inner.fields, true, rest);
    DropFront(PrintOld(OldKey(key)), tail);
  }

  /** An update with a key tuple decodes to what it means exactly when the tuple has seven columns or more and all of
      them are keys. Up to six columns it is refused when the key survives; when it does not, an update that is read
      all the same carries only part of the key. */
  lemma UpdateWithKeyTupleDecodesIff(relations: RelationMap, oid: UInt32, key: seq<WireValue>, row: seq<WireValue>,
                                     rest: Bytes)
    requires Announced(relations, oid) && WellFormedMessage(UpdateMsg(OldKey(key), row), relations[oid].inner)
    ensures var rel := relations[oid].inner;
            var r := ParseUpdate(PrintMessage(oid, UpdateMsg(OldKey(key), row)) + rest, relations);
            && (r == Ok((ChangeEvent(OpOf(UpdateMsg(OldKey(key), row), rel), oid), relations[oid])) <==>
                |rel.fields| >= 7 && KeySurvives(rel.fields))
            && (|rel.fields| <= 6 && KeySurvives(rel.fields) ==> r == Err(WrongNewTupleKey(0)))
            && (|rel.fields| <= 6 && r.Ok? ==>
                  r.value.0.op.Update? && |r.value.0.op.before| < |KeyIndexes(rel.fields)|)
            && (|rel.fields| >= 7 && r.Ok? ==> KeySurvives(rel.fields))
  {
    var fields := relations[oid].inner.fields;
    assert |fields| <= 6 || |fields| >= 7;
    hide ParseUpdate, PrintMessage, WellFormedMessage, KeySurvives, Announced, OpOf, KeyIndexes;
    if KeySurvives(fields) {
      if |fields| <= 6 {
        NarrowKeyIsRefused(relations, oid, key, row, rest);
      } else {
        WideKeyRoundTrip(relations, oid, key, row, rest);
      }
    } else {
      LostKeyIsNotRead(relations, oid, key, row, rest);
    }
  }

  /** A key that does not survive. */
  lemma LostKeyIsNotRead(relations: RelationMap, oid: UInt32, key: seq<WireValue>, row: seq<WireValue>, rest: Bytes)
    requires Announced(relations, oid) && WellFormedMessage(UpdateMsg(OldKey(key), row), relations[oid].inner)
    requires !KeySurvives(relations[oid].inner.fields)
    ensures var rel := relations[oid].inner;
            var r := ParseUpdate(PrintMessage(oid, UpdateMsg(OldKey(key), row)) + rest, relations);
            && r != Ok((ChangeEvent(OpOf(UpdateMsg(OldKey(key), row), rel), oid), relations[oid]))
            && (r.Ok? ==> |rel.fields| <= 6 && r.value.0.op.Update? && |r.value.0.op.before| < |KeyIndexes(rel.fields)|)
  {
    hide ParseUpdate, PrintMessage, GetOldTupleData, GetNewTupleData, WellFormedCols, PrintNew, PrintOld, ValuesAt,
      Consistent, KeyIndexes, KeySurvives, ValuesOf;
    var tail := PrintNew(row) + rest;
    UpdateIsItsTuples(relations, oid, OldKey(key), row, rest);
    ReadOldKey(key, relations[oid], tail);
    LostKeyIsShort(key, relations[oid], tail);
  }

  lemma LostKeyIsShort(ws: seq<WireValue>, relation: RelationData, rest: Bytes)
    requires Consistent(relation) && WellFormedOldKey(ws, relation.inner) && |relation.inner.fields| < 0x1_0000
    requires !KeySurvives(relation.inner.fields)
    ensures var r := GetOldTupleData(PrintOld(OldKey(ws)) + rest, relation);
            r.Ok? ==> |relation.inner.fields| <= 6 && |r.value.0| < |KeyIndexes(relation.inner.fields)|
  {
    WidthOfKeyTuple(ws, relation.inner.fields);
    hide ParseKeyTuple, GetOldTupleData, PrintOld, PrintTuple, KeyTupleFor, KeyIndexes, KeyFields, PrefixButLast,
      UpToCut;
    OldKeyIsItsTuple(ws, relation, rest);
    if |ws| <= 6 {
      KeyTupleResult(ws, relation.inner.fields, rest);
      CutIsShort(ws, relation.inner.fields);
    } else {
      WideKeyTupleResult(ws, relation.inner.fields, rest);
    }
  }

  lemma CutIsShort(ws: seq<WireValue>, fields: seq<Field>)
    requires KeyTupleFor(ws, fields) && KeyIndexes(fields) != [] && !PrefixButLast(KeyIndexes(fields))
    ensures |ws| == |fields| && |UpToCut(ws, KeyIndexes(fields)).0| < |KeyIndexes(fields)|
  {
    hide KeyIndexes, PrintCols, PrefixButLast;
    CutIsLastIffPrefix(KeyIndexes(fields));
  }

  lemma LateSlice(before: Bytes, tail: Bytes)
    requires |tail| >= 1
    ensures (before + tail)[|before| + 1..] == tail[1..]
  {
  }

  lemma LateStart(row: seq<WireValue>, fields: seq<Field>, rest: Bytes)
    requires |row| < 0x100
    ensures GetNewTupleData(PrintTuple(row) + rest, fields, true) == Err(WrongNewTupleKey(0))
  {
    hide PrintCols, ParseTuple;
    assert (PrintTuple(row) + rest)[0] == 0;
  }

  /** A message that the server sends decodes to the operation it means exactly when it survives. */
  lemma MessageDecodesIff(relations: RelationMap, oid: UInt32, m: Message, rest: Bytes)
    requires Announced(relations, oid) && WellFormedMessage(m, relations[oid].inner)
    ensures var data := PrintMessage(oid, m) + rest;
            && data != []
            && (Survives(m, relations[oid].inner) <==>
                ParseChange(data, relations) == Ok((ChangeEvent(OpOf(m, relations[oid].inner), oid), relations[oid])))
  {
    hide ParseInsert, ParseUpdate, ParseDelete, WellFormedOld, WellFormedCols, OldValues, ValuesOf, Put32, KeySurvives;
    match m {
      case InsertMsg(row) => InsertRoundTrip(relations, oid, row, rest);
      case DeleteMsg(before) => DeleteDecodesIff(relations, oid, before, rest);
      case UpdateMsg(before, row) =>
        if before.OldKey? {
          UpdateWithKeyTupleDecodesIff(relations, oid, before.key, row, rest);
        } else {
          UpdateRoundTrip(relations, oid, before, row, rest);
        }
    }
  }

  // ----- Messages that stop the program -----

  /** After a key of six columns or fewer that does not survive, the new tuple is looked for where the old one is said
      to end; a tuple found there may run over the end of the message. */
  predicate MisreadStops(key: seq<WireValue>, row: seq<WireValue>, r: Relation, rest: Bytes)
    requires WellFormedOldKey(key, r)
  {
    var body := PrintOld(OldKey(key)) + (PrintNew(row) + rest);
    var end := UpToCut(key, KeyIndexes(r.fields)).1 + 1;
    && |r.fields| <= 6 && !KeySurvives(r.fields)
    && end < |body| && body[end] == WIRE_NEW && TupleRunsOver(body[end + 1..], r.fields, true)
  }

  /** The messages at which the program stops: wide key tuples whose front reads as the key, and misread updates. */
  predicate Stops(m: Message, r: Relation, rest: Bytes)
    requires WellFormedMessage(m, r)
  {
    match m
    case InsertMsg(_) => false
    case DeleteMsg(before) => before.OldKey? && KeyTupleStops(before.key, r.fields)
    case UpdateMsg(before, row) =>
      before.OldKey? && (KeyTupleStops(before.key, r.fields) || MisreadStops(before.key, row, r, rest))
  }

  lemma NarrowKeyIsCut(ws: seq<WireValue>, relation: RelationData, rest: Bytes)
    requires Consistent(relation) && WellFormedOldKey(ws, relation.inner) && |relation.inner.fields| <= 6
    ensures |ws| == |relation.inner.fields|
    ensures var cut := UpToCut(ws, KeyIndexes(relation.inner.fields));
            GetOldTupleData(PrintOld(OldKey(ws)) + rest, relation) == Ok((cut.0, cut.1 + 1))
  {
    WidthOfKeyTuple(ws, relation.inner.fields);
    hide ParseKeyTuple, GetOldTupleData, PrintOld, PrintTuple, KeyTupleFor, KeyIndexes, KeyFields, UpToCut;
    OldKeyIsItsTuple(ws, relation, rest);
    KeyTupleResult(ws, relation.inner.fields, rest);
  }

  lemma WideKeyStops(ws: seq<WireValue>, relation: RelationData, rest: Bytes)
    requires Consistent(relation) && WellFormedOldKey(ws, relation.inner) && 7 <= |relation.inner.fields| < 0x1_0000
    ensures |ws| == |relation.inner.fields|
    ensures var r := GetOldTupleData(PrintOld(OldKey(ws)) + rest, relation);
            && (r == Err(IndexPanic) <==> KeyTupleStops(ws, relation.inner.fields))
            && (!KeySurvives(relation.inner.fields) ==> r.Err? && !r.error.WrongOldTupleKey?)
  {
    WidthOfKeyTuple(ws, relation.inner.fields);
    hide ParseKeyTuple, GetOldTupleData, PrintOld, PrintTuple, KeyTupleFor, KeyIndexes, KeyFields, ValuesAt,
      KeyTupleStops;
    OldKeyIsItsTuple(ws, relation, rest);
    WideKeyTupleResult(ws, relation.inner.fields, rest);
  }

  lemma OldKeyStopsIff(ws: seq<WireValue>, relation: RelationData, rest: Bytes)
    requires Consistent(relation) && WellFormedOldKey(ws, relation.inner) && |relation.inner.fields| < 0x1_0000
    ensures |ws| == |relation.inner.fields|
    ensures var r := GetOldTupleData(PrintOld(OldKey(ws)) + rest, relation);
            && (r == Err(IndexPanic) <==> KeyTupleStops(ws, relation.inner.fields))
            && (|ws| <= 6 ==> var cut := UpToCut(ws, KeyIndexes(relation.inner.fields)); r == Ok((cut.0, cut.1 + 1)))
            && (|ws| >= 7 && !KeySurvives(relation.inner.fields) ==> r.Err? && !r.error.WrongOldTupleKey?)
  {
    WidthOfKeyTuple(ws, relation.inner.fields);
    hide GetOldTupleData, PrintOld, KeyTupleFor, KeyIndexes, KeyFields, UpToCut, KeySurvives, FrontReadsAsKey;
    if |ws| <= 6 {
      NarrowKeyIsCut(ws, relation, rest);
    } else {
      WideKeyStops(ws, relation, rest);
    }
  }

  lemma DeleteStopsIff(relations: RelationMap, oid: UInt32, before: OldTuple, rest: Bytes)
    requires Announced(relations, oid) && WellFormedMessage(DeleteMsg(before), relations[oid].inner)
    ensures ParseDelete(PrintMessage(oid, DeleteMsg(before)) + rest, relations) == Err(IndexPanic) <==>
            Stops(DeleteMsg(before), relations[oid].inner, rest)
  {
    hide GetOldTupleData, PrintOld, WellFormedOldKey, WellFormedOldRow, ParseDelete, PrintMessage, KeyTupleStops,
      KeySurvives, UpToCut, KeyIndexes;
    DeleteIsItsOldTuple(relations, oid, before, rest);
    if before.OldKey? {
      OldKeyStopsIff(before.key, relations[oid], rest);
    } else {
      ReadOldRow(before.row, relations[oid], rest);
    }
  }

  /** Reading a new tuple stops exactly when, after its tag, it runs over. */
  lemma NewTupleStopsIff(data: Bytes, fields: seq<Field>)
    ensures GetNewTupleData(data, fields, true) == Err(IndexPanic) <==>
            data != [] && data[0] == WIRE_NEW && TupleRunsOver(data[1..], fields, true)
  {
    hide ParseTuple, TupleRunsOver;
    if data != [] {
      TupleStopsIff(data[1..], fields, true);
    }
  }

  lemma MisreadUpdateStopsIff(relations: RelationMap, oid: UInt32, key: seq<WireValue>, row: seq<WireValue>,
                              rest: Bytes)
    requires Announced(relations, oid) && WellFormedMessage(UpdateMsg(OldKey(key), row), relations[oid].inner)
    requires |relations[oid].inner.fields| <= 6 && !KeySurvives(relations[oid].inner.fields)
    ensures ParseUpdate(PrintMessage(oid, UpdateMsg(OldKey(key), row)) + rest, relations) == Err(IndexPanic) <==>
            MisreadStops(key, row, relations[oid].inner, rest)
  {
    hide ParseUpdate, PrintMessage, GetOldTupleData, GetNewTupleData, WellFormedCols, PrintNew, PrintOld, Consistent,
      KeyIndexes, KeySurvives, UpToCut, TupleRunsOver, KeyTupleStops;
    var relation := relations[oid];
    var body := PrintOld(OldKey(key)) + (PrintNew(row) + rest);
    UpdateIsItsTuples(relations, oid, OldKey(key), row, rest);
    OldKeyStopsIff(key, relation, PrintNew(row) + rest);
    var end := UpToCut(key, KeyIndexes(relation.inner.fields)).1 + 1;
    if end <= |body| {
      NewTupleStopsIff(body[end..], relation.inner.fields);
      assert end < |body| ==> body[end..][1..] == body[end + 1..];
    }
  }

  lemma WideUpdateStopsIff(relations: RelationMap, oid: UInt32, key: seq<WireValue>, row: seq<WireValue>, rest: Bytes)
    requires Announced(relations, oid) && WellFormedMessage(UpdateMsg(OldKey(key), row), relations[oid].inner)
    requires |relations[oid].inner.fields| >= 7 && !KeySurvives(relations[oid].inner.fields)
    ensures ParseUpdate(PrintMessage(oid, UpdateMsg(OldKey(key), row)) + rest, relations) == Err(IndexPanic) <==>
            KeyTupleStops(key, relations[oid].inner.fields)
  {
    hide ParseUpdate, PrintMessage, GetOldTupleData, GetNewTupleData, WellFormedCols, PrintNew, PrintOld, Consistent,
      KeyIndexes, KeySurvives, UpToCut, KeyTupleStops;
    UpdateIsItsTuples(relations, oid, OldKey(key), row, rest);
    OldKeyStopsIff(key, relations[oid], PrintNew(row) + rest);
  }

  lemma SurvivingKeyDoesNotStop(key: seq<WireValue>, row: seq<WireValue>, r: Relation, rest: Bytes)
    requires WellFormedOldKey(key, r) && KeySurvives(r.fields)
    ensures !KeyTupleStops(key, r.fields) && !MisreadStops(key, row, r, rest)
  {
    hide KeyIndexes, KeyFields, FrontReadsAsKey, PrintOld, PrintNew, UpToCut, TupleRunsOver;
    KeyFieldsAreTheProjection(r.fields);
  }

  lemma UpdateStopsIff(relations: RelationMap, oid: UInt32, before: OldTuple, row: seq<WireValue>, rest: Bytes)
    requires Announced(relations, oid) && WellFormedMessage(UpdateMsg(before, row), relations[oid].inner)
    ensures ParseUpdate(PrintMessage(oid, UpdateMsg(before, row)) + rest, relations) == Err(IndexPanic) <==>
            Stops(UpdateMsg(before, row), relations[oid].inner, rest)
  {
    var rel := relations[oid].inner;
    if !before.OldKey? {
      hide ParseUpdate, PrintMessage, WellFormedCols, WellFormedOldRow;
      UpdateRoundTrip(relations, oid, before, row, rest);
    } else {
      assert WellFormedOldKey(before.key, rel);
      NotBothWays(before.key, row, rel, rest);
      hide ParseUpdate, PrintMessage, WellFormedMessage, KeySurvives, Announced, KeyTupleStops, MisreadStops, OpOf,
        WellFormedOldKey, KeyIndexes;
      if KeySurvives(rel.fields) {
        SurvivingKeyDoesNotStop(before.key, row, rel, rest);
        UpdateWithKeyTupleDecodesIff(relations, oid, before.key, row, rest);
      } else if |rel.fields| <= 6 {
        MisreadUpdateStopsIff(relations, oid, before.key, row, rest);
      } else {
        WideUpdateStopsIff(relations, oid, before.key, row, rest);
      }
    }
  }

  lemma NotBothWays(key: seq<WireValue>, row: seq<WireValue>, r: Relation, rest: Bytes)
    requires WellFormedOldKey(key, r)
    ensures |r.fields| <= 6 ==> !KeyTupleStops(key, r.fields)
    ensures |r.fields| >= 7 ==> !MisreadStops(key, row, r, rest)
  {
  }

  /** For every message that the server sends: decoding it stops the program exactly when the message carries a key
      tuple of seven columns or more, not all keys, whose front reads as the key; or when it is an update of six
      columns or fewer whose key does not survive, and what is then taken for the new tuple runs over the end. */
  lemma MessageStopsIff(relations: RelationMap, oid: UInt32, m: Message, rest: Bytes)
    requires Announced(relations, oid) && WellFormedMessage(m, relations[oid].inner)
    ensures var data := PrintMessage(oid, m) + rest;
            && data != []
            && (ParseChange(data, relations) == Err(IndexPanic) <==> Stops(m, relations[oid].inner, rest))
  {
    hide ParseInsert, ParseUpdate, ParseDelete, WellFormedOld, WellFormedCols, ValuesOf, Put32, KeyTupleStops,
      MisreadStops;
    match m {
      case InsertMsg(row) => InsertRoundTrip(relations, oid, row, rest);
      case DeleteMsg(before) => DeleteStopsIff(relations, oid, before, rest);
      case UpdateMsg(before, row) => UpdateStopsIff(relations, oid, before, row, rest);
    }
  }

  /** In particular every delete from a table of seven columns or more whose key columns come first and are not all. */
  lemma WideDeleteStops(relations: RelationMap, oid: UInt32, ws: seq<WireValue>, rest: Bytes)
    requires Announced(relations, oid) && WellFormedOldKey(ws, relations[oid].inner)
    requires var fields := relations[oid].inner.fields;
             && |fields| >= 7 && |KeyIndexes(fields)| < |fields|
             && forall j | 0 <= j < |KeyIndexes(fields)| :: KeyIndexes(fields)[j] == j
    ensures ParseDelete(PrintMessage(oid, DeleteMsg(OldKey(ws))) + rest, relations) == Err(IndexPanic)
  {
    FirstKeysStop(ws, relations[oid].inner.fields);
    hide ParseDelete, PrintMessage, KeyTupleStops, KeyTupleFor, KeyIndexes;
    DeleteStopsIff(relations, oid, OldKey(ws), rest);
  }

  // ----- Two updates that are misread -----

  /** Six columns, the second and third of which are the key. */
  function MisreadFields(first: FieldKind): (fields: seq<Field>)
    ensures |fields| == 6
  {
    [Field(false, [], first), Field(true, [], FieldKind.Int4), Field(true, [], FieldKind.Int4),
     Field(false, [], FieldKind.Int4), Field(false, [], FieldKind.Int4), Field(false, [], FieldKind.Int4)]
  }

  function MisreadRelations(first: FieldKind): RelationMap
  {
    var fields := MisreadFields(first);
    map[1 := RelationData(Relation(1, [], [], fields, Keys), KeyFields(fields), KeyIndexes(fields))]
  }

  /** The octets of the second key value look like a new tuple of one column that starts with the given octet. */
  function MisreadKey(octet: Byte): (ws: seq<WireValue>)
    ensures |ws| == 6
  {
    [NullCol, BinaryCol(PgValue.Int4(5)), BinaryCol(PgValue.Int4(0x4E00_0100 + octet as int)), NullCol, NullCol,
        NullCol]
  }

  lemma OneThenTwo(ks: seq<nat>)
    requires Increasing(ks) && 1 in ks && 2 in ks && forall k | 0 <= k < |ks| :: ks[k] == 1 || ks[k] == 2
    ensures ks == [1, 2]
  {
    IncreasingBelow(ks, 3, 0);
    assert |ks| == 2 && ks[0] < ks[1];
  }

  lemma MisreadKeyIndexes(first: FieldKind)
    ensures KeyIndexes(MisreadFields(first)) == [1, 2]
  {
    var ks := KeyIndexes(MisreadFields(first));
    hide KeyIndexes;
    KeysAreTheFlaggedColumns(MisreadFields(first));
    forall k | 0 <= k < |ks| ensures ks[k] == 1 || ks[k] == 2 {
      assert ks[k] in ks;
    }
    OneThenTwo(ks);
  }

  lemma MisreadPayload(octet: Byte)
    ensures PutI32(0x4E00_0100 + octet as int) == [0x4E, 0x00, 0x01, octet]
  {
    var n := 0x4E00_0100 + octet as int;
    assert n / 0x1_0000 == 0x4E00 && n % 0x1_0000 == 0x0100 + octet as int;
  }

  lemma PrintedInt4(n: Int32)
    ensures |PrintValue(BinaryCol(PgValue.Int4(n)))| == 9 && PrintValue(BinaryCol(PgValue.Int4(n)))[5..] == PutI32(n)
  {
    hide PutI32, PrintLength;
  }

  lemma PrintedAfterNull(w: WireValue)
    ensures |PrintCols([NullCol, w])| == 1 + |PrintValue(w)|
  {
    hide PrintValue;
    assert PrintCols([w]) == PrintValue(w) + [];
    assert [NullCol, w][1..] == [w] && [w][1..] == [];
    NullWidth();
  }

  lemma PrintedBeforeNulls(w: WireValue)
    ensures PrintCols([w, NullCol, NullCol, NullCol]) == PrintValue(w) + [WIRE_NULL, WIRE_NULL, WIRE_NULL]
  {
    var nulls := [NullCol, NullCol, NullCol];
    assert [w, NullCol, NullCol, NullCol][1..] == nulls;
    assert nulls[1..][1..] == [NullCol] && nulls[1..] == [NullCol, NullCol];
    assert PrintCols([NullCol]) == [WIRE_NULL] && PrintCols(nulls[1..]) == [WIRE_NULL, WIRE_NULL];
    assert PrintCols(nulls) == [WIRE_NULL, WIRE_NULL, WIRE_NULL];
  }

  lemma MisreadLayout(octet: Byte)
    ensures var ws := MisreadKey(octet);
            && |PrintCols(ws[..2])| == 10 && PrintCols(ws) == PrintCols(ws[..2]) + PrintCols(ws[2..])
            && |PrintCols(ws[2..])| == 12
            && PrintCols(ws[2..])[5..] == [0x4E, 0x00, 0x01, octet, WIRE_NULL, WIRE_NULL, WIRE_NULL]
  {
    hide PutI32, PrintCols, PrintValue;
    var ws := MisreadKey(octet);
    MisreadPayload(octet);
    assert ws == ws[..2] + ws[2..];
    PrintColsConcat(ws[..2], ws[2..]);
    assert ws[..2] == [NullCol, ws[1]] && ws[2..] == [ws[2], NullCol, NullCol, NullCol];
    PrintedInt4(5);
    PrintedInt4(0x4E00_0100 + octet as int);
    PrintedAfterNull(ws[1]);
    PrintedBeforeNulls(ws[2]);
  }

  lemma SkipInto(front: Bytes, cols: Bytes, tail: Bytes, k: nat)
    requires k <= |cols|
    ensures (front + (cols + tail))[|front| + k..] == cols[k..] + tail
  {
  }

  /** What stands where the old tuple is said to end. */
  lemma MisreadBody(octet: Byte, tail: Bytes)
    ensures var body := PrintOld(OldKey(MisreadKey(octet))) + tail;
            |body| >= 25 && body[18..] == [0x4E, 0x00, 0x01, octet, WIRE_NULL, WIRE_NULL, WIRE_NULL] + tail
  {
    hide PrintCols, MisreadKey;
    var ws := MisreadKey(octet);
    MisreadLayout(octet);
    var front := [WIRE_KEY] + (Put16(6) + PrintCols(ws[..2]));
    var body := PrintOld(OldKey(ws)) + tail;
    assert body == front + (PrintCols(ws[2..]) + tail);
    assert |front| == 13;
    SkipInto(front, PrintCols(ws[2..]), tail, 5);
  }

  /** The old tuple is said to end inside its second key value. */
  lemma MisreadCut(octet: Byte, first: FieldKind)
    ensures WellFormedOldKey(MisreadKey(octet), MisreadRelations(first)[1].inner) && !KeySurvives(MisreadFields(first))
    ensures KeyIndexes(MisreadFields(first)) == [1, 2]
    ensures UpToCut(MisreadKey(octet), [1, 2]) == ([PgValue.Int4(5)], 17)
  {
    hide PrintCols;
    MisreadKeyIndexes(first);
    MisreadLayout(octet);
    assert Cut([1, 2], 0) == 0;
    assert [1, 2][..1] == [1];
    assert ValuesAt(MisreadKey(octet), [1]) == [PgValue.Int4(5)];
  }

  lemma MisreadIsWellFormed(octet: Byte, first: FieldKind, row: seq<WireValue>)
    requires WellFormedCols(row, MisreadFields(first), true)
    ensures WellFormedMessage(UpdateMsg(OldKey(MisreadKey(octet)), row), MisreadRelations(first)[1].inner)
    ensures Announced(MisreadRelations(first), 1)
  {
    hide WellFormedCols, KeyIndexes, KeyFields, UpToCut, KeyTupleFor;
    MisreadCut(octet, first);
  }

  /** Whatever the new row and whatever follows: the update is accepted, with half the key for the old row and one
      null for the new. */
  lemma UpdateIsMisread(row: seq<WireValue>, rest: Bytes)
    requires WellFormedCols(row, MisreadFields(FieldKind.Int4), true)
    ensures var relations := MisreadRelations(FieldKind.Int4);
            && Announced(relations, 1)
            && WellFormedMessage(UpdateMsg(OldKey(MisreadKey(WIRE_NULL)), row), relations[1].inner)
            && ParseUpdate(PrintMessage(1, UpdateMsg(OldKey(MisreadKey(WIRE_NULL)), row)) + rest, relations) ==
               Ok((ChangeEvent(Update([PgValue.Int4(5)], [PgValue.Null]), 1), relations[1]))
  {
    MisreadIsWellFormed(WIRE_NULL, FieldKind.Int4, row);
    MisreadCut(WIRE_NULL, FieldKind.Int4);
    hide PrintOld, GetOldTupleData, ParseUpdate, PrintMessage, GetNewTupleData, PrintNew, WellFormedCols, KeyIndexes,
      UpToCut, WellFormedOldKey, MisreadKey, KeySurvives, KeyTupleStops;
    var relations, tail := MisreadRelations(FieldKind.Int4), PrintNew(row) + rest;
    UpdateIsItsTuples(relations, 1, OldKey(MisreadKey(WIRE_NULL)), row, rest);
    OldKeyStopsIff(MisreadKey(WIRE_NULL), relations[1], tail);
    MisreadBody(WIRE_NULL, tail);
    MisreadNewTuple(tail);
  }

  lemma MisreadNewTuple(tail: Bytes)
    ensures GetNewTupleData([0x4E, 0x00, 0x01, WIRE_NULL, WIRE_NULL, WIRE_NULL, WIRE_NULL] + tail,
                            MisreadFields(FieldKind.Int4), true) == Ok([PgValue.Null])
  {
    hide ParseTuple;
    var data := [0x4E, 0x00, 0x01, WIRE_NULL, WIRE_NULL, WIRE_NULL, WIRE_NULL] + tail;
    assert data[0] == WIRE_NEW && data[1..][0] == 0 && data[1..][1] == 1 && data[1..][2] == WIRE_NULL;
    ReadNullColumn(data[1..]);
  }

  lemma ReadNullColumn(data: Bytes)
    requires |data| >= 3 && data[0] == 0 && data[1] == 1 && data[2] == WIRE_NULL
    ensures ParseTuple(data, MisreadFields(FieldKind.Int4), true) == Ok(([PgValue.Null], 3))
  {
    var fields := MisreadFields(FieldKind.Int4)[..1];
    assert U16(data) == 1;
    assert data[2..][0] == WIRE_NULL;
    assert ParseCols(data, 3, fields[1..], true) == Ok(([], 3));
    assert [PgValue.Null] + [] == [PgValue.Null];
    assert ParseCols(data, 2, fields, true) == Ok(([PgValue.Null], 3));
  }

  /** The same update on a table whose first column is a text, with another key value: every message of this kind below
      one gibibyte stops the program. */
  lemma UpdateIsMisreadAndStops(row: seq<WireValue>, rest: Bytes)
    requires WellFormedCols(row, MisreadFields(FieldKind.Text), true) && |PrintNew(row) + rest| < 0x4000_0000
    ensures var relations := MisreadRelations(FieldKind.Text);
            && Announced(relations, 1)
            && WellFormedMessage(UpdateMsg(OldKey(MisreadKey(WIRE_BINARY)), row), relations[1].inner)
            && ParseUpdate(PrintMessage(1, UpdateMsg(OldKey(MisreadKey(WIRE_BINARY)), row)) + rest, relations) ==
               Err(IndexPanic)
  {
    MisreadIsWellFormed(WIRE_BINARY, FieldKind.Text, row);
    MisreadCut(WIRE_BINARY, FieldKind.Text);
    hide PrintOld, GetOldTupleData, ParseUpdate, PrintMessage, GetNewTupleData, WellFormedCols, KeyIndexes, UpToCut,
      WellFormedOldKey, MisreadKey, KeySurvives, KeyTupleStops, PrintTuple;
    var relations, tail := MisreadRelations(FieldKind.Text), PrintNew(row) + rest;
    UpdateIsItsTuples(relations, 1, OldKey(MisreadKey(WIRE_BINARY)), row, rest);
    OldKeyStopsIff(MisreadKey(WIRE_BINARY), relations[1], tail);
    MisreadBody(WIRE_BINARY, tail);
    assert tail[0] == WIRE_NEW;
    MisreadTextRunsOver(tail);
  }

  lemma MisreadTextRunsOver(tail: Bytes)
    requires 0 < |tail| < 0x4000_0000 && tail[0] == WIRE_NEW
    ensures GetNewTupleData([0x4E, 0x00, 0x01, WIRE_BINARY, WIRE_NULL, WIRE_NULL, WIRE_NULL] + tail,
                            MisreadFields(FieldKind.Text), true) == Err(IndexPanic)
  {
    hide ParseTuple;
    var data := [0x4E, 0x00, 0x01, WIRE_BINARY, WIRE_NULL, WIRE_NULL, WIRE_NULL] + tail;
    var d := data[1..];
    assert data[0] == WIRE_NEW && d[0] == 0 && d[1] == 1 && d[2..][0] == WIRE_BINARY;
    assert d[2..][1..][0] == WIRE_NULL && d[2..][1..][1] == WIRE_NULL && d[2..][1..][2] == WIRE_NULL;
    assert d[2..][1..][3] == WIRE_NEW;
    ReadLongText(d);
  }

  lemma ReadLongText(data: Bytes)
    requires 7 <= |data| < 0x4000_0100 && data[0] == 0 && data[1] == 1 && data[2..][0] == WIRE_BINARY
    requires data[2..][1..][0] == WIRE_NULL && data[2..][1..][1] == WIRE_NULL && data[2..][1..][2] == WIRE_NULL
    requires data[2..][1..][3] == WIRE_NEW
    ensures ParseTuple(data, MisreadFields(FieldKind.Text), true) == Err(IndexPanic)
  {
    var fields := MisreadFields(FieldKind.Text);
    assert U16(data) == 1;
    assert U32(data[2..][1..]) >= 0x6E00_0000 by {
      FourOctets(data[2..][1..]);
    }
    FirstColumnRunsOver(data, 2, fields[..1], true);
    assert ColumnRunsOver(data, 2, fields[..1], true, 0);
    TupleStopsIff(data, fields, true);
  }

  lemma FourOctets(data: Bytes)
    requires |data| >= 4
    ensures U32(data) ==
            data[0] as int * 0x100_0000 + data[1] as int * 0x1_0000 + data[2] as int * 0x100 + data[3] as int
  {
  }
}
