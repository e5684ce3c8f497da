/** The decoder on arbitrary octets: what it accepts is what the printers print, and where relations stop the program.
    */
module Acceptance {
  import opened Wrappers
  import opened Wire
  import opened ChangeEvents
  import opened NulSearch
  import opened RelationDecoder
  import opened TupleDecoder
  import opened MessageDecoder

  // ----- Strings -----

  lemma ExtractedIsTerminated(data: Bytes)
    requires ExtractString(data).Ok?
    ensures var s := ExtractString(data).value; ValidName(s) && data == s + [NUL] + data[|s| + 1..]
  {
    var nul := FirstNul(data).value;
    FirstNulMeaning(data, Some(nul));
    if Ascii(data[..nul]) {
      AsciiIsUtf8(data[..nul]);
    }
  }

  // ----- Relations -----

  /** Eight octets, as many as a logical column may be short of at the end of a message. */
  function Zeros(): (zeros: Bytes)
    ensures |zeros| == 8
  {
    [0, 0, 0, 0, 0, 0, 0, 0]
  }

  /** The column that was printed there. */
  function ColumnIn(data: Bytes): WireColumn
    requires ParseField(data).Ok?
  {
    var name := ExtractString(data[1..]).value;
    var types := (data + Zeros())[|name| + 2..];
    match ParseField(data).value
    case Physical(field, _) => StoredColumn(field.isKey, field.name, field.kind, U32(types[4..]))
    case Logical(_) => LogicalColumn(data[0] == 3, name, U32(types), U32(types[4..]))
  }

  lemma FrontOf32(a: Bytes, b: Bytes)
    requires |a| >= 4
    ensures U32(a + b) == U32(a)
  {
    assert (a + b)[2..] == a[2..] + b;
  }

  lemma KindOfOid(oid: UInt32)
    requires KindFromOid(oid).Ok?
    ensures OidOf(KindFromOid(oid).value) == oid
  {
  }

  lemma NameInColumn(data: Bytes)
    requires data != [] && ExtractString(data[1..]).Ok?
    ensures var s := ExtractString(data[1..]).value;
            ValidName(s) && |s| + 2 <= |data| && data[..|s| + 2] == [data[0]] + s + [NUL]
  {
    ExtractedIsTerminated(data[1..]);
    assert data == [data[0]] + data[1..];
  }

  /** What of the octets each part of the column is. */
  lemma PartsOfColumn(data: Bytes)
    requires ParseField(data).Ok?
    ensures var c, parsed, s := ColumnIn(data), ParseField(data).value, ExtractString(data[1..]).value;
            var types := (data + Zeros())[|s| + 2..];
            && c.name == s && FlagOctet(c) == data[0] && TypeOid(c) == U32(types) && c.typeModifier == U32(types[4..])
            && StoredField(parsed) == StoredFields([c]) && parsed.size == |s| + 10
            && (c.StoredColumn? ==> parsed.size <= |data|)
  {
    hide U32, ValidName, KindFromOid, ExtractString;
    NameInColumn(data);
    var n := |ExtractString(data[1..]).value| + 2;
    var types := (data + Zeros())[n..];
    assert types == data[n..] + Zeros();
    if data[0] < 2 {
      FrontOf32(data[n..], Zeros());
      KindOfOid(U32(types));
    }
  }

  lemma JoinColumn(data: Bytes, name: Bytes)
    requires |name| + 2 <= |data| && data[..|name| + 2] == [data[0]] + name + [NUL]
    ensures var padded, types := data + Zeros(), (data + Zeros())[|name| + 2..];
            padded[..|name| + 10] == [data[0]] + name + [NUL] + Put32(U32(types)) + Put32(U32(types[4..]))
  {
    hide U32, Put32;
    var padded, n := data + Zeros(), |name| + 2;
    var types := padded[n..];
    Printed32(types);
    Printed32(types[4..]);
    assert padded[..n + 8] == padded[..n] + types[..4] + types[4..][..4];
    assert padded[..n] == data[..n];
  }

  /** A column that is accepted was printed, but for the end of a logical column that is cut short. */
  lemma AcceptedColumn(data: Bytes)
    requires ParseField(data).Ok?
    ensures var c, size := ColumnIn(data), ParseField(data).value.size;
            && WellFormedColumn(c) && StoredField(ParseField(data).value) == StoredFields([c])
            && size == |PrintColumn(c)| <= |data| + 8 && PrintColumn(c) == (data + Zeros())[..size]
            && (c.StoredColumn? ==> size <= |data|)
  {
    hide U32, Put32, ValidName, ParseField, ExtractString, FlagOctet, TypeOid, ColumnIn, StoredFields, Zeros;
    assert data != [] && ExtractString(data[1..]).Ok? by {
      SomeName(data);
    }
    NameInColumn(data);
    PartsOfColumn(data);
    JoinColumn(data, ExtractString(data[1..]).value);
  }

  lemma SomeName(data: Bytes)
    requires ParseField(data).Ok?
    ensures data != [] && ExtractString(data[1..]).Ok?
  {
  }

  /** The columns that were printed there. */
  function ColumnsIn(data: Bytes, at: nat, n: nat): (cs: seq<WireColumn>)
    requires ParseFields(data, at, n).Ok?
    ensures |cs| == n
    decreases n
  {
    if n == 0 then []
    else [ColumnIn(data[at..])] + ColumnsIn(data, at + ParseField(data[at..]).value.size, n - 1)
  }

  lemma {:induction false} AcceptedColumns(data: Bytes, at: nat, n: nat)
    requires ParseFields(data, at, n).Ok? && at <= |data| + 8
    ensures var cs := ColumnsIn(data, at, n);
            && (forall i | 0 <= i < n :: WellFormedColumn(cs[i]))
            && ParseFields(data, at, n).value == StoredFields(cs) && PrintColumns(cs) <= (data + Zeros())[at..]
    decreases n
  {
    hide ParseField, ColumnIn, WellFormedColumn, PrintColumn, Zeros;
    if n > 0 {
      var size := ParseField(data[at..]).value.size;
      AcceptedColumn(data[at..]);
      AcceptedColumns(data, at + size, n - 1);
      var padded := data + Zeros();
      assert (data[at..] + Zeros())[..size] == padded[at..][..size];
      assert padded[at..] == padded[at..][..size] + padded[at + size..];
      var cs := ColumnsIn(data, at, n);
      assert cs[1..] == ColumnsIn(data, at + size, n - 1);
      assert StoredFields(cs) == StoredFields([cs[0]]) + StoredFields(cs[1..]);
    }
  }

  lemma PartsOfHeader(data: Bytes)
    requires ParseHeader(data).Ok?
    ensures var h := ParseHeader(data).value;
            var a, b := 5 + |h.namespace| + 1, h.end - 3;
            && 10 <= h.end <= |data| && a <= b && b == a + |h.name| + 1
            && ExtractString(data[5..]) == Ok(h.namespace) && ExtractString(data[a..]) == Ok(h.name)
            && h.oid == U32(data[1..]) && ReplicaFromTag(data[b]) == Ok(h.replicaId)
            && h.columns == U16(data[b + 1..])
  {
    hide U16, U32, ReplicaFromTag, Ascii, ValidUtf8, FirstNul;
  }

  lemma StringAt(data: Bytes, at: nat)
    requires at <= |data| && ExtractString(data[at..]).Ok?
    ensures var s := ExtractString(data[at..]).value;
            ValidName(s) && at + |s| + 1 <= |data| && data[at..at + |s| + 1] == s + [NUL]
  {
    hide ExtractString, ValidName;
    ExtractedIsTerminated(data[at..]);
    var s := ExtractString(data[at..]).value;
    assert data[at..][..|s| + 1] == data[at..at + |s| + 1];
  }

  lemma JoinPieces(data: Bytes, oid: Bytes, namespace: Bytes, name: Bytes, identity: Byte, columns: Bytes)
    requires var a, b := 5 + |namespace| + 1, 5 + |namespace| + 1 + |name| + 1;
             && b + 1 + |columns| <= |data| && |oid| == 4
             && data[1..5] == oid && data[5..a] == namespace + [NUL] && data[a..b] == name + [NUL]
             && data[b] == identity && data[b + 1..b + 1 + |columns|] == columns
    ensures var b := 5 + |namespace| + 1 + |name| + 1;
            data[1..b + 1 + |columns|] == oid + namespace + [NUL] + name + [NUL] + [identity] + columns
  {
    var a, b := 5 + |namespace| + 1, 5 + |namespace| + 1 + |name| + 1;
    var end := b + 1 + |columns|;
    assert data[1..end] == data[1..5] + data[5..a] + data[a..b] + [data[b]] + data[b + 1..end];
    assert oid + (namespace + [NUL]) + (name + [NUL]) + [identity] + columns ==
           oid + namespace + [NUL] + name + [NUL] + [identity] + columns;
  }

  lemma OctetsAt16(data: Bytes, at: nat)
    requires at + 2 <= |data|
    ensures data[at..at + 2] == Put16(U16(data[at..]))
  {
    hide U16, Put16;
    Printed16(data[at..]);
    assert data[at..][..2] == data[at..at + 2];
  }

  lemma OctetsAt32(data: Bytes, at: nat)
    requires at + 4 <= |data|
    ensures data[at..at + 4] == Put32(U32(data[at..]))
  {
    hide U32, Put32;
    Printed32(data[at..]);
    assert data[at..][..4] == data[at..at + 4];
  }

  lemma IdentityInHeader(data: Bytes)
    requires ParseHeader(data).Ok?
    ensures var h := ParseHeader(data).value; 3 <= h.end <= |data| && data[h.end - 3] == IdentityOctet(h.replicaId)
  {
    PartsOfHeader(data);
    hide ParseHeader, ExtractString, ReplicaFromTag, IdentityOctet;
    AcceptedIdentity(data[ParseHeader(data).value.end - 3]);
  }

  lemma NamesInHeader(data: Bytes)
    requires ParseHeader(data).Ok?
    ensures var h := ParseHeader(data).value;
            var a := 5 + |h.namespace| + 1;
            && ValidName(h.namespace) && ValidName(h.name) && a + |h.name| + 1 <= |data|
            && data[5..a] == h.namespace + [NUL] && data[a..a + |h.name| + 1] == h.name + [NUL]
  {
    PartsOfHeader(data);
    hide ParseHeader, ExtractString, ReplicaFromTag, ValidName;
    StringAt(data, 5);
    StringAt(data, 5 + |ParseHeader(data).value.namespace| + 1);
  }

  /** Everything before the columns is as it is printed. */
  lemma AcceptedHeader(data: Bytes)
    requires ParseHeader(data).Ok?
    ensures var h := ParseHeader(data).value;
            && ValidName(h.namespace) && ValidName(h.name) && 10 <= h.end <= |data|
            && data[1..h.end] == Put32(h.oid) + h.namespace + [NUL] + h.name + [NUL] + [IdentityOctet(h.replicaId)]
                                 + Put16(h.columns)
  {
    hide *;
    PartsOfHeader(data);
    NamesInHeader(data);
    IdentityInHeader(data);
    var h := ParseHeader(data).value;
    OctetsAt32(data, 1);
    OctetsAt16(data, h.end - 2);
    JoinPieces(data, Put32(h.oid), h.namespace, h.name, IdentityOctet(h.replicaId), Put16(h.columns));
  }

  lemma AcceptedIdentity(tag: Byte)
    requires ReplicaFromTag(tag).Ok?
    ensures IdentityOctet(ReplicaFromTag(tag).value) == tag
  {
  }

  /** The octets of a relation message after the first, which says that it is one. */
  predicate Announces(data: Bytes, w: WireRelation)
  {
    WellFormed(w) && PrintRelation(w)[1..] <= (data + Zeros())[1..]
  }

  /** The relation that was printed there. */
  function RelationIn(data: Bytes): (w: WireRelation)
    requires ParseRelation(data).Ok?
    ensures |w.columns| < 0x1_0000
  {
    var h := ParseHeader(data).value;
    WireRelation(h.oid, h.namespace, h.name, h.replicaId, ColumnsIn(data, h.end, h.columns))
  }

  lemma PrintedAfterTag(w: WireRelation)
    requires |w.columns| < 0x1_0000
    ensures PrintRelation(w)[1..] ==
            Put32(w.oid) + w.namespace + [NUL] + w.name + [NUL] + [IdentityOctet(w.identity)] + Put16(|w.columns|)
            + PrintColumns(w.columns)
  {
    hide Put16, Put32, PrintColumns;
  }

  lemma JoinRelation(data: Bytes, w: WireRelation, end: nat)
    requires |w.columns| < 0x1_0000 && 1 <= end <= |data|
    requires data[1..end] == Put32(w.oid) + w.namespace + [NUL] + w.name + [NUL] + [IdentityOctet(w.identity)]
                             + Put16(|w.columns|)
    requires PrintColumns(w.columns) <= (data + Zeros())[end..]
    ensures PrintRelation(w)[1..] <= (data + Zeros())[1..]
  {
    hide Put16, Put32, PrintColumns, IdentityOctet, PrintRelation, Zeros;
    PrintedAfterTag(w);
    var padded := data + Zeros();
    assert padded[1..] == data[1..end] + padded[end..];
  }

  /** Nothing but a printed relation is accepted, whatever the octets, and it is taken for what it means. Only the end
      of a logical column may be missing at the end of the message, by eight octets at most. */
  lemma AcceptedRelation(data: Bytes)
    requires ParseRelation(data).Ok?
    ensures var w := RelationIn(data);
            && Announces(data, w)
            && ParseRelation(data).value ==
               RelationData(Denoted(w), KeyFields(StoredFields(w.columns)), KeyIndexes(StoredFields(w.columns)))
  {
    var h, w := ParseHeader(data).value, RelationIn(data);
    hide ParseHeader, ParseFields, ColumnsIn, Put16, Put32, PrintColumns, StoredFields, WellFormedColumn, ValidName,
      IdentityOctet, KeyFields, KeyIndexes, PrintRelation, Zeros;
    AcceptedHeader(data);
    AcceptedColumns(data, h.end, h.columns);
    JoinRelation(data, w, h.end);
  }

  // ----- Tuples -----

  /** The octets of a value; the server writes 1 for true, but anything save 0 is taken for it. */
  predicate Spells(octets: Bytes, w: WireValue)
  {
    || octets == PrintValue(w)
    || (w == BinaryCol(PgValue.Bool(true)) && |octets| == 6 && octets[..5] == PrintValue(w)[..5] && octets[5] != 0)
  }

  /** The value that was printed there. */
  function ValueIn(data: Bytes, kind: FieldKind, isUpdate: bool): WireValue
    requires ParseValue(data, kind, isUpdate).Ok?
  {
    if data[0] == WIRE_NULL then NullCol
    else if data[0] == WIRE_TOAST then ToastCol
    else if data[0] == WIRE_TEXT then TextCol(data[5..ParseValue(data, kind, isUpdate).value.1])
    else BinaryCol(ParseValue(data, kind, isUpdate).value.0)
  }

  lemma AcceptedPayload(data: Bytes, kind: FieldKind)
    requires |data| >= 5 && ParseBinary(data, U32(data[1..]), kind).Ok?
    ensures var l, v := U32(data[1..]), ParseBinary(data, U32(data[1..]), kind).value;
            && 5 + l <= |data| && WellFormedValue(BinaryCol(v), kind) && |Payload(v)| == l
            && (data[5..5 + l] == Payload(v) || (v == PgValue.Bool(true) && l == 1 && data[5] != 0))
  {
    hide U32, U64, I32, I64, PutI32, PutI64, ValidUtf8;
    match kind {
      case Int4 => PrintedI32(data[5..]);
      case Int8 => PrintedI64(data[5..]);
      case Timestamp => PrintedI64(data[5..]);
      case _ =>
    }
  }

  lemma JoinValue(data: Bytes, tag: Byte, payload: Bytes)
    requires |data| >= 5 && data[0] == tag && U32(data[1..]) == |payload|
    ensures [tag] + (PrintLength(payload) + payload) == data[..5] + payload
  {
    hide U32, Put32;
    Printed32(data[1..]);
    assert data[..5] == [data[0]] + data[1..][..4];
  }

  lemma AcceptedText(data: Bytes, kind: FieldKind, isUpdate: bool)
    requires data != [] && data[0] == WIRE_TEXT && ParseValue(data, kind, isUpdate).Ok?
    ensures var (v, n) := ParseValue(data, kind, isUpdate).value;
            && 5 <= n <= |data| && WellFormedValue(TextCol(data[5..n]), kind) && v == PgValue.Text(data[5..n])
            && PrintValue(TextCol(data[5..n])) == data[..n]
  {
    hide U32, ValidUtf8, PrintLength;
    var l := U32(data[1..]);
    JoinValue(data, WIRE_TEXT, data[5..5 + l]);
    assert data[..5 + l] == data[..5] + data[5..5 + l];
  }

  lemma AcceptedBinary(data: Bytes, kind: FieldKind, isUpdate: bool)
    requires data != [] && data[0] == WIRE_BINARY && ParseValue(data, kind, isUpdate).Ok?
    ensures var (v, n) := ParseValue(data, kind, isUpdate).value;
            && n == |PrintValue(BinaryCol(v))| <= |data| && WellFormedValue(BinaryCol(v), kind)
            && Spells(data[..n], BinaryCol(v))
  {
    hide U32, ValidUtf8, ParseBinary, PrintLength, Payload, WellFormedValue;
    var l, v := U32(data[1..]), ParseValue(data, kind, isUpdate).value.0;
    AcceptedPayload(data, kind);
    JoinValue(data, WIRE_BINARY, Payload(v));
    assert data[..5 + l] == data[..5] + data[5..5 + l];
  }

  /** Nothing but a printed value of the column's kind is accepted, in its own size. */
  lemma AcceptedValue(data: Bytes, kind: FieldKind, isUpdate: bool)
    requires ParseValue(data, kind, isUpdate).Ok?
    ensures var (v, n) := ParseValue(data, kind, isUpdate).value;
            var w := ValueIn(data, kind, isUpdate);
            && n == |PrintValue(w)| <= |data| && WellFormedValue(w, kind) && (w.ToastCol? ==> isUpdate)
            && ValueOf(w) == v && Spells(data[..n], w)
  {
    hide U32, ParseBinary, ValidUtf8;
    if data[0] == WIRE_TEXT {
      AcceptedText(data, kind, isUpdate);
      hide ParseValue, PrintValue, WellFormedValue;
    } else if data[0] == WIRE_BINARY {
      AcceptedBinary(data, kind, isUpdate);
      hide PrintValue, WellFormedValue, Spells;
    }
  }

  predicate SpellsAll(octets: Bytes, ws: seq<WireValue>)
  {
    if ws == [] then octets == []
    else
      var n := |PrintValue(ws[0])|;
      n <= |octets| && Spells(octets[..n], ws[0]) && SpellsAll(octets[n..], ws[1..])
  }

  /** The values that were printed there. */
  function ValuesIn(data: Bytes, at: nat, fields: seq<Field>, isUpdate: bool): (ws: seq<WireValue>)
    requires ParseCols(data, at, fields, isUpdate).Ok?
    ensures |ws| == |fields|
    decreases |fields|
  {
    if fields == [] then []
    else
      var next := at + ParseValue(data[at..], fields[0].kind, isUpdate).value.1;
      [ValueIn(data[at..], fields[0].kind, isUpdate)] + ValuesIn(data, next, fields[1..], isUpdate)
  }

  lemma {:induction false} AcceptedCols(data: Bytes, at: nat, fields: seq<Field>, isUpdate: bool)
    requires at <= |data| && ParseCols(data, at, fields, isUpdate).Ok?
    ensures var (row, end) := ParseCols(data, at, fields, isUpdate).value;
            var ws := ValuesIn(data, at, fields, isUpdate);
            && at <= end <= |data| && WellFormedCols(ws, fields, isUpdate) && row == ValuesOf(ws)
            && SpellsAll(data[at..end], ws)
    decreases |fields|
  {
    hide ParseValue, ValueIn, Spells, PrintValue, WellFormedValue;
    if fields != [] {
      AcceptedValue(data[at..], fields[0].kind, isUpdate);
      var next := at + ParseValue(data[at..], fields[0].kind, isUpdate).value.1;
      AcceptedCols(data, next, fields[1..], isUpdate);
      var end, ws := ParseCols(data, at, fields, isUpdate).value.1, ValuesIn(data, at, fields, isUpdate);
      assert data[at..end][..next - at] == data[at..][..next - at] && data[at..end][next - at..] == data[next..end];
      assert ws[1..] == ValuesIn(data, next, fields[1..], isUpdate);
    }
  }

  lemma TakenColumns(ws: seq<WireValue>, fields: seq<Field>, isUpdate: bool)
    requires |ws| <= |fields| && WellFormedCols(ws, fields[..|ws|], isUpdate)
    ensures WellFormedCols(ws, fields, isUpdate)
  {
    hide WellFormedValue;
    var taken := fields[..|ws|];
    assert forall i | 0 <= i < |ws| :: taken[i] == fields[i];
  }

  /** The tuple's count, and then its columns. */
  predicate SpellsTuple(octets: Bytes, ws: seq<WireValue>)
  {
    |octets| >= 2 && octets[..2] == PrintTuple(ws)[..2] && SpellsAll(octets[2..], ws)
  }

  lemma JoinTuple(data: Bytes, end: nat, ws: seq<WireValue>)
    requires 2 <= end <= |data| && U16(data) == |ws| && SpellsAll(data[2..end], ws)
    ensures SpellsTuple(data[..end], ws)
  {
    hide U16, Put16, PrintCols, SpellsAll;
    Printed16(data);
    assert PrintTuple(ws)[..2] == Put16(|ws|) == data[..2] == data[..end][..2];
    assert data[..end][2..] == data[2..end];
  }

  /** Nothing but a printed tuple is accepted, whatever the octets: as many columns as it announces, each of its own
      kind, and toasted only in updates. */
  lemma AcceptedTuple(data: Bytes, fields: seq<Field>, isUpdate: bool)
    requires ParseTuple(data, fields, isUpdate).Ok?
    ensures var (row, end) := ParseTuple(data, fields, isUpdate).value;
            end <= |data| && exists ws ::
              WellFormedCols(ws, fields, isUpdate) && row == ValuesOf(ws) && SpellsTuple(data[..end], ws)
  {
    hide U16, ParseCols, ValuesIn, SpellsAll, SpellsTuple, ValuesOf, WellFormedCols;
    var n, end := U16(data), ParseTuple(data, fields, isUpdate).value.1;
    AcceptedCols(data, 2, fields[..n], isUpdate);
    var ws := ValuesIn(data, 2, fields[..n], isUpdate);
    TakenColumns(ws, fields, isUpdate);
    JoinTuple(data, end, ws);
  }

  // ----- Messages -----

  /** An old tuple is a key under key identity or a row under full identity; anything else is refused. */
  lemma AcceptedOldTuple(data: Bytes, relation: RelationData)
    requires GetOldTupleData(data, relation).Ok?
    ensures data != []
    ensures data[0] == if relation.inner.replicaId == Keys then WIRE_KEY else WIRE_OLD
  {
    hide ParseTuple;
  }

  /** A new tuple has its tag. */
  lemma AcceptedNewTuple(data: Bytes, fields: seq<Field>, isUpdate: bool)
    requires GetNewTupleData(data, fields, isUpdate).Ok?
    ensures data != [] && data[0] == WIRE_NEW && ParseTuple(data[1..], fields, isUpdate).Ok?
  {
    hide ParseTuple;
  }

  /** Messages about relations that were not announced, and messages that end before the relation, are refused. */
  lemma UnannouncedIsRefused(data: Bytes, relations: RelationMap)
    requires data != [] && (|data| >= 5 ==> U32(data[1..]) !in relations)
    ensures ParseChange(data, relations) ==
            Err(if |data| >= 5 then DecoderError.UnknownRelation(U32(data[1..])) else TruncatedInput)
  {
    hide U32, GetOldTupleData, GetNewTupleData;
  }
}
