/** Relation messages: the parser, and the printer it undoes. */
module RelationDecoder {
  import opened Wrappers
  import opened Wire
  import opened ChangeEvents
  import opened NulSearch

  const TAG_RELATION := 'R' as Byte
  const TAG_DEFAULT := 'd' as Byte
  const TAG_FULL := 'f' as Byte

  // ----- Parser -----

  /** A C string; the ASCII case skips validation. */
  function ExtractString(data: Bytes): (r: Decoded<Bytes>)
    ensures r.Ok? ==> |r.value| < |data|
  {
    match FirstNul(data)
    case None => Err(TruncatedInput)
    case Some(nul) =>
      FirstNulMeaning(data, Some(nul));
      if Ascii(data[..nul]) then Ok(data[..nul])
      else if ValidUtf8(data[..nul]) then Ok(data[..nul])
      else Err(NonUtf8)
  }

  /** Runs the word-parallel search instead of the reference. */
  method ReadString(data: Bytes) returns (r: Decoded<Bytes>)
    ensures r == ExtractString(data)
  {
    var found := FindNullWord(data);
    match found {
      case None =>
        return Err(TruncatedInput);
      case Some(nul) =>
        FirstNulMeaning(data, Some(nul));
        if Ascii(data[..nul]) {
          return Ok(data[..nul]);
        }
        return if ValidUtf8(data[..nul]) then Ok(data[..nul]) else Err(NonUtf8);
    }
  }

  /** A column is physical, or logical and then absent from tuples; either way its size is needed. */
  datatype FieldParseResult = Physical(field: Field, size: nat) | Logical(size: nat)

  function ByteSizeLen(nameLength: nat): nat
  {
    10 + nameLength
  }

  function KindFromOid(oid: UInt32): Decoded<FieldKind>
  {
    match oid
    case 16 => Ok(FieldKind.Bool)
    case 20 => Ok(FieldKind.Int8)
    case 23 => Ok(FieldKind.Int4)
    case 25 => Ok(FieldKind.Text)
    case 1114 => Ok(FieldKind.Timestamp)
    case _ => Err(InvalidOid(oid))
  }

  function ParseField(data: Bytes): Decoded<FieldParseResult>
  {
    if |data| < 10 then Err(TruncatedInput)
    else
      var name :- ExtractString(data[1..]);
      var flag := data[0];
      if flag == 2 || flag == 3 then Ok(Logical(ByteSizeLen(|name|)))
      else if flag != 0 && flag != 1 then Err(WrongFieldDataFlag(flag))
      else
        var afterName := 1 + |name| + 1;
        if |data| < afterName + 8 then Err(IndexPanic)
        else
          var kind :- KindFromOid(U32(data[afterName..]));
          Ok(Physical(Field(flag == 1, name, kind), ByteSizeLen(|name|)))
  }

  function ParseFields(data: Bytes, at: nat, n: nat): Decoded<seq<Field>>
    decreases n
  {
    if n == 0 then Ok([])
    else if at > |data| then Err(IndexPanic)
    else
      var parsed :- ParseField(data[at..]);
      var rest :- ParseFields(data, at + parsed.size, n - 1);
      Ok(StoredField(parsed) + rest)
  }

  datatype Header = Header(oid: UInt32, namespace: Bytes, name: Bytes, replicaId: ReplicaKind, columns: UInt16,
      end: nat)

  /** Everything before the columns. The length check admits inputs one byte short of the column count. */
  function ParseHeader(data: Bytes): Decoded<Header>
  {
    if |data| < 10 then Err(TruncatedInput)
    else
      var oid := U32(data[1..]);
      var namespace :- ExtractString(data[5..]);
      var name :- ExtractString(data[5 + |namespace| + 1..]);
      if |data| < 5 + |namespace| + 1 + |name| + 3 then Err(TruncatedInput)
      else
        var replicaIdPos := 5 + |namespace| + 1 + |name| + 1;
        var replica :- ReplicaFromTag(data[replicaIdPos]);
        if |data| < replicaIdPos + 3 then Err(IndexPanic)
        else Ok(Header(oid, namespace, name, replica, U16(data[replicaIdPos + 1..]), replicaIdPos + 3))
  }

  function ReplicaFromTag(tag: Byte): Decoded<ReplicaKind>
  {
    if tag == TAG_DEFAULT then Ok(Keys) else if tag == TAG_FULL then Ok(Row) else Err(WrongReplicaId(tag))
  }

  function Assemble(h: Header, fields: seq<Field>): RelationData
  {
    RelationData(Relation(h.oid, h.name, h.namespace, fields, h.replicaId), KeyFields(fields), KeyIndexes(fields))
  }

  function ParseRelation(data: Bytes): Decoded<RelationData>
  {
    var h :- ParseHeader(data);
    var fields :- ParseFields(data, h.end, h.columns);
    Ok(Assemble(h, fields))
  }

  function Prepend<T>(front: seq<T>, r: Decoded<seq<T>>): Decoded<seq<T>>
  {
    if r.Ok? then Ok(front + r.value) else r
  }

  function StoredField(parsed: FieldParseResult): seq<Field>
  {
    if parsed.Physical? then [parsed.field] else []
  }

  /** One pass of the loop. */
  lemma ParseFieldsStep(data: Bytes, at: nat, n: nat, fields: seq<Field>)
    requires n > 0
    ensures Prepend(fields, ParseFields(data, at, n)) ==
            if at > |data| then Err(IndexPanic)
            else
              match ParseField(data[at..])
              case Err(e) => Err(e)
              case Ok(parsed) => Prepend(fields + StoredField(parsed), ParseFields(data, at + parsed.size, n - 1))
  {
    hide ParseField;
    if at <= |data| && ParseField(data[at..]).Ok? {
      var parsed := ParseField(data[at..]).value;
      var rest := ParseFields(data, at + parsed.size, n - 1);
      if rest.Ok? {
        assert fields + (StoredField(parsed) + rest.value) == fields + StoredField(parsed) + rest.value;
      }
    }
  }

  /** The parser's loop over the columns. */
  method Parse(data: Bytes) returns (r: Decoded<RelationData>)
    ensures r == ParseRelation(data)
  {
    hide ParseField, ParseHeader;
    var h :- ParseHeader(data);
    var colStart: nat := h.end;
    var fields: seq<Field> := [];
    assert ParseFields(data, h.end, h.columns) == Prepend(fields, ParseFields(data, h.end, h.columns)) by {
      var all := ParseFields(data, h.end, h.columns);
      assert all.Ok? ==> fields + all.value == all.value;
    }
    for i := 0 to h.columns
      invariant ParseFields(data, h.end, h.columns) == Prepend(fields, ParseFields(data, colStart, h.columns - i))
    {
      ParseFieldsStep(data, colStart, h.columns - i, fields);
      if colStart > |data| {
        return Err(IndexPanic);
      }
      var parsed :- ParseField(data[colStart..]);
      colStart := colStart + parsed.size;
      fields := fields + StoredField(parsed);
    }
    assert fields + [] == fields;
    return Ok(Assemble(h, fields));
  }

  // ----- Printer: section 55.9 of the PostgreSQL 16 manual -----

  const WIRE_RELATION: Byte := 0x52

  /** A column that appears in tuples, of a kind the decoder knows, or one that does not. */
  datatype WireColumn =
    | StoredColumn(isKey: bool, name: Bytes, kind: FieldKind, typeModifier: UInt32)
    | LogicalColumn(isKey: bool, name: Bytes, typeOid: UInt32, typeModifier: UInt32)

  datatype WireRelation = WireRelation(oid: UInt32, namespace: Bytes, name: Bytes, identity: ReplicaKind,
      columns: seq<WireColumn>)

  /** The OIDs of PostgreSQL's own types. */
  function OidOf(kind: FieldKind): UInt32
  {
    match kind
    case Bool => 16
    case Int8 => 20
    case Int4 => 23
    case Text => 25
    case Timestamp => 1114
  }

  /** The identity octet: the key by default, or the whole row. */
  function IdentityOctet(identity: ReplicaKind): Byte
  {
    match identity
    case Keys => 0x64
    case Row => 0x66
  }

  /** Bit 0 marks a key column, bit 1 a logical one. */
  function FlagOctet(c: WireColumn): Byte
  {
    match c
    case StoredColumn(isKey, _, _, _) => if isKey then 1 else 0
    case LogicalColumn(isKey, _, _, _) => if isKey then 3 else 2
  }

  function TypeOid(c: WireColumn): UInt32
  {
    match c
    case StoredColumn(_, _, kind, _) => OidOf(kind)
    case LogicalColumn(_, _, typeOid, _) => typeOid
  }

  function PrintColumn(c: WireColumn): (data: Bytes)
    ensures |data| == |c.name| + 10
  {
    [FlagOctet(c)] + c.name + [NUL] + Put32(TypeOid(c)) + Put32(c.typeModifier)
  }

  function PrintColumns(cs: seq<WireColumn>): Bytes
  {
    if cs == [] then [] else PrintColumn(cs[0]) + PrintColumns(cs[1..])
  }

  function PrintReplicaAndColumns(w: WireRelation): Bytes
    requires |w.columns| < 0x1_0000
  {
    [IdentityOctet(w.identity)] + (Put16(|w.columns|) + PrintColumns(w.columns))
  }

  function PrintRelation(w: WireRelation): Bytes
    requires |w.columns| < 0x1_0000
  {
    [WIRE_RELATION] + (Put32(w.oid) + (w.namespace + [NUL] + (w.name + [NUL] + PrintReplicaAndColumns(w))))
  }

  predicate ValidName(s: Bytes)
  {
    NulFree(s) && ValidUtf8(s)
  }

  predicate WellFormedColumn(c: WireColumn)
  {
    ValidName(c.name)
  }

  predicate WellFormed(w: WireRelation)
  {
    && |w.columns| < 0x1_0000
    && ValidName(w.namespace) && ValidName(w.name)
    && forall i | 0 <= i < |w.columns| :: WellFormedColumn(w.columns[i])
  }

  /** The stored columns; the others never appear in tuples. */
  function StoredFields(cs: seq<WireColumn>): seq<Field>
  {
    if cs == [] then []
    else
      match cs[0]
      case StoredColumn(isKey, name, kind, _) => [Field(isKey, name, kind)] + StoredFields(cs[1..])
      case LogicalColumn(_, _, _, _) => StoredFields(cs[1..])
  }

  function Denoted(w: WireRelation): Relation
  {
    Relation(w.oid, w.name, w.namespace, StoredFields(w.columns), w.identity)
  }

  // ----- The parser undoes the printer -----

  lemma ExtractTerminated(s: Bytes, tail: Bytes)
    requires ValidName(s)
    ensures ExtractString(s + [NUL] + tail) == Ok(s)
  {
    FirstNulOfTerminated(s, tail);
    assert (s + [NUL] + tail)[..|s|] == s;
  }

  lemma ParsePrintedColumn(c: WireColumn, tail: Bytes)
    requires WellFormedColumn(c)
    ensures var r := ParseField(PrintColumn(c) + tail);
            && r.Ok? && r.value.size == |PrintColumn(c)|
            && StoredField(r.value) == StoredFields([c])
  {
    hide U32, ExtractString;
    var data := PrintColumn(c) + tail;
    var modAndTail := Put32(c.typeModifier) + tail;
    var afterName := 1 + |c.name| + 1;
    assert data[1..] == c.name + [NUL] + (Put32(TypeOid(c)) + modAndTail);
    ExtractTerminated(c.name, Put32(TypeOid(c)) + modAndTail);
    assert data[0] == FlagOctet(c);
    assert data[afterName..] == Put32(TypeOid(c)) + modAndTail;
    Read32(TypeOid(c), modAndTail);
  }

  lemma {:induction false} ParsePrintedColumns(data: Bytes, at: nat, cs: seq<WireColumn>, rest: Bytes)
    requires forall i | 0 <= i < |cs| :: WellFormedColumn(cs[i])
    requires at <= |data| && data[at..] == PrintColumns(cs) + rest
    ensures ParseFields(data, at, |cs|) == Ok(StoredFields(cs))
    decreases |cs|
  {
    hide ParseField, WellFormedColumn;
    if cs != [] {
      var printed, tail := PrintColumn(cs[0]), PrintColumns(cs[1..]) + rest;
      assert data[at..] == printed + tail;
      assert data[at + |printed|..] == tail;
      ParsePrintedColumn(cs[0], tail);
      ParsePrintedColumns(data, at + |printed|, cs[1..], rest);
      assert StoredFields(cs) == StoredFields([cs[0]]) + StoredFields(cs[1..]);
    }
  }

  function HeaderBytes(oid: UInt32, namespace: Bytes, name: Bytes, afterName: Bytes): Bytes
  {
    [WIRE_RELATION] + (Put32(oid) + (namespace + [NUL] + (name + [NUL] + afterName)))
  }

  lemma HeaderLayout(oid: UInt32, namespace: Bytes, name: Bytes, afterName: Bytes)
    ensures var data := HeaderBytes(oid, namespace, name, afterName);
            var a, b := 5 + |namespace| + 1, 5 + |namespace| + 1 + |name| + 1;
            && |data| == b + |afterName|
            && data[1..] == Put32(oid) + data[5..]
            && data[5..] == namespace + [NUL] + data[a..]
            && data[a..] == name + [NUL] + afterName
            && data[b..] == afterName
  {
  }

  lemma ParsePrintedHeader(oid: UInt32, namespace: Bytes, name: Bytes, identity: ReplicaKind, columns: UInt16,
                           body: Bytes)
    requires ValidName(namespace) && ValidName(name)
    ensures var data := HeaderBytes(oid, namespace, name, [IdentityOctet(identity)] + (Put16(columns) + body));
            var end := 5 + |namespace| + 1 + |name| + 4;
            && ParseHeader(data) == Ok(Header(oid, namespace, name, identity, columns, end))
            && data[end..] == body
  {
    hide ExtractString, U16, U32, HeaderBytes, ValidName;
    var tag := IdentityOctet(identity);
    var afterName := [tag] + (Put16(columns) + body);
    var data := HeaderBytes(oid, namespace, name, afterName);
    HeaderLayout(oid, namespace, name, afterName);
    var a, b := 5 + |namespace| + 1, 5 + |namespace| + 1 + |name| + 1;
    Read32(oid, data[5..]);
    ExtractTerminated(namespace, data[a..]);
    ExtractTerminated(name, afterName);
    assert data[b + 1..] == data[b..][1..] == Put16(columns) + body;
    assert data[b] == data[b..][0] == tag;
    Read16(columns, body);
    assert data[b + 3..] == data[b + 1..][2..];
  }

  /** Every relation announced by the server is recovered, whatever follows it in the buffer. */
  lemma RelationRoundTrip(w: WireRelation, rest: Bytes)
    requires WellFormed(w)
    ensures ParseRelation(PrintRelation(w) + rest) ==
            Ok(RelationData(Denoted(w), KeyFields(StoredFields(w.columns)), KeyIndexes(StoredFields(w.columns))))
  {
    hide ParseHeader, ParseFields, PrintColumns, ValidName;
    var n := |w.columns|;
    var body := PrintColumns(w.columns) + rest;
    var data := HeaderBytes(w.oid, w.namespace, w.name, [IdentityOctet(w.identity)] + (Put16(n) + body));
    assert PrintRelation(w) + rest == data;
    ParsePrintedHeader(w.oid, w.namespace, w.name, w.identity, n, body);
    ParsePrintedColumns(data, 5 + |w.namespace| + 1 + |w.name| + 4, w.columns, rest);
  }

  /** Whatever bytes a relation was parsed from, its key projections agree with its columns. */
  predicate Consistent(r: RelationData)
  {
    r.keyFields == KeyFields(r.inner.fields) && r.keyIndexes == KeyIndexes(r.inner.fields)
  }
}
