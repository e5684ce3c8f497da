/** Tuples: values, full-width rows, and the printer they come from. */
module TupleDecoder {
  import opened Wrappers
  import opened Wire
  import opened ChangeEvents

  const TAG_NULL := 'n' as Byte
  const TAG_TOAST := 'u' as Byte
  const TAG_TEXT := 't' as Byte
  const TAG_BINARY := 'b' as Byte

  // ----- Parser -----

  function ParseI64(l: nat, data: Bytes): Decoded<Int64>
  {
    if l != 8 then Err(WrongFieldKind(FieldKind.Int8))
    else if |data| < 13 then Err(TruncatedInput)
    else Ok(I64(data[5..]))
  }

  /** A value and the number of octets it occupies. */
  function ParseValue(data: Bytes, kind: FieldKind, isUpdate: bool): (r: Decoded<(PgValue, nat)>)
  {
    if |data| == 0 then Err(TruncatedInput)
    else if data[0] == TAG_NULL then Ok((PgValue.Null, 1))
    else if data[0] == TAG_TOAST then
      if isUpdate then Ok((Toasted, 1)) else Err(ToastedValueOnNonUpdate)
    else if data[0] == TAG_TEXT then
      if |data| < 5 then Err(TruncatedInput)
      else
        var l := U32(data[1..]);
        if |data| < 5 + l then Err(TruncatedInput)
        else if ValidUtf8(data[5..5 + l]) then Ok((PgValue.Text(data[5..5 + l]), 5 + l))
        else Err(NonUtf8)
    else if data[0] == TAG_BINARY then
      if |data| < 5 then Err(TruncatedInput)
      else
        var l := U32(data[1..]);
        var value :- ParseBinary(data, l, kind);
        Ok((value, 5 + l))
    else Err(WrongColTypeKey(data[0]))
  }

  /** The payload of a binary value; only the text case trusts the announced length. */
  function ParseBinary(data: Bytes, l: UInt32, kind: FieldKind): Decoded<PgValue>
    requires |data| >= 5
  {
    match kind
    case Int4 =>
      if l != 4 then Err(WrongFieldKind(FieldKind.Int4))
      else if |data| < 9 then Err(TruncatedInput)
      else Ok(PgValue.Int4(I32(data[5..])))
    case Text =>
      if |data| < 5 + l then Err(IndexPanic)
      else if ValidUtf8(data[5..5 + l]) then Ok(PgValue.Text(data[5..5 + l]))
      else Err(NonUtf8)
    case Int8 =>
      var n :- ParseI64(l, data);
      Ok(PgValue.Int8(n))
    case Bool =>
      if l != 1 then Err(WrongFieldKind(FieldKind.Bool))
      else if |data| < 6 then Err(TruncatedInput)
      else Ok(PgValue.Bool(data[5] != 0))
    case Timestamp =>
      var n :- ParseI64(l, data);
      Ok(PgValue.Timestamp(n))
  }

  /** One column after another; the result carries the position after the last. */
  function ParseCols(data: Bytes, at: nat, fields: seq<Field>, isUpdate: bool): (r: Decoded<(seq<PgValue>, nat)>)
    ensures r.Ok? ==> |r.value.0| == |fields|
    decreases |fields|
  {
    if fields == [] then Ok(([], at))
    else if at > |data| then Err(IndexPanic)
    else
      var value :- ParseValue(data[at..], fields[0].kind, isUpdate);
      var rest :- ParseCols(data, at + value.1, fields[1..], isUpdate);
      Ok(([value.0] + rest.0, rest.1))
  }

  function ParseTuple(data: Bytes, fields: seq<Field>, isUpdate: bool): (r: Decoded<(seq<PgValue>, nat)>)
    ensures r.Ok? ==> |r.value.0| <= |fields|
  {
    if |data| < 2 then Err(TruncatedInput)
    else
      var n := U16(data);
      if n > |fields| % 0x1_0000 then Err(CorruptedInput)
      else ParseCols(data, 2, fields[..n], isUpdate)
  }

  function PrependRow(front: seq<PgValue>, r: Decoded<(seq<PgValue>, nat)>): Decoded<(seq<PgValue>, nat)>
  {
    if r.Ok? then Ok((front + r.value.0, r.value.1)) else r
  }

  /** One pass of the column loops. */
  lemma ParseColsStep(data: Bytes, at: nat, fields: seq<Field>, isUpdate: bool, cols: seq<PgValue>)
    requires fields != []
    ensures PrependRow(cols, ParseCols(data, at, fields, isUpdate)) ==
            if at > |data| then Err(IndexPanic)
            else
              match ParseValue(data[at..], fields[0].kind, isUpdate)
              case Err(e) => Err(e)
              case Ok(v) => PrependRow(cols + [v.0], ParseCols(data, at + v.1, fields[1..], isUpdate))
  {
    hide ParseValue;
    if at <= |data| && ParseValue(data[at..], fields[0].kind, isUpdate).Ok? {
      var v := ParseValue(data[at..], fields[0].kind, isUpdate).value;
      var rest := ParseCols(data, at + v.1, fields[1..], isUpdate);
      if rest.Ok? {
        assert cols + ([v.0] + rest.value.0) == cols + [v.0] + rest.value.0;
      }
    }
  }

  lemma PrependNoRow(r: Decoded<(seq<PgValue>, nat)>)
    ensures PrependRow([], r) == r
  {
    assert r.Ok? ==> [] + r.value.0 == r.value.0;
  }

  /** A specialised arm: it takes at most `n` of the fields. */
  method NumCols(n: nat, data: Bytes, fields: seq<Field>, isUpdate: bool) returns (r: Decoded<(seq<PgValue>, nat)>)
    ensures r == ParseCols(data, 2, if n <= |fields| then fields[..n] else fields, isUpdate)
  {
    hide ParseValue;
    var taken := if n <= |fields| then fields[..n] else fields;
    var lastPos: nat := 2;
    var cols: seq<PgValue> := [];
    PrependNoRow(ParseCols(data, 2, taken, isUpdate));
    for i := 0 to |taken|
      invariant ParseCols(data, 2, taken, isUpdate) == PrependRow(cols, ParseCols(data, lastPos, taken[i..], isUpdate))
    {
      ParseColsStep(data, lastPos, taken[i..], isUpdate, cols);
      if lastPos > |data| {
        return Err(IndexPanic);
      }
      var value :- ParseValue(data[lastPos..], taken[i].kind, isUpdate);
      lastPos := lastPos + value.1;
      cols := cols + [value.0];
      assert taken[i..][1..] == taken[i + 1..];
    }
    assert cols + [] == cols;
    return Ok((cols, lastPos));
  }

  /** The specialised arms and the general loop agree. */
  method Parse(data: Bytes, fields: seq<Field>, isUpdate: bool) returns (r: Decoded<(seq<PgValue>, nat)>)
    ensures r == ParseTuple(data, fields, isUpdate)
  {
    hide ParseValue;
    if |data| < 2 {
      return Err(TruncatedInput);
    }
    var nCols := U16(data);
    if nCols > |fields| % 0x1_0000 {
      return Err(CorruptedInput);
    }
    match nCols {
      case 1 => r := NumCols(1, data, fields, isUpdate);
      case 2 => r := NumCols(2, data, fields, isUpdate);
      case 3 => r := NumCols(3, data, fields, isUpdate);
      case 4 => r := NumCols(4, data, fields, isUpdate);
      case 5 => r := NumCols(5, data, fields, isUpdate);
      case 6 => r := NumCols(6, data, fields, isUpdate);
      case _ =>
        var lastPos: nat := 2;
        var cols: seq<PgValue> := [];
        PrependNoRow(ParseCols(data, 2, fields[..nCols], isUpdate));
        for i := 0 to nCols
          invariant ParseTuple(data, fields, isUpdate) ==
                    PrependRow(cols, ParseCols(data, lastPos, fields[i..nCols], isUpdate))
        {
          ParseColsStep(data, lastPos, fields[i..nCols], isUpdate, cols);
          if lastPos > |data| {
            return Err(IndexPanic);
          }
          var value :- ParseValue(data[lastPos..], fields[i].kind, isUpdate);
          lastPos := lastPos + value.1;
          cols := cols + [value.0];
          assert fields[i..nCols][1..] == fields[i + 1..nCols];
        }
        assert cols + [] == cols;
        return Ok((cols, lastPos));
    }
  }

  // ----- Printer: the TupleData part of section 55.9 of the PostgreSQL 16 manual -----

  const WIRE_NULL: Byte := 0x6E
  const WIRE_TOAST: Byte := 0x75
  const WIRE_TEXT: Byte := 0x74
  const WIRE_BINARY: Byte := 0x62

  datatype WireValue = NullCol | ToastCol | TextCol(text: Bytes) | BinaryCol(value: PgValue)

  function PrintValue(w: WireValue): (data: Bytes)
    ensures |data| >= 1
  {
    match w
    case NullCol => [WIRE_NULL]
    case ToastCol => [WIRE_TOAST]
    case TextCol(t) => [WIRE_TEXT] + (PrintLength(t) + t)
    case BinaryCol(v) => [WIRE_BINARY] + (PrintLength(Payload(v)) + Payload(v))
  }

  /** Lengths are 32-bit on the wire. */
  function PrintLength(t: Bytes): (data: Bytes)
    ensures |data| == 4
  {
    Put32(|t| % 0x1_0000_0000)
  }

  function Payload(v: PgValue): (p: Bytes)
    ensures v.Text? ==> p == v.text
    ensures !v.Text? ==> |p| <= 8
  {
    match v
    case Text(t) => t
    case Int4(n) => PutI32(n)
    case Int8(n) => PutI64(n)
    case Bool(b) => [if b then 1 else 0]
    case Timestamp(n) => PutI64(n)
    case _ => []
  }

  /** What a column may carry: text for any kind, binary only of the column's own kind. */
  predicate WellFormedValue(w: WireValue, kind: FieldKind)
  {
    match w
    case NullCol => true
    case ToastCol => true
    case TextCol(t) => |t| < 0x1_0000_0000 && ValidUtf8(t)
    case BinaryCol(v) =>
      match v
      case Text(t) => kind == FieldKind.Text && |t| < 0x1_0000_0000 && ValidUtf8(t)
      case Int4(_) => kind == FieldKind.Int4
      case Int8(_) => kind == FieldKind.Int8
      case Bool(_) => kind == FieldKind.Bool
      case Timestamp(_) => kind == FieldKind.Timestamp
      case _ => false
  }

  function ValueOf(w: WireValue): PgValue
  {
    match w
    case NullCol => PgValue.Null
    case ToastCol => Toasted
    case TextCol(t) => PgValue.Text(t)
    case BinaryCol(v) => v
  }

  predicate WellFormedCols(ws: seq<WireValue>, fields: seq<Field>, isUpdate: bool)
  {
    && |ws| <= |fields|
    && forall i | 0 <= i < |ws| :: WellFormedValue(ws[i], fields[i].kind) && (ws[i].ToastCol? ==> isUpdate)
  }

  function PrintCols(ws: seq<WireValue>): Bytes
  {
    if ws == [] then [] else PrintValue(ws[0]) + PrintCols(ws[1..])
  }

  /** The column count is 16-bit on the wire. */
  function PrintTuple(ws: seq<WireValue>): Bytes
  {
    Put16(|ws| % 0x1_0000) + PrintCols(ws)
  }

  function ValuesOf(ws: seq<WireValue>): (row: seq<PgValue>)
    ensures |row| == |ws|
    ensures forall i | 0 <= i < |ws| :: row[i] == ValueOf(ws[i])
  {
    if ws == [] then [] else [ValueOf(ws[0])] + ValuesOf(ws[1..])
  }

  // ----- The parser undoes the printer -----

  lemma LengthPrefixed(tag: Byte, p: Bytes, tail: Bytes)
    requires |p| < 0x1_0000_0000
    ensures var data := [tag] + (PrintLength(p) + p) + tail;
            && |data| == 5 + |p| + |tail| && data[0] == tag
            && U32(data[1..]) == |p|
            && data[5..] == p + tail && data[5..5 + |p|] == p
  {
    hide U32, Put32;
    var data := [tag] + (PrintLength(p) + p) + tail;
    assert data[1..] == Put32(|p|) + (p + tail);
    Read32(|p|, p + tail);
  }

  lemma ParsePrintedText(kind: FieldKind, isUpdate: bool, t: Bytes, tail: Bytes)
    requires |t| < 0x1_0000_0000 && ValidUtf8(t)
    ensures ParseValue(PrintValue(TextCol(t)) + tail, kind, isUpdate) == Ok((PgValue.Text(t), 5 + |t|))
  {
    hide ValidUtf8, U32, PrintLength, ParseBinary;
    LengthPrefixed(WIRE_TEXT, t, tail);
  }

  lemma ParsePrintedBinary(v: PgValue, kind: FieldKind, isUpdate: bool, tail: Bytes)
    requires WellFormedValue(BinaryCol(v), kind)
    ensures ParseValue(PrintValue(BinaryCol(v)) + tail, kind, isUpdate) == Ok((v, 5 + |Payload(v)|))
  {
    hide ValidUtf8, U32, U64, I32, I64, PutI32, PutI64, PrintLength, ParseBinary;
    LengthPrefixed(WIRE_BINARY, Payload(v), tail);
    var data := PrintValue(BinaryCol(v)) + tail;
    ReadPayload(data, v, kind, tail);
  }

  lemma ReadPayload(data: Bytes, v: PgValue, kind: FieldKind, tail: Bytes)
    requires WellFormedValue(BinaryCol(v), kind)
    requires |data| == 5 + |Payload(v)| + |tail| && data[5..] == Payload(v) + tail &&
             data[5..5 + |Payload(v)|] == Payload(v)
    ensures ParseBinary(data, |Payload(v)|, kind) == Ok(v)
  {
    hide ValidUtf8, U32, U64, I32, I64, PutI32, PutI64;
    match v {
      case Int4(n) => ReadI32(n, tail);
      case Int8(n) => ReadI64(n, tail);
      case Timestamp(n) => ReadI64(n, tail);
      case Bool(b) => assert data[5] == data[5..][0];
      case _ =>
    }
  }

  lemma ParsePrintedValue(w: WireValue, kind: FieldKind, isUpdate: bool, tail: Bytes)
    requires WellFormedValue(w, kind) && (w.ToastCol? ==> isUpdate)
    ensures ParseValue(PrintValue(w) + tail, kind, isUpdate) == Ok((ValueOf(w), |PrintValue(w)|))
  {
    match w {
      case NullCol => assert (PrintValue(w) + tail)[0] == WIRE_NULL;
      case ToastCol => assert (PrintValue(w) + tail)[0] == WIRE_TOAST;
      case TextCol(t) => ParsePrintedText(kind, isUpdate, t, tail);
      case BinaryCol(v) => ParsePrintedBinary(v, kind, isUpdate, tail);
    }
  }

  lemma {:induction false} ParsePrintedCols(data: Bytes, at: nat, ws: seq<WireValue>, fields: seq<Field>,
                                            isUpdate: bool, rest: Bytes)
    requires WellFormedCols(ws, fields, isUpdate) && |ws| == |fields|
    requires at <= |data| && data[at..] == PrintCols(ws) + rest
    ensures ParseCols(data, at, fields, isUpdate) == Ok((ValuesOf(ws), at + |PrintCols(ws)|))
    decreases |ws|
  {
    hide ParseValue, PrintValue, WellFormedValue;
    if ws != [] {
      var printed, tail := PrintValue(ws[0]), PrintCols(ws[1..]) + rest;
      assert data[at..] == printed + tail;
      assert data[at + |printed|..] == tail;
      ParsePrintedValue(ws[0], fields[0].kind, isUpdate, tail);
      ParsePrintedCols(data, at + |printed|, ws[1..], fields[1..], isUpdate, rest);
    }
  }

  lemma TupleLayout(ws: seq<WireValue>, rest: Bytes)
    requires |ws| < 0x1_0000
    ensures var data := PrintTuple(ws) + rest;
            |data| >= 2 && U16(data) == |ws| && data[2..] == PrintCols(ws) + rest
  {
    hide U16, Put16, PrintCols;
    assert PrintTuple(ws) + rest == Put16(|ws|) + (PrintCols(ws) + rest);
    Read16(|ws|, PrintCols(ws) + rest);
    DropFront(Put16(|ws|), PrintCols(ws) + rest);
  }

  /** Every mix of null, toasted, text and binary columns is read back, in exactly the printed length. */
  lemma TupleRoundTrip(ws: seq<WireValue>, fields: seq<Field>, isUpdate: bool, rest: Bytes)
    requires WellFormedCols(ws, fields, isUpdate) && |fields| < 0x1_0000
    ensures ParseTuple(PrintTuple(ws) + rest, fields, isUpdate) == Ok((ValuesOf(ws), |PrintTuple(ws)|))
  {
    hide U16, ParseCols, PrintCols, WellFormedValue;
    TupleLayout(ws, rest);
    ParsePrintedCols(PrintTuple(ws) + rest, 2, ws, fields[..|ws|], isUpdate, rest);
  }

  /** Tuples read with toast forbidden hold no toasted value, whatever the bytes. */
  lemma {:induction false} NoToastUnlessUpdate(data: Bytes, at: nat, fields: seq<Field>)
    requires ParseCols(data, at, fields, false).Ok?
    ensures Toasted !in ParseCols(data, at, fields, false).value.0
    decreases |fields|
  {
    if fields != [] {
      NoToastUnlessUpdate(data, at + ParseValue(data[at..], fields[0].kind, false).value.1, fields[1..]);
    }
  }

  /** Nor do they report a wrong tuple tag. */
  lemma {:induction false} ParseColsNeverMistakesTag(data: Bytes, at: nat, fields: seq<Field>, isUpdate: bool)
    ensures ParseCols(data, at, fields, isUpdate).Err? ==>
            !ParseCols(data, at, fields, isUpdate).error.WrongOldTupleKey?
    decreases |fields|
  {
    if fields != [] && at <= |data| && ParseValue(data[at..], fields[0].kind, isUpdate).Ok? {
      ParseColsNeverMistakesTag(data, at + ParseValue(data[at..], fields[0].kind, isUpdate).value.1, fields[1..],
          isUpdate);
    }
  }

  // ----- Columns read under another kind -----

  /** A printed value can be read, if only as something else, under a column of the given kind. */
  predicate ReadsAs(w: WireValue, kind: FieldKind)
  {
    match w
    case NullCol => true
    case ToastCol => false
    case TextCol(_) => true
    case BinaryCol(v) =>
      match kind
      case Int4 => |Payload(v)| == 4
      case Int8 => |Payload(v)| == 8
      case Timestamp => |Payload(v)| == 8
      case Bool => |Payload(v)| == 1
      case Text => ValidUtf8(Payload(v))
  }

  lemma OwnKindReads(w: WireValue, kind: FieldKind)
    requires WellFormedValue(w, kind) && !w.ToastCol?
    ensures ReadsAs(w, kind)
  {
    hide ValidUtf8;
  }

  lemma ReadBinaryAs(v: PgValue, own: FieldKind, kind: FieldKind, tail: Bytes)
    requires WellFormedValue(BinaryCol(v), own)
    ensures var r := ParseValue(PrintValue(BinaryCol(v)) + tail, kind, false);
            if ReadsAs(BinaryCol(v), kind) then r.Ok? && r.value.1 == |PrintValue(BinaryCol(v))|
            else r.Err? && r.error != IndexPanic
  {
    assert |Payload(v)| < 0x1_0000_0000;
    hide ValidUtf8, U32, U64, I32, I64, PutI32, PutI64, PrintLength, Payload, WellFormedValue;
    LengthPrefixed(WIRE_BINARY, Payload(v), tail);
  }

  /** It is, in its own size, or the value is refused; it never runs over the end of the input. */
  lemma ReadsAsIff(w: WireValue, own: FieldKind, kind: FieldKind, tail: Bytes)
    requires WellFormedValue(w, own) && !w.ToastCol?
    ensures var r := ParseValue(PrintValue(w) + tail, kind, false);
            if ReadsAs(w, kind) then r.Ok? && r.value.1 == |PrintValue(w)| else r.Err? && r.error != IndexPanic
  {
    match w {
      case NullCol => assert (PrintValue(w) + tail)[0] == WIRE_NULL;
      case TextCol(t) => ParsePrintedText(kind, false, t, tail);
      case BinaryCol(v) => ReadBinaryAs(v, own, kind, tail);
    }
  }

  /** Columns read from the front of a printed tuple under other fields. */
  lemma {:induction false} ReadColsAsIff(data: Bytes, at: nat, ws: seq<WireValue>, own: seq<Field>, fields: seq<Field>,
                                         rest: Bytes)
    requires |fields| <= |ws| == |own|
    requires forall i | 0 <= i < |ws| :: WellFormedValue(ws[i], own[i].kind) && !ws[i].ToastCol?
    requires at <= |data| && data[at..] == PrintCols(ws) + rest
    ensures var r := ParseCols(data, at, fields, false);
            if forall i | 0 <= i < |fields| :: ReadsAs(ws[i], fields[i].kind) then r.Ok?
            else r.Err? && r.error != IndexPanic
    decreases |fields|
  {
    hide ParseValue, PrintValue, WellFormedValue, ReadsAs;
    if fields != [] {
      var printed, tail := PrintValue(ws[0]), PrintCols(ws[1..]) + rest;
      assert data[at..] == printed + tail;
      assert data[at + |printed|..] == tail;
      ReadsAsIff(ws[0], own[0].kind, fields[0].kind, tail);
      ReadColsAsIff(data, at + |printed|, ws[1..], own[1..], fields[1..], rest);
      ShiftedColumns(ws, fields);
    }
  }

  lemma ShiftedColumns(ws: seq<WireValue>, fields: seq<Field>)
    requires 0 < |fields| <= |ws|
    ensures (forall i | 0 <= i < |fields| :: ReadsAs(ws[i], fields[i].kind)) <==>
            ReadsAs(ws[0], fields[0].kind) &&
            forall i | 0 <= i < |fields[1..]| :: ReadsAs(ws[1..][i], fields[1..][i].kind)
  {
    hide ReadsAs;
    forall i | 1 <= i < |fields| ensures ws[i] == ws[1..][i - 1] && fields[i] == fields[1..][i - 1] {
    }
  }

  // ----- Columns that run over the end of the input -----

  /** A binary text that announces more octets than there are: the one value at which the program stops. */
  predicate TextRunsOver(data: Bytes, kind: FieldKind)
  {
    kind == FieldKind.Text && |data| >= 5 && data[0] == WIRE_BINARY && |data| < 5 + U32(data[1..])
  }

  lemma ValueStopsIff(data: Bytes, kind: FieldKind, isUpdate: bool)
    ensures ParseValue(data, kind, isUpdate) == Err(IndexPanic) <==> TextRunsOver(data, kind)
    ensures ParseValue(data, kind, isUpdate).Ok? ==> ParseValue(data, kind, isUpdate).value.1 <= |data|
  {
    hide ValidUtf8, U32, U64, I32, I64;
  }

  predicate ColumnRunsOver(data: Bytes, at: nat, fields: seq<Field>, isUpdate: bool, j: nat)
    requires j < |fields|
  {
    var before := ParseCols(data, at, fields[..j], isUpdate);
    before.Ok? && before.value.1 <= |data| && TextRunsOver(data[before.value.1..], fields[j].kind)
  }

  /** Whatever the octets, columns stop the program exactly when one of them is such a text and those before it read. */
  lemma {:induction false} ColsStopIff(data: Bytes, at: nat, fields: seq<Field>, isUpdate: bool)
    requires at <= |data|
    ensures ParseCols(data, at, fields, isUpdate) == Err(IndexPanic) <==>
            exists j: nat | j < |fields| :: ColumnRunsOver(data, at, fields, isUpdate, j)
    decreases |fields|
  {
    hide ParseValue, TextRunsOver;
    if fields != [] {
      ValueStopsIff(data[at..], fields[0].kind, isUpdate);
      FirstColumnRunsOver(data, at, fields, isUpdate);
      var first := ParseValue(data[at..], fields[0].kind, isUpdate);
      if first.Ok? {
        var next := at + first.value.1;
        ColsStopIff(data, next, fields[1..], isUpdate);
        forall j: nat | 0 < j < |fields|
          ensures ColumnRunsOver(data, at, fields, isUpdate, j) <==>
                  ColumnRunsOver(data, next, fields[1..], isUpdate, j - 1)
        {
          LaterColumnRunsOver(data, at, fields, isUpdate, j);
        }
        if exists j: nat | j < |fields[1..]| :: ColumnRunsOver(data, next, fields[1..], isUpdate, j) {
          var j: nat :| j < |fields[1..]| && ColumnRunsOver(data, next, fields[1..], isUpdate, j);
          assert ColumnRunsOver(data, at, fields, isUpdate, j + 1);
        }
      } else {
        forall j: nat | 0 < j < |fields| ensures !ColumnRunsOver(data, at, fields, isUpdate, j) {
          LaterColumnRunsOver(data, at, fields, isUpdate, j);
        }
      }
    }
  }

  lemma FirstColumnRunsOver(data: Bytes, at: nat, fields: seq<Field>, isUpdate: bool)
    requires at <= |data| && fields != []
    ensures ColumnRunsOver(data, at, fields, isUpdate, 0) <==> TextRunsOver(data[at..], fields[0].kind)
  {
    hide TextRunsOver;
    assert fields[..0] == [];
  }

  lemma LaterColumnRunsOver(data: Bytes, at: nat, fields: seq<Field>, isUpdate: bool, j: nat)
    requires at <= |data| && 0 < j < |fields|
    ensures var first := ParseValue(data[at..], fields[0].kind, isUpdate);
            ColumnRunsOver(data, at, fields, isUpdate, j) <==>
            first.Ok? && ColumnRunsOver(data, at + first.value.1, fields[1..], isUpdate, j - 1)
  {
    hide ParseValue, TextRunsOver;
    assert fields[..j][1..] == fields[1..][..j - 1] && fields[..j][0] == fields[0];
  }

  predicate TupleRunsOver(data: Bytes, fields: seq<Field>, isUpdate: bool)
  {
    && |data| >= 2 && U16(data) <= |fields| % 0x1_0000
    && exists j: nat | j < |fields[..U16(data)]| :: ColumnRunsOver(data, 2, fields[..U16(data)], isUpdate, j)
  }

  lemma TupleStopsIff(data: Bytes, fields: seq<Field>, isUpdate: bool)
    ensures ParseTuple(data, fields, isUpdate) == Err(IndexPanic) <==> TupleRunsOver(data, fields, isUpdate)
  {
    hide U16, ParseCols, ColumnRunsOver;
    if |data| >= 2 && U16(data) <= |fields| % 0x1_0000 {
      ColsStopIff(data, 2, fields[..U16(data)], isUpdate);
    }
  }
}
