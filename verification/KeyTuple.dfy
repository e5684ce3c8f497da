/** Key-only tuples: what the parser returns for them, and exactly when that is the key. */
module KeyTuple {
  import opened Wrappers
  import opened Wire
  import opened ChangeEvents
  import opened TupleDecoder

  // ----- Parser -----

  /** A specialised arm from column `i` on, with `keyIdx` keys found so far. */
  function KeyCols(data: Bytes, at: nat, i: nat, n: nat, keyIdx: nat,
                   fields: seq<KeyField>, indexes: seq<nat>, totalFields: nat): Decoded<(seq<PgValue>, nat)>
    requires i <= n <= totalFields
    decreases n - i
  {
    if i == n then Ok(([], at))
    else if keyIdx >= |indexes| then Err(IndexPanic)
    else if i == indexes[keyIdx] then
      if at > |data| || keyIdx >= |fields| then Err(IndexPanic)
      else
        var value :- ParseValue(data[at..], fields[keyIdx].kind, false);
        if i < |indexes| - 1 then
          var rest :- KeyCols(data, at + value.1, i + 1, n, keyIdx + 1, fields, indexes, totalFields);
          Ok(([value.0] + rest.0, rest.1))
        else Ok(([value.0], at + value.1 + totalFields - i))
    else KeyCols(data, at + 1, i + 1, n, keyIdx, fields, indexes, totalFields)
  }

  function AsFields(keys: seq<KeyField>): (fs: seq<Field>)
    ensures |fs| == |keys|
    ensures forall i | 0 <= i < |keys| :: fs[i] == Field(true, keys[i].name, keys[i].kind)
  {
    seq(|keys|, i requires 0 <= i < |keys| => Field(true, keys[i].name, keys[i].kind))
  }

  /** The general arm reads key fields by column position, and stops when they run out. */
  function GeneralKeyCols(data: Bytes, n: nat, fields: seq<KeyField>): Decoded<(seq<PgValue>, nat)>
  {
    if n <= |fields| then ParseCols(data, 2, AsFields(fields[..n]), false)
    else
      var _ :- ParseCols(data, 2, AsFields(fields), false);
      Err(IndexPanic)
  }

  function ParseKeyTuple(data: Bytes, fields: seq<KeyField>, indexes: seq<nat>,
                         totalFields: nat): Decoded<(seq<PgValue>, nat)>
  {
    if |data| < 2 then Err(TruncatedInput)
    else
      var n := U16(data);
      if n > totalFields then Err(CorruptedInput)
      else if 1 <= n <= 6 then KeyCols(data, 2, 0, n, 0, fields, indexes, totalFields)
      else GeneralKeyCols(data, n, fields)
  }

  /** A specialised arm's loop. */
  method NumKeyCols(n: nat, data: Bytes, fields: seq<KeyField>, indexes: seq<nat>, totalFields: nat)
    returns (r: Decoded<(seq<PgValue>, nat)>)
    requires n <= totalFields
    ensures r == KeyCols(data, 2, 0, n, 0, fields, indexes, totalFields)
  {
    hide ParseValue;
    var lastPos: nat := 2;
    var cols: seq<PgValue> := [];
    var keyIdx: nat := 0;
    PrependNoRow(KeyCols(data, 2, 0, n, 0, fields, indexes, totalFields));
    for i := 0 to n
      invariant KeyCols(data, 2, 0, n, 0, fields, indexes, totalFields) ==
                PrependRow(cols, KeyCols(data, lastPos, i, n, keyIdx, fields, indexes, totalFields))
    {
      if keyIdx >= |indexes| {
        return Err(IndexPanic);
      }
      if i == indexes[keyIdx] {
        if lastPos > |data| || keyIdx >= |fields| {
          return Err(IndexPanic);
        }
        var value :- ParseValue(data[lastPos..], fields[keyIdx].kind, false);
        ghost var rest := KeyCols(data, lastPos + value.1, i + 1, n, keyIdx + 1, fields, indexes, totalFields);
        assert rest.Ok? ==> cols + ([value.0] + rest.value.0) == cols + [value.0] + rest.value.0;
        lastPos := lastPos + value.1;
        cols := cols + [value.0];
        if i < |indexes| - 1 {
          keyIdx := keyIdx + 1;
        } else {
          return Ok((cols, lastPos + totalFields - i));
        }
      } else {
        lastPos := lastPos + 1;
      }
    }
    assert cols + [] == cols;
    return Ok((cols, lastPos));
  }

  method ParseKeys(data: Bytes, fields: seq<KeyField>, indexes: seq<nat>, totalFields: nat)
    returns (r: Decoded<(seq<PgValue>, nat)>)
    ensures r == ParseKeyTuple(data, fields, indexes, totalFields)
  {
    hide ParseValue, KeyCols;
    if |data| < 2 {
      return Err(TruncatedInput);
    }
    var nCols := U16(data);
    if nCols > totalFields {
      return Err(CorruptedInput);
    }
    match nCols {
      case 1 => r := NumKeyCols(1, data, fields, indexes, totalFields);
      case 2 => r := NumKeyCols(2, data, fields, indexes, totalFields);
      case 3 => r := NumKeyCols(3, data, fields, indexes, totalFields);
      case 4 => r := NumKeyCols(4, data, fields, indexes, totalFields);
      case 5 => r := NumKeyCols(5, data, fields, indexes, totalFields);
      case 6 => r := NumKeyCols(6, data, fields, indexes, totalFields);
      case _ => r := GeneralKeys(nCols, data, fields);
    }
  }

  method GeneralKeys(n: nat, data: Bytes, fields: seq<KeyField>) returns (r: Decoded<(seq<PgValue>, nat)>)
    ensures r == GeneralKeyCols(data, n, fields)
  {
    hide ParseValue;
    var known := AsFields(if n <= |fields| then fields[..n] else fields);
    var lastPos: nat := 2;
    var cols: seq<PgValue> := [];
    PrependNoRow(ParseCols(data, 2, known, false));
    for i := 0 to n
      invariant i <= |known|
      invariant ParseCols(data, 2, known, false) == PrependRow(cols, ParseCols(data, lastPos, known[i..], false))
    {
      if i < |known| {
        ParseColsStep(data, lastPos, known[i..], false, cols);
      }
      if lastPos > |data| || i >= |fields| {
        return Err(IndexPanic);
      }
      var value :- ParseValue(data[lastPos..], fields[i].kind, false);
      lastPos := lastPos + value.1;
      cols := cols + [value.0];
      assert known[i..][1..] == known[i + 1..];
    }
    assert cols + [] == cols;
    return Ok((cols, lastPos));
  }

  // ----- What the server sends: every column, the non-key ones as null -----

  predicate KeyTupleFor(ws: seq<WireValue>, fields: seq<Field>)
  {
    && |ws| == |fields|
    && forall i | 0 <= i < |ws| ::
         if fields[i].isKey then WellFormedValue(ws[i], fields[i].kind) && !ws[i].ToastCol? else ws[i].NullCol?
  }

  /** The values at the given positions. */
  function ValuesAt(ws: seq<WireValue>, indexes: seq<nat>): (vs: seq<PgValue>)
    requires forall j | 0 <= j < |indexes| :: indexes[j] < |ws|
    ensures |vs| == |indexes|
    ensures forall j | 0 <= j < |indexes| :: vs[j] == ValueOf(ws[indexes[j]])
  {
    seq(|indexes|, j requires 0 <= j < |indexes| => ValueOf(ws[indexes[j]]))
  }

  /** The key at which the loop stops: the first whose column position reaches the number of keys, less one. */
  function Cut(indexes: seq<nat>, t: nat): (c: nat)
    requires Increasing(indexes) && t < |indexes|
    ensures t <= c < |indexes|
    ensures indexes[c] >= |indexes| - 1
    ensures forall s | t <= s < c :: indexes[s] < |indexes| - 1
    decreases |indexes| - t
  {
    IncreasingClimbs(indexes, |indexes| - 1);
    if indexes[t] >= |indexes| - 1 then t else Cut(indexes, t + 1)
  }

  /** All keys but the last fill a prefix of the columns. */
  predicate PrefixButLast(indexes: seq<nat>)
  {
    forall j | 0 <= j < |indexes| - 1 :: indexes[j] == j
  }

  lemma {:induction false} BoundedIncreasing(indexes: seq<nat>, j: nat)
    requires Increasing(indexes) && j < |indexes| - 1
    requires forall s | 0 <= s < |indexes| - 1 :: indexes[s] < |indexes| - 1
    ensures indexes[j] == j
    decreases |indexes| - j
  {
    IncreasingClimbs(indexes, j);
    if j < |indexes| - 2 {
      BoundedIncreasing(indexes, j + 1);
    }
  }

  /** The loop reaches the last key exactly on prefix-but-last keys. */
  lemma CutIsLastIffPrefix(indexes: seq<nat>)
    requires Increasing(indexes) && indexes != []
    ensures Cut(indexes, 0) == |indexes| - 1 <==> PrefixButLast(indexes)
  {
    if Cut(indexes, 0) == |indexes| - 1 {
      forall j | 0 <= j < |indexes| - 1 ensures indexes[j] == j {
        BoundedIncreasing(indexes, j);
      }
    }
  }

  /** Printed width of columns `i` up to `j`. */
  function Width(ws: seq<WireValue>, i: nat, j: nat): nat
    requires i <= j <= |ws|
    decreases j - i
  {
    if i == j then 0 else |PrintValue(ws[i])| + Width(ws, i + 1, j)
  }

  lemma {:induction false} WidthIsPrintedLength(ws: seq<WireValue>, i: nat, j: nat)
    requires i <= j <= |ws|
    ensures Width(ws, i, j) == |PrintCols(ws[i..j])|
    decreases j - i
  {
    hide PrintValue;
    if i < j {
      assert ws[i..j][1..] == ws[i + 1..j];
      WidthIsPrintedLength(ws, i + 1, j);
    }
  }

  /** Column `i` of a tuple on the wire. */
  lemma NextColumn(data: Bytes, at: nat, ws: seq<WireValue>, i: nat, rest: Bytes)
    requires i < |ws| && at <= |data| && data[at..] == PrintCols(ws[i..]) + rest
    ensures var next := at + |PrintValue(ws[i])|;
            && next <= |data|
            && data[at..] == PrintValue(ws[i]) + data[next..]
            && data[next..] == PrintCols(ws[i + 1..]) + rest
  {
    hide PrintValue;
    var printed := PrintValue(ws[i]);
    assert ws[i..][1..] == ws[i + 1..];
    assert data[at..] == printed + (PrintCols(ws[i + 1..]) + rest);
    assert data[at + |printed|..] == data[at..][|printed|..];
  }

  lemma NullWidth()
    ensures |PrintValue(NullCol)| == 1
  {
  }

  lemma NotAKeyBetween(indexes: seq<nat>, t: nat, i: nat)
    requires Increasing(indexes) && t < |indexes| && i < indexes[t]
    requires forall s | 0 <= s < t :: indexes[s] < i
    ensures i !in indexes
  {
  }

  /** What the loop has still to return: the keys from the t-th up to the cut, and the size it reports. */
  function Expected(ws: seq<WireValue>, indexes: seq<nat>, at: nat, i: nat, t: nat): (seq<PgValue>, nat)
    requires Increasing(indexes) && t < |indexes| && i <= indexes[t]
    requires forall j | 0 <= j < |indexes| :: indexes[j] < |ws|
  {
    var c := Cut(indexes, t);
    assert c == t || indexes[t] < indexes[c];
    (ValuesAt(ws, indexes[t..c + 1]), at + Width(ws, i, indexes[c] + 1) + |ws| - indexes[c])
  }

  lemma KeyAtItsIndex(ws: seq<WireValue>, fields: seq<Field>, t: nat)
    requires KeyTupleFor(ws, fields) && t < |KeyIndexes(fields)|
    ensures |KeyFields(fields)| == |KeyIndexes(fields)| && KeyIndexes(fields)[t] < |ws| == |fields|
    ensures var i := KeyIndexes(fields)[t];
            && KeyFields(fields)[t].kind == fields[i].kind
            && WellFormedValue(ws[i], fields[i].kind) && !ws[i].ToastCol?
  {
    hide KeyIndexes, KeyFields, WellFormedValue;
    KeysAreTheFlaggedColumns(fields);
    KeyFieldsAreTheProjection(fields);
    assert KeyIndexes(fields)[t] in KeyIndexes(fields);
  }

  /** One pass of the loop at a key, whatever the key is. */
  lemma KeyPass(data: Bytes, at: nat, n: nat, t: nat, w: WireValue, keys: seq<KeyField>, indexes: seq<nat>, tail: Bytes)
    requires t < |indexes| && t < |keys| && indexes[t] < n
    requires WellFormedValue(w, keys[t].kind) && !w.ToastCol?
    requires at <= |data| && data[at..] == PrintValue(w) + tail
    ensures var i, next := indexes[t], at + |PrintValue(w)|;
            KeyCols(data, at, i, n, t, keys, indexes, n) ==
            if i >= |indexes| - 1 then Ok(([ValueOf(w)], next + n - i))
            else PrependRow([ValueOf(w)], KeyCols(data, next, i + 1, n, t + 1, keys, indexes, n))
  {
    hide ParseValue, PrintValue, WellFormedValue, ValueOf;
    ParsePrintedValue(w, keys[t].kind, false, tail);
  }

  /** The loop at a key column. */
  lemma TakeKey(data: Bytes, at: nat, t: nat, ws: seq<WireValue>, fields: seq<Field>, rest: Bytes)
    requires KeyTupleFor(ws, fields) && t < |KeyIndexes(fields)| && KeyIndexes(fields)[t] < |ws|
    requires at <= |data| && data[at..] == PrintCols(ws[KeyIndexes(fields)[t]..]) + rest
    ensures var indexes, keys, i := KeyIndexes(fields), KeyFields(fields), KeyIndexes(fields)[t];
            var next := at + |PrintValue(ws[i])|;
            KeyCols(data, at, i, |ws|, t, keys, indexes, |ws|) ==
            if i >= |indexes| - 1 then Ok(([ValueOf(ws[i])], next + |ws| - i))
            else PrependRow([ValueOf(ws[i])], KeyCols(data, next, i + 1, |ws|, t + 1, keys, indexes, |ws|))
  {
    hide *;
    var i := KeyIndexes(fields)[t];
    KeyAtItsIndex(ws, fields, t);
    NextColumn(data, at, ws, i, rest);
    KeyPass(data, at, |ws|, t, ws[i], KeyFields(fields), KeyIndexes(fields), data[at + |PrintValue(ws[i])|..]);
  }

  /** The loop at a column that is no key. */
  lemma SkipColumn(data: Bytes, at: nat, i: nat, t: nat, ws: seq<WireValue>, fields: seq<Field>, rest: Bytes)
    requires KeyTupleFor(ws, fields)
    requires t < |KeyIndexes(fields)| && i < KeyIndexes(fields)[t]
    requires forall s | 0 <= s < t :: KeyIndexes(fields)[s] < i
    requires at <= |data| && data[at..] == PrintCols(ws[i..]) + rest
    ensures |PrintValue(ws[i])| == 1
    ensures at + 1 <= |data| && data[at + 1..] == PrintCols(ws[i + 1..]) + rest
    ensures var indexes, keys := KeyIndexes(fields), KeyFields(fields);
            KeyCols(data, at, i, |ws|, t, keys, indexes, |ws|) ==
                KeyCols(data, at + 1, i + 1, |ws|, t, keys, indexes, |ws|)
  {
    hide ParseValue, PrintValue, WellFormedValue, PrintCols;
    KeysAreTheFlaggedColumns(fields);
    NotAKeyBetween(KeyIndexes(fields), t, i);
    NullWidth();
    NextColumn(data, at, ws, i, rest);
  }

  lemma ExpectedSteps(ws: seq<WireValue>, indexes: seq<nat>, at: nat, i: nat, t: nat)
    requires Increasing(indexes) && t < |indexes| && i <= indexes[t]
    requires forall j | 0 <= j < |indexes| :: indexes[j] < |ws|
    ensures i < indexes[t] ==>
              Expected(ws, indexes, at, i, t) == Expected(ws, indexes, at + |PrintValue(ws[i])|, i + 1, t)
    ensures i == indexes[t] && i >= |indexes| - 1 ==>
              Expected(ws, indexes, at, i, t) == ([ValueOf(ws[i])], at + |PrintValue(ws[i])| + |ws| - i)
    ensures i == indexes[t] && i < |indexes| - 1 ==>
              t + 1 < |indexes|
              && Ok(Expected(ws, indexes, at, i, t)) ==
                 PrependRow([ValueOf(ws[i])], Ok(Expected(ws, indexes, at + |PrintValue(ws[i])|, i + 1, t + 1)))
  {
    hide PrintValue, ValueOf, Increasing, Cut, ValuesAt, Width;
    CutFrom(indexes, t);
    var c := Cut(indexes, t);
    WidthFirst(ws, i, indexes[c] + 1);
    if i == indexes[t] {
      PickFirst(ws, indexes, t, c + 1);
    }
  }

  /** Where the cut is, seen from one key and from the next. */
  lemma CutFrom(indexes: seq<nat>, t: nat)
    requires Increasing(indexes) && t < |indexes|
    ensures indexes[t] <= indexes[Cut(indexes, t)]
    ensures indexes[t] >= |indexes| - 1 ==> Cut(indexes, t) == t
    ensures indexes[t] < |indexes| - 1 ==>
              t + 1 < |indexes| && Cut(indexes, t) == Cut(indexes, t + 1) && indexes[t] < indexes[t + 1]
  {
    var c := Cut(indexes, t);
    assert c == t || indexes[t] < indexes[c];
    IncreasingClimbs(indexes, |indexes| - 1);
  }

  lemma WidthFirst(ws: seq<WireValue>, i: nat, j: nat)
    requires i < j <= |ws|
    ensures Width(ws, i, j) == |PrintValue(ws[i])| + Width(ws, i + 1, j)
    ensures j == i + 1 ==> Width(ws, i, j) == |PrintValue(ws[i])|
  {
    hide PrintValue;
  }

  lemma PickFirst(ws: seq<WireValue>, indexes: seq<nat>, t: nat, end: nat)
    requires t < end <= |indexes| && forall j | 0 <= j < |indexes| :: indexes[j] < |ws|
    ensures ValuesAt(ws, indexes[t..end]) == [ValueOf(ws[indexes[t]])] + ValuesAt(ws, indexes[t + 1..end])
    ensures end == t + 1 ==> ValuesAt(ws, indexes[t..end]) == [ValueOf(ws[indexes[t]])]
  {
    hide ValueOf;
  }

  lemma {:induction false} KeyColsOfPrinted(data: Bytes, at: nat, i: nat, t: nat,
                                           ws: seq<WireValue>, fields: seq<Field>, rest: Bytes)
    requires KeyTupleFor(ws, fields)
    requires t < |KeyIndexes(fields)| && i <= KeyIndexes(fields)[t]
    requires forall s | 0 <= s < t :: KeyIndexes(fields)[s] < i
    requires at <= |data| && data[at..] == PrintCols(ws[i..]) + rest
    ensures KeyCols(data, at, i, |ws|, t, KeyFields(fields), KeyIndexes(fields), |ws|) ==
            Ok(Expected(ws, KeyIndexes(fields), at, i, t))
    decreases |ws| - i
  {
    hide KeyCols, PrintValue, WellFormedValue, PrintCols, Expected, KeyIndexes, KeyFields;
    var indexes := KeyIndexes(fields);
    ExpectedSteps(ws, indexes, at, i, t);
    if i < indexes[t] {
      SkipColumn(data, at, i, t, ws, fields, rest);
      KeyColsOfPrinted(data, at + 1, i + 1, t, ws, fields, rest);
    } else {
      TakeKey(data, at, t, ws, fields, rest);
      if i < |indexes| - 1 {
        NextColumn(data, at, ws, i, rest);
        KeyColsOfPrinted(data, at + |PrintValue(ws[i])|, i + 1, t + 1, ws, fields, rest);
      }
    }
  }

  // ----- Main results -----

  lemma ParsePrintedKeyTuple(ws: seq<WireValue>, fields: seq<Field>, rest: Bytes)
    requires KeyTupleFor(ws, fields) && 1 <= |ws| <= 6 && KeyIndexes(fields) != []
    ensures ParseKeyTuple(PrintTuple(ws) + rest, KeyFields(fields), KeyIndexes(fields), |fields|) ==
            Ok(Expected(ws, KeyIndexes(fields), 2, 0, 0))
  {
    hide U16, KeyCols, PrintTuple, PrintCols, WellFormedValue, KeyFields, KeyIndexes, Expected, Increasing;
    TupleLayout(ws, rest);
    assert ws[0..] == ws;
    KeyColsOfPrinted(PrintTuple(ws) + rest, 2, 0, 0, ws, fields, rest);
  }

  /** The keys up to the cut, and the size of their columns plus one octet for each column from the cut on. */
  function UpToCut(ws: seq<WireValue>, indexes: seq<nat>): (seq<PgValue>, nat)
    requires Increasing(indexes) && indexes != [] && forall j | 0 <= j < |indexes| :: indexes[j] < |ws|
  {
    var c := Cut(indexes, 0);
    (ValuesAt(ws, indexes[..c + 1]), 2 + |PrintCols(ws[..indexes[c] + 1])| + |ws| - indexes[c])
  }

  lemma ExpectedFromStart(ws: seq<WireValue>, indexes: seq<nat>)
    requires Increasing(indexes) && indexes != [] && forall j | 0 <= j < |indexes| :: indexes[j] < |ws|
    ensures Expected(ws, indexes, 2, 0, 0) == UpToCut(ws, indexes)
  {
    hide PrintCols, Width, ValuesAt, Increasing, Cut;
    var c := Cut(indexes, 0);
    WidthIsPrintedLength(ws, 0, indexes[c] + 1);
    assert ws[0..indexes[c] + 1] == ws[..indexes[c] + 1];
    assert indexes[0..c + 1] == indexes[..c + 1];
  }

  /** What the parser returns for every key tuple of one to six columns. */
  lemma KeyTupleResult(ws: seq<WireValue>, fields: seq<Field>, rest: Bytes)
    requires KeyTupleFor(ws, fields) && 1 <= |ws| <= 6 && KeyIndexes(fields) != []
    ensures ParseKeyTuple(PrintTuple(ws) + rest, KeyFields(fields), KeyIndexes(fields), |fields|) ==
            Ok(UpToCut(ws, KeyIndexes(fields)))
  {
    assert |ws| == |fields|;
    hide ParseKeyTuple, PrintTuple, KeyTupleFor, KeyFields, KeyIndexes, Expected, UpToCut, Increasing;
    ParsePrintedKeyTuple(ws, fields, rest);
    ExpectedFromStart(ws, KeyIndexes(fields));
  }

  /** The whole key comes back exactly when all keys but the last fill a prefix of the columns. */
  lemma KeyTupleIsProjectionIffPrefix(ws: seq<WireValue>, fields: seq<Field>, rest: Bytes)
    requires KeyTupleFor(ws, fields) && 1 <= |ws| <= 6 && KeyIndexes(fields) != []
    ensures var r := ParseKeyTuple(PrintTuple(ws) + rest, KeyFields(fields), KeyIndexes(fields), |fields|);
            r.Ok? && (r.value.0 == ValuesAt(ws, KeyIndexes(fields)) <==> PrefixButLast(KeyIndexes(fields)))
  {
    assert |ws| == |fields|;
    hide ParseKeyTuple, PrintTuple, KeyIndexes, KeyFields, KeyTupleFor, ValuesAt, Expected, Increasing, PrefixButLast;
    ParsePrintedKeyTuple(ws, fields, rest);
    ExpectedIsKeyIffPrefix(ws, KeyIndexes(fields));
  }

  lemma ExpectedIsKeyIffPrefix(ws: seq<WireValue>, indexes: seq<nat>)
    requires Increasing(indexes) && indexes != [] && forall j | 0 <= j < |indexes| :: indexes[j] < |ws|
    ensures Expected(ws, indexes, 2, 0, 0).0 == ValuesAt(ws, indexes) <==> PrefixButLast(indexes)
  {
    hide PrintCols, Width, ValuesAt, PrefixButLast;
    CutIsLastIffPrefix(indexes);
    var c := Cut(indexes, 0);
    assert |ValuesAt(ws, indexes[0..c + 1])| == c + 1;
    assert c == |indexes| - 1 ==> indexes[0..c + 1] == indexes;
  }

  lemma {:induction false} NullsAreOneOctet(ws: seq<WireValue>)
    requires forall i | 0 <= i < |ws| :: ws[i].NullCol?
    ensures |PrintCols(ws)| == |ws|
  {
    if ws != [] {
      NullsAreOneOctet(ws[1..]);
    }
  }

  lemma {:induction false} PrintColsConcat(a: seq<WireValue>, b: seq<WireValue>)
    ensures PrintCols(a + b) == PrintCols(a) + PrintCols(b)
  {
    hide PrintValue;
    if a == [] {
      assert a + b == b;
    } else {
      assert (a + b)[1..] == a[1..] + b;
      PrintColsConcat(a[1..], b);
    }
  }

  lemma NullsAfterLastKey(ws: seq<WireValue>, fields: seq<Field>)
    requires KeyTupleFor(ws, fields) && KeyIndexes(fields) != []
    ensures var last := KeyIndexes(fields)[|KeyIndexes(fields)| - 1];
            |PrintCols(ws)| == |PrintCols(ws[..last + 1])| + |ws| - (last + 1)
  {
    hide PrintCols, KeyIndexes, WellFormedValue;
    var indexes := KeyIndexes(fields);
    var last := indexes[|indexes| - 1];
    var nulls := ws[last + 1..];
    KeysAreTheFlaggedColumns(fields);
    forall i | 0 <= i < |nulls| ensures nulls[i].NullCol? {
      assert last + 1 + i !in indexes;
    }
    NullsAreOneOctet(nulls);
    assert ws == ws[..last + 1] + nulls;
    PrintColsConcat(ws[..last + 1], nulls);
  }

  /** When the key does come back, the reported size is one octet more than the tuple occupies. */
  lemma KeyTupleSizeIsOneTooLarge(ws: seq<WireValue>, fields: seq<Field>, rest: Bytes)
    requires KeyTupleFor(ws, fields) && 1 <= |ws| <= 6 && KeyIndexes(fields) != []
    requires PrefixButLast(KeyIndexes(fields))
    ensures ParseKeyTuple(PrintTuple(ws) + rest, KeyFields(fields), KeyIndexes(fields), |fields|) ==
            Ok((ValuesAt(ws, KeyIndexes(fields)), |PrintTuple(ws)| + 1))
  {
    hide ParseKeyTuple, PrintCols, KeyFields, KeyIndexes, Cut, ValuesAt, KeyTupleFor;
    var indexes := KeyIndexes(fields);
    KeyTupleResult(ws, fields, rest);
    CutIsLastIffPrefix(indexes);
    assert indexes[..|indexes|] == indexes;
    NullsAfterLastKey(ws, fields);
  }

  // ----- Any width -----

  /** Seven columns or more take the general arm, which needs a key field for every column. */
  predicate KeySurvives(fields: seq<Field>)
  {
    if |fields| <= 6 then PrefixButLast(KeyIndexes(fields)) else |KeyIndexes(fields)| == |fields|
  }

  lemma AsFieldsOfAllKeys(fields: seq<Field>)
    requires |KeyIndexes(fields)| == |fields|
    ensures AsFields(KeyFields(fields)) == fields
  {
    hide KeyIndexes, KeyFields;
    KeyFieldsAreTheProjection(fields);
    AllKeysIff(fields);
  }

  lemma AllValues(ws: seq<WireValue>, fields: seq<Field>)
    requires KeyTupleFor(ws, fields) && |KeyIndexes(fields)| == |fields|
    ensures |ws| == |fields| && ValuesAt(ws, KeyIndexes(fields)) == ValuesOf(ws) && WellFormedCols(ws, fields, false)
  {
    hide KeyIndexes, ValuesOf;
    AllKeysIff(fields);
  }

  lemma WideTakesTheGeneralArm(ws: seq<WireValue>, fields: seq<KeyField>, indexes: seq<nat>, rest: Bytes)
    requires 7 <= |ws| < 0x1_0000
    ensures ParseKeyTuple(PrintTuple(ws) + rest, fields, indexes, |ws|) ==
            GeneralKeyCols(PrintTuple(ws) + rest, |ws|, fields)
  {
    hide KeyCols, GeneralKeyCols, PrintTuple;
    TupleLayout(ws, rest);
  }

  lemma GeneralArmReadsAll(ws: seq<WireValue>, fields: seq<Field>, keys: seq<KeyField>, rest: Bytes)
    requires WellFormedCols(ws, fields, false) && |ws| == |fields| == |keys| < 0x1_0000 && AsFields(keys) == fields
    ensures GeneralKeyCols(PrintTuple(ws) + rest, |ws|, keys) == Ok((ValuesOf(ws), |PrintTuple(ws)|))
  {
    hide ParseCols, PrintCols, AsFields, WellFormedCols, PrintTuple, ValuesOf;
    TupleLayout(ws, rest);
    assert keys[..|ws|] == keys;
    ParsePrintedCols(PrintTuple(ws) + rest, 2, ws, fields, false, rest);
    PrintedWidth(ws);
  }

  lemma WideKeyComesBack(ws: seq<WireValue>, fields: seq<Field>, rest: Bytes)
    requires KeyTupleFor(ws, fields) && |ws| < 0x1_0000 && |KeyIndexes(fields)| == |fields|
    ensures |ws| == |fields|
    ensures GeneralKeyCols(PrintTuple(ws) + rest, |ws|, KeyFields(fields)) ==
            Ok((ValuesAt(ws, KeyIndexes(fields)), |PrintTuple(ws)|))
  {
    AllValues(ws, fields);
    hide KeyIndexes, KeyFields, KeyTupleFor, GeneralKeyCols, AsFields, WellFormedCols, ValuesAt, PrintTuple, ValuesOf;
    KeyFieldsAreTheProjection(fields);
    AsFieldsOfAllKeys(fields);
    GeneralArmReadsAll(ws, fields, KeyFields(fields), rest);
  }

  lemma PrintedWidth(ws: seq<WireValue>)
    ensures |PrintTuple(ws)| == 2 + |PrintCols(ws)|
  {
    hide PrintCols;
  }

  lemma WideKeyIsRefused(data: Bytes, n: nat, fields: seq<KeyField>)
    requires n > |fields|
    ensures var r := GeneralKeyCols(data, n, fields); r.Err? && !r.error.WrongOldTupleKey?
  {
    hide ParseCols, AsFields;
    ParseColsNeverMistakesTag(data, 2, AsFields(fields), false);
  }

  /** The columns at the places of the key fields, whatever they hold, can be read under them. */
  predicate FrontReadsAsKey(ws: seq<WireValue>, fields: seq<Field>)
    requires |KeyFields(fields)| <= |ws|
  {
    forall i | 0 <= i < |KeyFields(fields)| :: ReadsAs(ws[i], KeyFields(fields)[i].kind)
  }

  /** A wide key tuple that is not all keys stops the program when the loop gets past the last key field. */
  predicate KeyTupleStops(ws: seq<WireValue>, fields: seq<Field>)
  {
    |fields| >= 7 && |KeyFields(fields)| < |fields| == |ws| && FrontReadsAsKey(ws, fields)
  }

  lemma WideKeyStopsIff(ws: seq<WireValue>, fields: seq<Field>, rest: Bytes)
    requires KeyTupleFor(ws, fields) && |KeyFields(fields)| < |ws| < 0x1_0000
    ensures GeneralKeyCols(PrintTuple(ws) + rest, |ws|, KeyFields(fields)) == Err(IndexPanic) <==>
            FrontReadsAsKey(ws, fields)
  {
    assert |ws| == |fields|;
    forall i | 0 <= i < |ws| ensures WellFormedValue(ws[i], fields[i].kind) && !ws[i].ToastCol? {
    }
    hide KeyFields, KeyTupleFor, ParseCols, PrintCols, PrintTuple, ReadsAs, WellFormedValue;
    TupleLayout(ws, rest);
    var asked := AsFields(KeyFields(fields));
    ReadColsAsIff(PrintTuple(ws) + rest, 2, ws, fields, asked, rest);
    assert FrontReadsAsKey(ws, fields) <==> forall i | 0 <= i < |asked| :: ReadsAs(ws[i], asked[i].kind);
  }

  /** When the key columns come first they are at the places of their fields, so the program stops. */
  lemma FirstKeysStop(ws: seq<WireValue>, fields: seq<Field>)
    requires KeyTupleFor(ws, fields) && 7 <= |fields| && |KeyIndexes(fields)| < |fields|
    requires forall j | 0 <= j < |KeyIndexes(fields)| :: KeyIndexes(fields)[j] == j
    ensures KeyTupleStops(ws, fields)
  {
    hide KeyFields, KeyIndexes, ReadsAs, WellFormedValue;
    KeyFieldsAreTheProjection(fields);
    KeysAreTheFlaggedColumns(fields);
    forall i: nat | i < |KeyFields(fields)| ensures ReadsAs(ws[i], KeyFields(fields)[i].kind) {
      assert KeyIndexes(fields)[i] in KeyIndexes(fields);
      OwnKindReads(ws[i], fields[i].kind);
    }
  }

  /** A wide key tuple comes back, in exactly its size, when every column is a key; otherwise it stops the program if
      its front reads under the key fields and is refused if it does not, and it never passes for a message without
      an old tuple. */
  lemma WideKeyTupleResult(ws: seq<WireValue>, fields: seq<Field>, rest: Bytes)
    requires KeyTupleFor(ws, fields) && 7 <= |ws| < 0x1_0000
    ensures |ws| == |fields|
    ensures var r := ParseKeyTuple(PrintTuple(ws) + rest, KeyFields(fields), KeyIndexes(fields), |fields|);
            && (if |KeyIndexes(fields)| == |fields| then r == Ok((ValuesAt(ws, KeyIndexes(fields)), |PrintTuple(ws)|))
                else r.Err? && !r.error.WrongOldTupleKey?)
            && (r == Err(IndexPanic) <==> KeyTupleStops(ws, fields))
  {
    assert |ws| == |fields|;
    KeyFieldsAreTheProjection(fields);
    hide ParseKeyTuple, GeneralKeyCols, PrintTuple, KeyIndexes, KeyFields, KeyTupleFor, ValuesAt, FrontReadsAsKey;
    WideTakesTheGeneralArm(ws, KeyFields(fields), KeyIndexes(fields), rest);
    if |KeyIndexes(fields)| == |fields| {
      WideKeyComesBack(ws, fields, rest);
    } else {
      WideKeyIsRefused(PrintTuple(ws) + rest, |ws|, KeyFields(fields));
      WideKeyStopsIff(ws, fields, rest);
    }
  }

  /** Whatever the width: the whole key comes back exactly when all keys but the last fill a prefix, or every column
      is a key when there are seven or more; the size is one octet too large up to six columns and right beyond. */
  lemma KeyTupleComesBackIff(ws: seq<WireValue>, fields: seq<Field>, rest: Bytes)
    requires KeyTupleFor(ws, fields) && |ws| < 0x1_0000 && KeyIndexes(fields) != []
    ensures |ws| == |fields|
    ensures var r := ParseKeyTuple(PrintTuple(ws) + rest, KeyFields(fields), KeyIndexes(fields), |fields|);
            && (r.Ok? && r.value.0 == ValuesAt(ws, KeyIndexes(fields)) <==> KeySurvives(fields))
            && (KeySurvives(fields) ==> r.value.1 == |PrintTuple(ws)| + if |ws| <= 6 then 1 else 0)
            && (r.Err? ==> !r.error.WrongOldTupleKey?)
  {
    assert 1 <= |fields| == |ws|;
    hide ParseKeyTuple, PrintTuple, KeyIndexes, KeyFields, KeyTupleFor, ValuesAt, PrefixButLast, Increasing;
    if |ws| <= 6 {
      KeyTupleIsProjectionIffPrefix(ws, fields, rest);
      if PrefixButLast(KeyIndexes(fields)) {
        KeyTupleSizeIsOneTooLarge(ws, fields, rest);
      }
    } else {
      WideKeyTupleResult(ws, fields, rest);
    }
  }
}
