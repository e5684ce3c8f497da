/** Filling an update's unchanged out-of-line values from its old row. */
module Toast {
  import opened Wrappers
  import opened Wire
  import opened ChangeEvents
  import opened TupleDecoder
  import opened MessageDecoder

  /** A toasted position with no old value of its own. */
  predicate Stuck(before: seq<PgValue>, row: seq<PgValue>, i: nat)
    requires i < |row|
  {
    row[i] == Toasted && i >= |before|
  }

  /** Every toasted position takes the old value of the same column; nothing else changes. */
  function Merged(before: seq<PgValue>, row: seq<PgValue>): (merged: seq<PgValue>)
    ensures |merged| == |row|
    ensures forall i | 0 <= i < |row| :: merged[i] == if row[i] == Toasted && i < |before| then before[i] else row[i]
  {
    seq(|row|, i requires 0 <= i < |row| => if row[i] == Toasted && i < |before| then before[i] else row[i])
  }

  /** In place, column by column, stopping at the first position that cannot be filled. */
  method MergeToasted(before: seq<PgValue>, row: array<PgValue>) returns (ok: bool)
    modifies row
    ensures ok <==> forall i | 0 <= i < row.Length :: !Stuck(before, old(row[..]), i)
    ensures ok ==> row[..] == Merged(before, old(row[..]))
    ensures !ok ==> exists k | 0 <= k < row.Length && Stuck(before, old(row[..]), k) ::
                      && (forall i | 0 <= i < k :: !Stuck(before, old(row[..]), i))
                      && row[..] == Merged(before, old(row[..]))[..k] + old(row[..])[k..]
  {
    ghost var was := row[..];
    for i := 0 to row.Length
      invariant forall j | 0 <= j < i :: row[j] == Merged(before, was)[j] && !Stuck(before, was, j)
      invariant forall j | i <= j < row.Length :: row[j] == was[j]
    {
      if row[i] == Toasted {
        if i < |before| {
          row[i] := before[i];
        } else {
          assert Stuck(before, was, i);
          assert row[..] == Merged(before, was)[..i] + was[i..];
          return false;
        }
      }
    }
    assert row[..] == Merged(before, was);
    return true;
  }

  /** On an operation as the sinks call it. */
  function MergeOp(op: Op): Option<Op>
  {
    match op
    case Update(before, row) =>
      if forall i | 0 <= i < |row| :: !Stuck(before, row, i) then Some(Update(before, Merged(before, row))) else None
    case _ => Some(op)
  }

  method MergeInOp(op: Op) returns (merged: Option<Op>)
    ensures merged == MergeOp(op)
  {
    match op {
      case Update(before, row) =>
        var cells := new PgValue[|row|](i requires 0 <= i < |row| => row[i]);
        assert cells[..] == row;
        var ok := MergeToasted(before, cells);
        if !ok {
          return None;
        }
        return Some(Update(before, cells[..]));
      case _ =>
        return Some(op);
    }
  }

  /** The merge fails exactly when a toasted column lies beyond the old row. */
  lemma MergeSucceedsIff(before: seq<PgValue>, row: seq<PgValue>)
    ensures MergeOp(Update(before, row)).Some? <==>
            forall i | |before| <= i < |row| :: row[i] != Toasted
  {
    if forall i | |before| <= i < |row| :: row[i] != Toasted {
      forall i | 0 <= i < |row| ensures !Stuck(before, row, i) {
      }
    } else {
      var i :| |before| <= i < |row| && row[i] == Toasted;
      assert Stuck(before, row, i);
    }
  }

  /** An update decoded with an old row, whatever its bytes: the old row holds no toasted value. */
  lemma DecodedOldRowHasNoToast(data: Bytes, relation: RelationData)
    requires data != [] && data[0] == WIRE_OLD && GetOldTupleData(data, relation).Ok?
    ensures Toasted !in GetOldTupleData(data, relation).value.0
  {
    hide ParseCols;
    var body, fields := data[1..], relation.inner.fields;
    NoToastUnlessUpdate(body, 2, fields[..U16(body)]);
  }

  /** An update decoded with a full-width old row merges completely: no toasted value is left, and only toasted
      positions change, each to the old value of its own column. */
  lemma ToastElimination(data: Bytes, relations: RelationMap)
    requires |data| > 5 && data[5] == WIRE_OLD && ParseUpdate(data, relations).Ok?
    requires var (event, relation) := ParseUpdate(data, relations).value;
             |event.op.before| == |relation.inner.fields|
    ensures var op := ParseUpdate(data, relations).value.0.op;
            && MergeOp(op) == Some(Update(op.before, Merged(op.before, op.row)))
            && Toasted !in Merged(op.before, op.row)
            && forall i | 0 <= i < |op.row| ::
                 Merged(op.before, op.row)[i] == if op.row[i] == Toasted then op.before[i] else op.row[i]
  {
    hide GetOldTupleData;
    var relation := MessageRelation(data, relations).value.1;
    assert data[5..][0] == WIRE_OLD;
    RowIsNotWider(data, relations);
    DecodedOldRowHasNoToast(data[5..], relation);
    var op := ParseUpdate(data, relations).value.0.op;
    OldTupleIsNotNew(data[5..], relation);
    assert op.before == GetOldTupleData(data[5..], relation).value.0;
    forall i | 0 <= i < |op.row| ensures !Stuck(op.before, op.row, i) && Merged(op.before, op.row)[i] != Toasted {
      assert op.before[i] in op.before;
    }
  }

  lemma OldTupleIsNotNew(data: Bytes, relation: RelationData)
    requires data != [] && data[0] == WIRE_OLD
    ensures GetOldTupleData(data, relation) != Err(WrongOldTupleKey(WIRE_NEW))
  {
    hide ParseTuple;
    ParseTupleNeverMistakesTag(data[1..], relation.inner.fields, false);
  }

  /** Reading a tuple never reports a wrong tuple tag. */
  lemma ParseTupleNeverMistakesTag(data: Bytes, fields: seq<Field>, isUpdate: bool)
    ensures ParseTuple(data, fields, isUpdate).Err? ==> !ParseTuple(data, fields, isUpdate).error.WrongOldTupleKey?
  {
    hide ParseCols, U16;
    if |data| >= 2 && U16(data) <= |fields| % 0x1_0000 {
      ParseColsNeverMistakesTag(data, 2, fields[..U16(data)], isUpdate);
    }
  }

  lemma RowIsNotWider(data: Bytes, relations: RelationMap)
    requires ParseUpdate(data, relations).Ok?
    ensures var (event, relation) := ParseUpdate(data, relations).value;
            && event.op.Update? && |event.op.row| <= |relation.inner.fields|
            && MessageRelation(data, relations).Ok? && relation == MessageRelation(data, relations).value.1
  {
    hide ParseTuple, GetOldTupleData, MessageRelation;
  }
}
