/** Values, relations and change events as they travel from the reader to the sinks. */
module ChangeEvents {
  import opened Wrappers
  import opened Wire

  datatype FieldKind = Int4 | Text | Int8 | Bool | Timestamp

  datatype PgValue =
    | Null
    | Text(text: Bytes)
    | Int4(i32: Int32)
    | Int8(i64: Int64)
    | Bool(flag: bool)
    | Timestamp(micros: Int64)
    | Toasted

  datatype ReplicaKind = Keys | Row

  datatype Field = Field(isKey: bool, name: Bytes, kind: FieldKind)

  datatype Relation = Relation(oid: UInt32, name: Bytes, namespace: Bytes, fields: seq<Field>, replicaId: ReplicaKind)

  datatype KeyField = KeyField(name: Bytes, kind: FieldKind)

  /** A relation with the projections that key-only tuples are read with. */
  datatype RelationData = RelationData(inner: Relation, keyFields: seq<KeyField>, keyIndexes: seq<nat>)

  datatype Op =
    | Insert(row: seq<PgValue>)
    | Update(before: seq<PgValue>, row: seq<PgValue>)
    | Delete(before: seq<PgValue>)

  datatype ChangeEvent = ChangeEvent(op: Op, rel: UInt32)

  /** `IndexPanic` stands for a slice index out of range, at which the program stops. */
  datatype DecoderError =
    | WrongOldTupleKey(tag: Byte)
    | WrongColTypeKey(tag: Byte)
    | WrongNewTupleKey(tag: Byte)
    | WrongFieldDataFlag(tag: Byte)
    | InvalidOid(oid: UInt32)
    | TruncatedInput
    | CorruptedInput
    | NonUtf8
    | UnknownRelation(oid: UInt32)
    | WrongFieldKind(kind: FieldKind)
    | WrongReplicaId(tag: Byte)
    | WrongOldTupleKind(replica: ReplicaKind)
    | ToastedValueOnNonUpdate
    | IndexPanic

  type Decoded<+T> = Result<T, DecoderError>

  predicate Increasing(ks: seq<nat>)
  {
    forall i, j | 0 <= i < j < |ks| :: ks[i] < ks[j]
  }

  function KeyIndexes(fields: seq<Field>): (ks: seq<nat>)
    ensures |ks| <= |fields|
    ensures forall j | 0 <= j < |ks| :: ks[j] < |fields|
    ensures Increasing(ks)
  {
    if fields == [] then []
    else
      var last := |fields| - 1;
      KeyIndexes(fields[..last]) + if fields[last].isKey then [last] else []
  }

  function KeyFields(fields: seq<Field>): (ks: seq<KeyField>)
  {
    if fields == [] then []
    else
      var last := |fields| - 1;
      KeyFields(fields[..last]) + if fields[last].isKey then [KeyField(fields[last].name, fields[last].kind)] else []
  }

  /** The key positions are exactly the flagged columns. */
  lemma {:induction false} KeysAreTheFlaggedColumns(fields: seq<Field>)
    ensures forall k: nat :: k in KeyIndexes(fields) <==> k < |fields| && fields[k].isKey
  {
    if fields != [] {
      var last := |fields| - 1;
      var shorter := fields[..last];
      KeysAreTheFlaggedColumns(shorter);
      forall k: nat ensures k in KeyIndexes(fields) <==> k < |fields| && fields[k].isKey {
        assert k < last ==> shorter[k] == fields[k];
      }
    }
  }

  /** The key fields are the projection of the columns at the key positions. */
  lemma {:induction false} KeyFieldsAreTheProjection(fields: seq<Field>)
    ensures |KeyFields(fields)| == |KeyIndexes(fields)|
    ensures forall j | 0 <= j < |KeyIndexes(fields)| ::
              && KeyIndexes(fields)[j] < |fields|
              && KeyFields(fields)[j] ==
                 KeyField(fields[KeyIndexes(fields)[j]].name, fields[KeyIndexes(fields)[j]].kind)
  {
    if fields != [] {
      KeyFieldsAreTheProjection(fields[..|fields| - 1]);
    }
  }

  /** A strictly increasing sequence of positions climbs at least as fast as its index. */
  lemma {:induction false} IncreasingClimbs(ks: seq<nat>, j: nat)
    requires Increasing(ks) && j < |ks|
    ensures j <= ks[j]
  {
    if j > 0 {
      IncreasingClimbs(ks, j - 1);
    }
  }

  /** Strictly increasing positions leave room for those that follow. */
  lemma {:induction false} IncreasingBelow(ks: seq<nat>, n: nat, j: nat)
    requires Increasing(ks) && j < |ks| && forall i | 0 <= i < |ks| :: ks[i] < n
    ensures ks[j] + (|ks| - j) <= n
    decreases |ks| - j
  {
    if j < |ks| - 1 {
      IncreasingBelow(ks, n, j + 1);
    }
  }

  lemma {:induction false} AtOwnPlace(ks: seq<nat>, i: nat)
    requires Increasing(ks) && i < |ks| && forall j: nat | j < |ks| :: j in ks
    ensures ks[i] == i
  {
    IncreasingClimbs(ks, i);
    assert i in ks;
    var j :| 0 <= j < |ks| && ks[j] == i;
    IncreasingClimbs(ks, j);
    if j < i {
      AtOwnPlace(ks, j);
    }
  }

  lemma PrefixOfPositions(ks: seq<nat>)
    requires Increasing(ks) && forall j: nat | j < |ks| :: j in ks
    ensures (forall i | 0 <= i < |ks| :: ks[i] == i) && |ks| !in ks
  {
    forall i: nat | i < |ks| ensures ks[i] == i {
      AtOwnPlace(ks, i);
    }
  }

  /** There are as many keys as columns exactly when every column is a key. */
  lemma AllKeysIff(fields: seq<Field>)
    ensures |KeyIndexes(fields)| == |fields| <==> forall i | 0 <= i < |fields| :: fields[i].isKey
    ensures |KeyIndexes(fields)| == |fields| ==> forall j | 0 <= j < |fields| :: KeyIndexes(fields)[j] == j
  {
    var ks := KeyIndexes(fields);
    hide KeyIndexes;
    KeysAreTheFlaggedColumns(fields);
    if |ks| == |fields| {
      forall j: nat | j < |ks| ensures ks[j] == j && fields[j].isKey {
        IncreasingBelow(ks, |fields|, j);
        IncreasingClimbs(ks, j);
        assert ks[j] in ks;
      }
    } else if forall i | 0 <= i < |fields| :: fields[i].isKey {
      assert forall j: nat | j < |fields| :: j in ks;
      PrefixOfPositions(ks);
    }
  }
}
