/** The Feldera sink: change events become insertions and deletions of named rows. How a value is written as JSON is
    a parameter. */
module Feldera {
  import opened Wrappers
  import opened Wire
  import opened ChangeEvents
  import opened Toast
  import opened RelationCaches
  import Database

  type NamedRow<J> = map<string, J>

  datatype Delta<J> = Insertion(row: NamedRow<J>) | Deletion(row: NamedRow<J>)

  type FieldNameMap = map<UInt32, seq<string>>

  // ----- Conversion -----

  /** Values and names pair up as far as both go; of two equal names the later wins. */
  function Zipped<J>(values: seq<PgValue>, names: seq<string>, json: PgValue -> J): NamedRow<J>
  {
    if values == [] || names == [] then map[]
    else if |values| > |names| then Zipped(values[..|names|], names, json)
    else if |names| > |values| then Zipped(values, names[..|values|], json)
    else
      var last := |values| - 1;
      Zipped(values[..last], names[..last], json)[names[last] := json(values[last])]
  }

  /** The i-th value goes under the i-th name, and no later one does. */
  predicate PairsAt(values: seq<PgValue>, names: seq<string>, n: string, i: nat)
  {
    && i < |values| && i < |names| && names[i] == n
    && forall j | i < j < |values| && j < |names| :: names[j] != n
  }

  /** A row is the values under their names as far as both go: nothing else is in it, and of two equal names the later
      wins. */
  ghost predicate IsPairing<J>(row: NamedRow<J>, values: seq<PgValue>, names: seq<string>, json: PgValue -> J)
  {
    && (forall n :: n in row <==> exists i: nat :: PairsAt(values, names, n, i))
    && forall n, i: nat | PairsAt(values, names, n, i) :: row[n] == json(values[i])
  }

  lemma {:induction false} ZippedIsPairing<J>(values: seq<PgValue>, names: seq<string>, json: PgValue -> J)
    ensures IsPairing(Zipped(values, names, json), values, names, json)
    decreases |values| + |names|
  {
    if values == [] || names == [] {
      assert forall n, i: nat :: !PairsAt(values, names, n, i);
    } else if |values| > |names| {
      ZippedIsPairing(values[..|names|], names, json);
      hide Zipped;
      assert forall n, i: nat :: PairsAt(values, names, n, i) <==> PairsAt(values[..|names|], names, n, i);
    } else if |names| > |values| {
      ZippedIsPairing(values, names[..|values|], json);
      hide Zipped;
      assert forall n, i: nat :: PairsAt(values, names, n, i) <==> PairsAt(values, names[..|values|], n, i);
    } else {
      var last := |values| - 1;
      ZippedIsPairing(values[..last], names[..last], json);
      PairingMore(Zipped(values[..last], names[..last], json), values, names, json);
    }
  }

  lemma PairingMore<J>(row: NamedRow<J>, values: seq<PgValue>, names: seq<string>, json: PgValue -> J)
    requires |values| == |names| > 0
    requires IsPairing(row, values[..|values| - 1], names[..|values| - 1], json)
    ensures IsPairing(row[names[|names| - 1] := json(values[|values| - 1])], values, names, json)
  {
    var last := |values| - 1;
    var more := row[names[last] := json(values[last])];
    PairsBefore(values, names);
    hide PairsAt;
    assert PairsAt(values, names, names[last], last);
    forall n ensures n in more <==> exists i: nat :: PairsAt(values, names, n, i) {
      if n != names[last] {
        assert forall i: nat :: PairsAt(values, names, n, i) <==> PairsAt(values[..last], names[..last], n, i);
      }
    }
    forall n, i: nat | PairsAt(values, names, n, i) ensures more[n] == json(values[i]) {
      if n != names[last] {
        assert PairsAt(values[..last], names[..last], n, i);
        PairsWithin(values[..last], names[..last], n, i);
      }
    }
  }

  lemma PairsWithin(values: seq<PgValue>, names: seq<string>, n: string, i: nat)
    requires PairsAt(values, names, n, i)
    ensures i < |values| && i < |names| && names[i] == n
  {
  }

  /** There is only one such row. */
  lemma PairingIsUnique<J>(a: NamedRow<J>, b: NamedRow<J>, values: seq<PgValue>, names: seq<string>,
                           json: PgValue -> J)
    requires IsPairing(a, values, names, json) && IsPairing(b, values, names, json)
    ensures a == b
  {
    hide PairsAt;
    forall n ensures n in a <==> n in b ensures n in a ==> a[n] == b[n] {
      if n in a {
        var i: nat :| PairsAt(values, names, n, i);
        PairsWithin(values, names, n, i);
      }
    }
  }

  lemma PairsBefore(values: seq<PgValue>, names: seq<string>)
    requires |values| == |names| > 0
    ensures var last := |values| - 1;
            && (forall i: nat :: PairsAt(values, names, names[last], i) <==> i == last)
            && forall n, i: nat | n != names[last] ::
                 PairsAt(values, names, n, i) <==> PairsAt(values[..last], names[..last], n, i)
  {
    var last := |values| - 1;
    forall n, i: nat | n != names[last]
      ensures PairsAt(values, names, n, i) <==> PairsAt(values[..last], names[..last], n, i)
    {
      assert forall j | 0 <= j < last :: names[..last][j] == names[j];
    }
  }

  function ConvertRow<J>(oid: UInt32, values: seq<PgValue>, fieldNames: FieldNameMap, json: PgValue -> J)
    : Result<NamedRow<J>, SinkError>
  {
    if oid in fieldNames then Ok(Zipped(values, fieldNames[oid], json)) else Err(SinkError.UnknownRelation(oid))
  }

  /** What one event means, for a known relation. */
  function Deltas<J>(e: ChangeEvent, names: seq<string>, json: PgValue -> J): (ds: seq<Delta<J>>)
    ensures |ds| == if e.op.Update? then 2 else 1
  {
    match e.op
    case Insert(row) => [Insertion(Zipped(row, names, json))]
    case Update(before, row) => [Deletion(Zipped(before, names, json)), Insertion(Zipped(row, names, json))]
    case Delete(before) => [Deletion(Zipped(before, names, json))]
  }

  predicate AllKnown(batch: seq<ChangeEvent>, fieldNames: FieldNameMap)
  {
    forall i | 0 <= i < |batch| :: batch[i].rel in fieldNames
  }

  function AllDeltas<J>(batch: seq<ChangeEvent>, fieldNames: FieldNameMap, json: PgValue -> J): seq<Delta<J>>
    requires AllKnown(batch, fieldNames)
  {
    if batch == [] then []
    else
      var last := |batch| - 1;
      AllDeltas(batch[..last], fieldNames, json) + Deltas(batch[last], fieldNames[batch[last].rel], json)
  }

  /** The deltas of one event: each carries the pairing of the right row, and the old row goes before the new one. */
  ghost predicate ConvertedOne<J>(op: Op, ds: seq<Delta<J>>, names: seq<string>, json: PgValue -> J)
  {
    match op
    case Insert(row) => |ds| == 1 && ds[0].Insertion? && IsPairing(ds[0].row, row, names, json)
    case Update(before, row) =>
      && |ds| == 2 && ds[0].Deletion? && ds[1].Insertion?
      && IsPairing(ds[0].row, before, names, json) && IsPairing(ds[1].row, row, names, json)
    case Delete(before) => |ds| == 1 && ds[0].Deletion? && IsPairing(ds[0].row, before, names, json)
  }

  /** The deltas of a batch, event by event. */
  ghost predicate Converted<J>(batch: seq<ChangeEvent>, ds: seq<Delta<J>>, fieldNames: FieldNameMap,
                               json: PgValue -> J)
    requires AllKnown(batch, fieldNames)
  {
    if batch == [] then ds == []
    else
      var e := batch[|batch| - 1];
      var n := if e.op.Update? then 2 else 1;
      && |ds| >= n && Converted(batch[..|batch| - 1], ds[..|ds| - n], fieldNames, json)
      && ConvertedOne(e.op, ds[|ds| - n..], fieldNames[e.rel], json)
  }

  lemma DeltasAreConverted<J>(e: ChangeEvent, names: seq<string>, json: PgValue -> J)
    ensures ConvertedOne(e.op, Deltas(e, names, json), names, json)
  {
    hide Zipped, IsPairing;
    match e.op {
      case Insert(row) => ZippedIsPairing(row, names, json);
      case Update(before, row) =>
        ZippedIsPairing(before, names, json);
        ZippedIsPairing(row, names, json);
      case Delete(before) => ZippedIsPairing(before, names, json);
    }
  }

  lemma {:induction false} AllDeltasAreConverted<J>(batch: seq<ChangeEvent>, fieldNames: FieldNameMap,
                                                    json: PgValue -> J)
    requires AllKnown(batch, fieldNames)
    ensures Converted(batch, AllDeltas(batch, fieldNames, json), fieldNames, json)
  {
    hide Deltas, ConvertedOne;
    if batch != [] {
      var last := |batch| - 1;
      var front, ds := AllDeltas(batch[..last], fieldNames, json),
        Deltas(batch[last], fieldNames[batch[last].rel], json);
      AllDeltasAreConverted(batch[..last], fieldNames, json);
      DeltasAreConverted(batch[last], fieldNames[batch[last].rel], json);
      assert (front + ds)[..|front|] == front && (front + ds)[|front|..] == ds;
    }
  }

  /** All or nothing: the first unknown relation fails the batch. */
  method ConvertOpBatches<J>(batch: seq<ChangeEvent>, fieldNames: FieldNameMap, json: PgValue -> J)
    returns (r: Result<seq<Delta<J>>, SinkError>)
    ensures r.Ok? <==> AllKnown(batch, fieldNames)
    ensures r.Ok? ==> r.value == AllDeltas(batch, fieldNames, json) && Converted(batch, r.value, fieldNames, json)
    ensures r.Err? ==> exists i | 0 <= i < |batch| ::
              && AllKnown(batch[..i], fieldNames) && batch[i].rel !in fieldNames
              && r.error == SinkError.UnknownRelation(batch[i].rel)
  {
    hide Zipped, Converted;
    var result: seq<Delta<J>> := [];
    for i := 0 to |batch|
      invariant AllKnown(batch[..i], fieldNames)
      invariant result == AllDeltas(batch[..i], fieldNames, json)
    {
      ghost var was := result;
      var op := batch[i];
      match op.op {
        case Insert(row) =>
          var inserted := ConvertRow(op.rel, row, fieldNames, json);
          if inserted.Err? {
            return Err(inserted.error);
          }
          result := result + [Insertion(inserted.value)];
        case Update(before, row) =>
          var deleted := ConvertRow(op.rel, before, fieldNames, json);
          if deleted.Err? {
            return Err(deleted.error);
          }
          result := result + [Deletion(deleted.value)];
          var inserted := ConvertRow(op.rel, row, fieldNames, json);
          match inserted {
            case Ok(converted) => result := result + [Insertion(converted)];
            case Err(e) => return Err(e);
          }
        case Delete(before) =>
          var deleted := ConvertRow(op.rel, before, fieldNames, json);
          if deleted.Err? {
            return Err(deleted.error);
          }
          result := result + [Deletion(deleted.value)];
      }
      assert result == was + Deltas(op, fieldNames[op.rel], json);
      assert batch[..i + 1][..i] == batch[..i];
    }
    assert batch[..|batch|] == batch;
    AllDeltasAreConverted(batch, fieldNames, json);
    return Ok(result);
  }

  // ----- Batches -----

  /** Conversion distributes over concatenation, so how events are batched does not matter. */
  lemma {:induction false} ConversionDistributes<J>(a: seq<ChangeEvent>, b: seq<ChangeEvent>, fieldNames: FieldNameMap,
                                                    json: PgValue -> J)
    requires AllKnown(a, fieldNames) && AllKnown(b, fieldNames)
    ensures AllKnown(a + b, fieldNames)
    ensures AllDeltas(a + b, fieldNames, json) == AllDeltas(a, fieldNames, json) + AllDeltas(b, fieldNames, json)
  {
    hide Deltas;
    if b == [] {
      assert a + b == a;
      assert AllDeltas(b, fieldNames, json) == [];
    } else {
      var last := |b| - 1;
      ConversionDistributes(a, b[..last], fieldNames, json);
      assert (a + b)[..|a + b| - 1] == a + b[..last] && (a + b)[|a + b| - 1] == b[last];
      var x, y, z := AllDeltas(a, fieldNames, json), AllDeltas(b[..last], fieldNames, json),
          Deltas(b[last], fieldNames[b[last].rel], json);
      hide AllDeltas, AllKnown;
      assert x + y + z == x + (y + z);
    }
  }

  function CountOf(batch: seq<ChangeEvent>, f: ChangeEvent -> bool): nat
  {
    if batch == [] then 0
    else CountOf(batch[..|batch| - 1], f) + if f(batch[|batch| - 1]) then 1 else 0
  }

  lemma {:induction false} ConvertedLength<J>(batch: seq<ChangeEvent>, fieldNames: FieldNameMap, json: PgValue -> J)
    requires AllKnown(batch, fieldNames)
    ensures |AllDeltas(batch, fieldNames, json)| ==
            CountOf(batch, (e: ChangeEvent) => e.op.Insert?) + CountOf(batch, (e: ChangeEvent) => e.op.Delete?)
            + 2 * CountOf(batch, (e: ChangeEvent) => e.op.Update?)
  {
    hide Deltas;
    if batch != [] {
      ConvertedLength(batch[..|batch| - 1], fieldNames, json);
    }
  }

  // ----- Weights -----

  function Unit(b: bool): int
  {
    if b then 1 else 0
  }

  /** The signed number of times a row occurs. */
  function Weight<J(==)>(ds: seq<Delta<J>>, row: NamedRow<J>): int
  {
    if ds == [] then 0
    else
      var d := ds[|ds| - 1];
      Weight(ds[..|ds| - 1], row) + if d.row != row then 0 else if d.Insertion? then 1 else -1
  }

  /** The change of a row's multiplicity that a batch asks for, for one relation's names. */
  function NetChange<J(==)>(batch: seq<ChangeEvent>, fieldNames: FieldNameMap, json: PgValue -> J,
                       row: NamedRow<J>): int
    requires AllKnown(batch, fieldNames)
  {
    if batch == [] then 0
    else
      var e := batch[|batch| - 1];
      var names := fieldNames[e.rel];
      NetChange(batch[..|batch| - 1], fieldNames, json, row) +
      match e.op
      case Insert(now) => Unit(Zipped(now, names, json) == row)
      case Update(was, now) => Unit(Zipped(now, names, json) == row) - Unit(Zipped(was, names, json) == row)
      case Delete(was) => -Unit(Zipped(was, names, json) == row)
  }

  lemma {:induction false} WeightAdds<J>(a: seq<Delta<J>>, b: seq<Delta<J>>, row: NamedRow<J>)
    ensures Weight(a + b, row) == Weight(a, row) + Weight(b, row)
  {
    if b == [] {
      assert a + b == a;
    } else {
      WeightAdds(a, b[..|b| - 1], row);
      assert (a + b)[..|a + b| - 1] == a + b[..|b| - 1];
    }
  }

  lemma WeightOfOne<J>(e: ChangeEvent, names: seq<string>, json: PgValue -> J, row: NamedRow<J>)
    ensures Weight(Deltas(e, names, json), row) ==
            match e.op
            case Insert(now) => Unit(Zipped(now, names, json) == row)
            case Update(was, now) => Unit(Zipped(now, names, json) == row) - Unit(Zipped(was, names, json) == row)
            case Delete(was) => -Unit(Zipped(was, names, json) == row)
  {
    hide Zipped;
    var ds := Deltas(e, names, json);
    assert Weight(ds[..0], row) == 0;
    if |ds| == 2 {
      assert ds[..1][..0] == [];
      assert Weight(ds[..1], row) == Weight([], row) + if ds[0].row != row then 0 else -1;
    }
  }

  /** The deltas conserve weight: for every row, insertions less deletions is the net change the batch asks for. */
  lemma {:induction false} WeightsAreConserved<J>(batch: seq<ChangeEvent>, fieldNames: FieldNameMap, json: PgValue -> J,
                                                  row: NamedRow<J>)
    requires AllKnown(batch, fieldNames)
    ensures Weight(AllDeltas(batch, fieldNames, json), row) == NetChange(batch, fieldNames, json, row)
  {
    hide Zipped, Deltas;
    if batch != [] {
      var last := |batch| - 1;
      WeightsAreConserved(batch[..last], fieldNames, json, row);
      WeightAdds(AllDeltas(batch[..last], fieldNames, json), Deltas(batch[last], fieldNames[batch[last].rel], json),
          row);
      WeightOfOne(batch[last], fieldNames[batch[last].rel], json, row);
    }
  }

  // ----- What is sent -----

  /** What is sent for an event: the table and the deltas. */
  function EventInput<J>(tableNames: map<UInt32, string>, fieldNames: FieldNameMap, e: ChangeEvent, json: PgValue -> J)
    : Result<(string, seq<Delta<J>>), SinkError>
  {
    match MergeOp(e.op)
    case None => Err(ToastedInKeyOnly)
    case Some(op) =>
      if e.rel !in tableNames || e.rel !in fieldNames then Err(SinkError.UnknownRelation(e.rel))
      else Ok((tableNames[e.rel], Deltas(ChangeEvent(op, e.rel), fieldNames[e.rel], json)))
  }

  /** The deltas of a whole history; what fails is not sent. */
  function SentDeltas<J>(tableNames: map<UInt32, string>, fieldNames: FieldNameMap, es: seq<ChangeEvent>,
                         json: PgValue -> J)
    : seq<Delta<J>>
  {
    if es == [] then []
    else
      SentDeltas(tableNames, fieldNames, es[..|es| - 1], json) +
      match EventInput(tableNames, fieldNames, es[|es| - 1], json)
      case Ok(input) => input.1
      case Err(_) => []
  }

  // ----- A maintained table -----

  /** What happens to the rows of a table; rows are addressed by their place. A changed row may leave out, as toasted,
      what it does not change. */
  datatype Change = Added(row: seq<PgValue>) | Changed(at: nat, row: seq<PgValue>) | Removed(at: nat)

  predicate Happens(table: seq<seq<PgValue>>, c: Change)
  {
    && (!c.Added? ==> c.at < |table|)
    && (c.Changed? ==> |c.row| == |table[c.at]|)
  }

  function After(table: seq<seq<PgValue>>, c: Change): seq<seq<PgValue>>
    requires Happens(table, c)
  {
    match c
    case Added(row) => table + [row]
    case Changed(at, row) => table[at := Merged(table[at], row)]
    case Removed(at) => table[..at] + table[at + 1..]
  }

  /** The event of a change under full replica identity, which carries the whole old row. */
  function EventOf(oid: UInt32, table: seq<seq<PgValue>>, c: Change): ChangeEvent
    requires Happens(table, c)
  {
    match c
    case Added(row) => ChangeEvent(Insert(row), oid)
    case Changed(at, row) => ChangeEvent(Update(table[at], row), oid)
    case Removed(at) => ChangeEvent(Delete(table[at]), oid)
  }

  /** The maintained table; deleting a row that is not there is an error. */
  function Maintained<J(==)>(rows: multiset<NamedRow<J>>, ds: seq<Delta<J>>): Option<multiset<NamedRow<J>>>
  {
    if ds == [] then Some(rows)
    else
      var last := |ds| - 1;
      match Maintained(rows, ds[..last])
      case None => None
      case Some(before) =>
        if ds[last].Insertion? then Some(before + multiset{ds[last].row})
        else if ds[last].row in before then Some(before - multiset{ds[last].row})
        else None
  }

  function Images<J>(table: seq<seq<PgValue>>, names: seq<string>, json: PgValue -> J): (images: seq<NamedRow<J>>)
    ensures |images| == |table| && forall i | 0 <= i < |table| :: images[i] == Zipped(table[i], names, json)
  {
    seq(|table|, i requires 0 <= i < |table| => Zipped(table[i], names, json))
  }

  /** Each image pairs the values of its own row with the names. */
  lemma ImagesArePairings<J>(table: seq<seq<PgValue>>, names: seq<string>, json: PgValue -> J)
    ensures forall i | 0 <= i < |table| :: IsPairing(Images(table, names, json)[i], table[i], names, json)
  {
    hide Zipped, IsPairing;
    forall i | 0 <= i < |table| ensures IsPairing(Images(table, names, json)[i], table[i], names, json) {
      ZippedIsPairing(table[i], names, json);
    }
  }

  lemma {:induction false} MaintainedAppend<J>(rows: multiset<NamedRow<J>>, a: seq<Delta<J>>, b: seq<Delta<J>>)
    ensures Maintained(rows, a + b) ==
            match Maintained(rows, a) case None => None case Some(middle) => Maintained(middle, b)
  {
    if b == [] {
      assert a + b == a;
    } else {
      MaintainedAppend(rows, a, b[..|b| - 1]);
      assert (a + b)[..|a + b| - 1] == a + b[..|b| - 1];
    }
  }

  lemma MaintainedOne<J>(rows: multiset<NamedRow<J>>, d: Delta<J>)
    ensures Maintained(rows, [d]) ==
            if d.Insertion? then Some(rows + multiset{d.row})
            else if d.row in rows then Some(rows - multiset{d.row}) else None
  {
    NothingMaintained(rows);
    assert [d][..0] == [];
  }

  lemma MaintainedTwo<J>(rows: multiset<NamedRow<J>>, was: NamedRow<J>, now: NamedRow<J>)
    ensures Maintained(rows, [Deletion(was), Insertion(now)]) ==
            if was in rows then Some(rows - multiset{was} + multiset{now}) else None
  {
    hide Maintained;
    MaintainedOne(rows, Deletion(was));
    MaintainedOne(rows - multiset{was}, Insertion(now));
    MaintainedAppend(rows, [Deletion(was)], [Insertion(now)]);
    assert [Deletion(was)] + [Insertion(now)] == [Deletion(was), Insertion(now)];
  }

  lemma BagReplaced<T>(xs: seq<T>, at: nat, x: T)
    requires at < |xs|
    ensures multiset(xs[at := x]) == multiset(xs) - multiset{xs[at]} + multiset{x} && xs[at] in multiset(xs)
  {
  }

  lemma BagWithout<T>(xs: seq<T>, at: nat)
    requires at < |xs|
    ensures multiset(xs[..at] + xs[at + 1..]) == multiset(xs) - multiset{xs[at]} && xs[at] in multiset(xs)
  {
    assert xs == xs[..at] + [xs[at]] + xs[at + 1..];
  }

  /** How the images change with the table. */
  lemma ImagesAfter<J>(table: seq<seq<PgValue>>, c: Change, names: seq<string>, json: PgValue -> J)
    requires Happens(table, c)
    ensures var was, now := Images(table, names, json), Images(After(table, c), names, json);
            && (c.Added? ==> now == was + [Zipped(c.row, names, json)])
            && (c.Changed? ==> now == was[c.at := Zipped(Merged(table[c.at], c.row), names, json)])
            && (c.Removed? ==> now == was[..c.at] + was[c.at + 1..])
  {
    hide Zipped, Merged;
    var was, now := Images(table, names, json), Images(After(table, c), names, json);
    match c {
      case Added(row) => assert now == was + [Zipped(row, names, json)];
      case Changed(at, row) => assert now == was[at := Zipped(Merged(table[at], row), names, json)];
      case Removed(at) => assert now == was[..at] + was[at + 1..];
    }
  }

  /** What is sent for a change: the merge restores what was left out. */
  function DeltasOf<J>(table: seq<seq<PgValue>>, c: Change, names: seq<string>, json: PgValue -> J): seq<Delta<J>>
    requires Happens(table, c)
  {
    match c
    case Added(row) => [Insertion(Zipped(row, names, json))]
    case Changed(at, row) =>
      [Deletion(Zipped(table[at], names, json)), Insertion(Zipped(Merged(table[at], row), names, json))]
    case Removed(at) => [Deletion(Zipped(table[at], names, json))]
  }

  lemma ChangeIsSent<J>(oid: UInt32, table: seq<seq<PgValue>>, c: Change, tableNames: map<UInt32, string>,
                        fieldNames: FieldNameMap, json: PgValue -> J)
    requires Happens(table, c) && oid in tableNames && oid in fieldNames
    ensures EventInput(tableNames, fieldNames, EventOf(oid, table, c), json) ==
            Ok((tableNames[oid], DeltasOf(table, c, fieldNames[oid], json)))
  {
    hide Zipped, Merged;
    if c.Changed? {
      forall i | 0 <= i < |c.row| ensures !Stuck(table[c.at], c.row, i) {
      }
    }
  }

  /** One change is maintained exactly. */
  lemma ChangeIsMaintained<J>(table: seq<seq<PgValue>>, c: Change, names: seq<string>, json: PgValue -> J)
    requires Happens(table, c)
    ensures Maintained(multiset(Images(table, names, json)), DeltasOf(table, c, names, json)) ==
            Some(multiset(Images(After(table, c), names, json)))
  {
    hide Zipped, Maintained, Images, After, Merged;
    ImagesAfter(table, c, names, json);
    var was := Images(table, names, json);
    match c {
      case Added(row) =>
        MaintainedOne(multiset(was), Insertion(Zipped(row, names, json)));
      case Changed(at, row) =>
        MaintainedTwo(multiset(was), was[at], Zipped(Merged(table[at], row), names, json));
        BagReplaced(was, at, Zipped(Merged(table[at], row), names, json));
      case Removed(at) =>
        MaintainedOne(multiset(was), Deletion(was[at]));
        BagWithout(was, at);
    }
  }

  predicate AllHappen(table: seq<seq<PgValue>>, cs: seq<Change>)
  {
    cs == [] ||
    var last := |cs| - 1;
    AllHappen(table, cs[..last]) && Happens(AfterAll(table, cs[..last]), cs[last])
  }

  function AfterAll(table: seq<seq<PgValue>>, cs: seq<Change>): seq<seq<PgValue>>
  {
    if cs == [] then table
    else
      var last := |cs| - 1;
      var before := AfterAll(table, cs[..last]);
      if Happens(before, cs[last]) then After(before, cs[last]) else before
  }

  function EventsOfAll(oid: UInt32, table: seq<seq<PgValue>>, cs: seq<Change>): (es: seq<ChangeEvent>)
    requires AllHappen(table, cs)
    ensures |es| == |cs| && forall i | 0 <= i < |es| :: es[i].rel == oid
  {
    if cs == [] then []
    else
      var last := |cs| - 1;
      EventsOfAll(oid, table, cs[..last]) + [EventOf(oid, AfterAll(table, cs[..last]), cs[last])]
  }

  lemma {:induction false} RowsAreMaintained<J>(oid: UInt32, table: seq<seq<PgValue>>, cs: seq<Change>,
                                                tableNames: map<UInt32, string>, fieldNames: FieldNameMap,
                                                json: PgValue -> J)
    requires oid in tableNames && oid in fieldNames && AllHappen(table, cs)
    ensures Maintained(multiset(Images(table, fieldNames[oid], json)),
            SentDeltas(tableNames, fieldNames, EventsOfAll(oid, table, cs), json)) ==
            Some(multiset(Images(AfterAll(table, cs), fieldNames[oid], json)))
  {
    hide Maintained, EventInput, DeltasOf, Images, EventOf, After, Happens;
    if cs == [] {
      NothingMaintained(multiset(Images(table, fieldNames[oid], json)));
    } else {
      var last := |cs| - 1;
      var front := cs[..last];
      RowsAreMaintained(oid, table, front, tableNames, fieldNames, json);
      var middle := AfterAll(table, front);
      var e, es := EventOf(oid, middle, cs[last]), EventsOfAll(oid, table, front);
      assert (es + [e])[..last] == es && (es + [e])[last] == e;
      ChangeIsSent(oid, middle, cs[last], tableNames, fieldNames, json);
      MaintainedAppend(multiset(Images(table, fieldNames[oid], json)), SentDeltas(tableNames, fieldNames, es, json),
                       DeltasOf(middle, cs[last], fieldNames[oid], json));
      ChangeIsMaintained(middle, cs[last], fieldNames[oid], json);
    }
  }

  /** The event is sent, and to its own table. */
  predicate IsSent<J>(tableNames: map<UInt32, string>, fieldNames: FieldNameMap, e: ChangeEvent, json: PgValue -> J)
  {
    && EventInput(tableNames, fieldNames, e, json).Ok?
    && e.rel in tableNames && EventInput(tableNames, fieldNames, e, json).value.0 == tableNames[e.rel]
  }

  lemma {:induction false} AllAreSent<J>(oid: UInt32, table: seq<seq<PgValue>>, cs: seq<Change>,
                                         tableNames: map<UInt32, string>, fieldNames: FieldNameMap,
                                         json: PgValue -> J)
    requires oid in tableNames && oid in fieldNames && AllHappen(table, cs)
    ensures var es := EventsOfAll(oid, table, cs);
            forall i | 0 <= i < |es| :: IsSent(tableNames, fieldNames, es[i], json)
  {
    hide EventInput, DeltasOf, After, Happens;
    if cs != [] {
      var last := |cs| - 1;
      AllAreSent(oid, table, cs[..last], tableNames, fieldNames, json);
      var middle, es := AfterAll(table, cs[..last]), EventsOfAll(oid, table, cs);
      ChangeIsSent(oid, middle, cs[last], tableNames, fieldNames, json);
      assert IsSent(tableNames, fieldNames, EventOf(oid, middle, cs[last]), json);
      hide IsSent, EventOf;
      forall i | 0 <= i < |es| ensures IsSent(tableNames, fieldNames, es[i], json) {
        assert i < last ==> es[i] == EventsOfAll(oid, table, cs[..last])[i];
      }
    }
  }

  /** Under full replica identity the maintained table follows the source through every history, updates that leave out
      unchanged toasted values included: every event is sent, to the right table, no deletion ever misses, and the rows
      are the images of the source's rows with their multiplicities, each value under the name of its column. */
  lemma TableIsMaintained<J>(oid: UInt32, table: seq<seq<PgValue>>, cs: seq<Change>,
                             tableNames: map<UInt32, string>, fieldNames: FieldNameMap, json: PgValue -> J)
    requires oid in tableNames && oid in fieldNames && AllHappen(table, cs)
    ensures var es, rows := EventsOfAll(oid, table, cs), AfterAll(table, cs);
            && (forall i | 0 <= i < |es| :: es[i].rel == oid && IsSent(tableNames, fieldNames, es[i], json))
            && Maintained(multiset(Images(table, fieldNames[oid], json)),
               SentDeltas(tableNames, fieldNames, es, json)) == Some(multiset(Images(rows, fieldNames[oid], json)))
            && forall i | 0 <= i < |rows| ::
                 IsPairing(Images(rows, fieldNames[oid], json)[i], rows[i], fieldNames[oid], json)
  {
    hide Maintained, SentDeltas, IsSent, IsPairing, Images, AfterAll;
    AllAreSent(oid, table, cs, tableNames, fieldNames, json);
    RowsAreMaintained(oid, table, cs, tableNames, fieldNames, json);
    ImagesArePairings(AfterAll(table, cs), fieldNames[oid], json);
  }

  lemma NothingMaintained<J>(rows: multiset<NamedRow<J>>)
    ensures Maintained(rows, []) == Some(rows)
  {
  }

  /** An update that carries no old row deletes the empty row instead of the one it replaces, so the deletion misses
      in every table without an empty row. */
  lemma UpdateWithoutOldRowMisses<J>(oid: UInt32, rows: multiset<NamedRow<J>>, row: seq<PgValue>, names: seq<string>,
                                     json: PgValue -> J)
    ensures Maintained(rows, Deltas(ChangeEvent(Update([], row), oid), names, json)).Some? <==> map[] in rows
  {
    MaintainedTwo(rows, map[], Zipped(row, names, json));
  }

  lemma {:induction false} ZippedKeys<J>(values: seq<PgValue>, names: seq<string>, json: PgValue -> J)
    requires |values| <= |names|
    ensures forall n :: n in Zipped(values, names, json) <==> n in names[..|values|]
    decreases |names|
  {
    if |names| > |values| && values != [] {
      ZippedKeys(values, names[..|values|], json);
      assert names[..|values|][..|values|] == names[..|values|];
    } else if values != [] {
      var last := |values| - 1;
      ZippedKeys(values[..last], names[..last], json);
      assert names[..|values|] == names[..last] + [names[last]];
      assert names[..last][..last] == names[..last];
    }
  }

  /** A row with fewer values than there are names is the image of no whole row. */
  lemma ShortRowsDiffer<J>(short: seq<PgValue>, whole: seq<PgValue>, names: seq<string>, json: PgValue -> J)
    requires Database.Distinct(names) && |short| < |whole| == |names|
    ensures Zipped(short, names, json) != Zipped(whole, names, json)
  {
    hide Zipped;
    ZippedKeys(short, names, json);
    ZippedKeys(whole, names, json);
    assert names[..|names|] == names;
    var n := names[|short|];
    assert n !in names[..|short|] && n in names;
  }

  /** A delete under key identity carries the values of the key alone, and they are given the first names. In a table of
      whole rows its deletion hits exactly when every column is a key and the row is there. */
  lemma KeyDeleteHitsIff<J>(oid: UInt32, table: seq<seq<PgValue>>, key: seq<PgValue>, names: seq<string>,
                            json: PgValue -> J)
    requires Database.Distinct(names) && |key| <= |names| && forall i | 0 <= i < |table| :: |table[i]| == |names|
    ensures Maintained(multiset(Images(table, names, json)),
            Deltas(ChangeEvent(Delete(key), oid), names, json)).Some? <==>
            |key| == |names| && Zipped(key, names, json) in Images(table, names, json)
  {
    hide Zipped, Maintained;
    var images := Images(table, names, json);
    MaintainedOne(multiset(images), Deletion(Zipped(key, names, json)));
    if |key| < |names| {
      forall i | 0 <= i < |images| ensures images[i] != Zipped(key, names, json) {
        ShortRowsDiffer(key, table[i], names, json);
      }
    }
  }

  // ----- The sink -----

  class FelderaConnector<J> {
    var tableNames: map<UInt32, string>
    var fieldNames: FieldNameMap

    constructor (relations: Relations)
      ensures tableNames == CacheOf(relations).tableNames && fieldNames == CacheOf(relations).fields
    {
      tableNames := CacheOf(relations).tableNames;
      fieldNames := CacheOf(relations).fields;
    }

    method OnRelation(rel: Relation)
      modifies this
      ensures tableNames == old(tableNames)[rel.oid := Chars(rel.name)]
      ensures fieldNames == old(fieldNames)[rel.oid := FieldNames(rel.fields)]
    {
      tableNames := tableNames[rel.oid := Chars(rel.name)];
      fieldNames := fieldNames[rel.oid := FieldNames(rel.fields)];
    }

    /** Prepares the request; sending it is up to the client. */
    method OnEvent(event: ChangeEvent, json: PgValue -> J) returns (r: Result<(string, seq<Delta<J>>), SinkError>)
      ensures r == EventInput(tableNames, fieldNames, event, json)
      ensures r.Ok? <==> MergeOp(event.op).Some? && event.rel in tableNames && event.rel in fieldNames
      ensures r.Err? ==>
                r.error == if MergeOp(event.op).Some? then SinkError.UnknownRelation(event.rel) else ToastedInKeyOnly
      ensures r.Ok? ==>
                && r.value.0 == tableNames[event.rel]
                && ConvertedOne(MergeOp(event.op).value, r.value.1, fieldNames[event.rel], json)
    {
      hide Zipped, Converted, ConvertedOne;
      var merged := MergeInOp(event.op);
      if merged.None? {
        return Err(ToastedInKeyOnly);
      }
      if event.rel !in tableNames {
        return Err(SinkError.UnknownRelation(event.rel));
      }
      var batch := [ChangeEvent(merged.value, event.rel)];
      var converted := ConvertOpBatches(batch, fieldNames, json);
      if converted.Err? {
        return Err(converted.error);
      }
      assert batch[..0] == [];
      assert AllDeltas([], fieldNames, json) + Deltas(batch[0], fieldNames[event.rel], json) ==
          Deltas(batch[0], fieldNames[event.rel], json);
      DeltasAreConverted(batch[0], fieldNames[event.rel], json);
      return Ok((tableNames[event.rel], converted.value));
    }
  }
}
