/** What PostgreSQL does with the sink's statements, and the tables it keeps. */
module Database {
  import opened Wrappers
  import opened ChangeEvents
  import opened Sql
  import opened SqlGrammar
  import opened RelationCaches

  type Row = map<string, PgValue>

  type Table = set<Row>

  type Db = map<string, Table>

  // ----- Statements -----

  function Arg(args: seq<PgValue>, n: nat): PgValue
  {
    if 1 <= n <= |args| then args[n - 1] else Null
  }

  function NewRow(columns: seq<string>, params: seq<nat>, args: seq<PgValue>): Row
    requires |columns| == |params|
  {
    if columns == [] then map[]
    else
      var last := |columns| - 1;
      NewRow(columns[..last], params[..last], args)[columns[last] := Arg(args, params[last])]
  }

  function At(row: Row, column: string): PgValue
  {
    if column in row then row[column] else Null
  }

  /** Null equals nothing, not even itself. */
  predicate SqlEqual(a: PgValue, b: PgValue)
  {
    a == b && a != Null
  }

  predicate Conflicts(was: Row, row: Row, conflict: seq<string>)
  {
    forall i | 0 <= i < |conflict| :: SqlEqual(At(was, conflict[i]), At(row, conflict[i]))
  }

  function Assigned(was: Row, row: Row, sets: seq<(string, string)>): Row
  {
    if sets == [] then was
    else
      var last := |sets| - 1;
      Assigned(was, row, sets[..last])[sets[last].0 := At(row, sets[last].1)]
  }

  /** `None` is to do nothing. */
  function Resolved(was: Row, row: Row, sets: Option<seq<(string, string)>>): Row
  {
    if sets.None? then was else Assigned(was, row, sets.value)
  }

  function Upserted(t: Table, row: Row, conflict: seq<string>, sets: Option<seq<(string, string)>>): Table
  {
    if exists r | r in t :: Conflicts(r, row, conflict)
    then set r | r in t :: if Conflicts(r, row, conflict) then Resolved(r, row, sets) else r
    else t + {row}
  }

  predicate Selected(row: Row, conditions: seq<(string, nat)>, args: seq<PgValue>)
  {
    forall i | 0 <= i < |conditions| :: SqlEqual(At(row, conditions[i].0), Arg(args, conditions[i].1))
  }

  function Params(s: Statement): nat
  {
    if s.Upsert? then |s.params| else |s.conditions|
  }

  /** The key columns of a table are not null. */
  predicate KeyIsNull(row: Row, conflict: seq<string>)
  {
    exists i | 0 <= i < |conflict| :: At(row, conflict[i]) == Null
  }

  /** `ok` is false when the server or the connection fails. */
  function Execute(db: Db, s: Statement, args: seq<PgValue>, ok: bool): Result<Db, SinkError>
  {
    if !ok || |args| != Params(s) || Toasted in args || s.table !in db then Err(Platform)
    else
      match s
      case Upsert(table, columns, params, conflict, sets) =>
        if |columns| != |params| then Err(Platform)
        else
          var row := NewRow(columns, params, args);
          if KeyIsNull(row, conflict) then Err(Platform)
          else Ok(db[table := Upserted(db[table], row, conflict, sets)])
      case Delete(table, conditions) =>
        Ok(db[table := set r | r in db[table] && !Selected(r, conditions, args)])
  }

  // ----- Tables as maps from key to row -----

  type Contents = map<seq<PgValue>, seq<PgValue>>

  function Named(names: seq<string>, values: seq<PgValue>): Row
  {
    NewRow(names, OneTo(|names|), values)
  }

  function Pick(values: seq<PgValue>, indexes: seq<nat>): (picked: seq<PgValue>)
    requires forall j | 0 <= j < |indexes| :: indexes[j] < |values|
    ensures |picked| == |indexes| && forall j | 0 <= j < |indexes| :: picked[j] == values[indexes[j]]
  {
    seq(|indexes|, j requires 0 <= j < |indexes| => values[indexes[j]])
  }

  function KeyOf(fields: seq<Field>, values: seq<PgValue>): (key: seq<PgValue>)
    requires |values| == |fields|
    ensures |key| == |KeyIndexes(fields)|
  {
    Pick(values, KeyIndexes(fields))
  }

  predicate Storable(fields: seq<Field>, values: seq<PgValue>)
  {
    |values| == |fields| && Toasted !in values && Null !in KeyOf(fields, values)
  }

  predicate Keyed(fields: seq<Field>, m: Contents)
  {
    forall k | k in m :: Storable(fields, m[k]) && KeyOf(fields, m[k]) == k
  }

  /** The table that holds the given rows. */
  function TableOf(names: seq<string>, m: Contents): Table
  {
    set k | k in m :: Named(names, m[k])
  }

  predicate Distinct(names: seq<string>)
  {
    forall i, j | 0 <= i < j < |names| :: names[i] != names[j]
  }

  lemma {:induction false} NamedAt(names: seq<string>, values: seq<PgValue>)
    requires Distinct(names) && |names| <= |values|
    ensures Named(names, values).Keys == set n | n in names
    ensures forall i | 0 <= i < |names| ::
              names[i] in Named(names, values) && At(Named(names, values), names[i]) == values[i]
  {
    if names != [] {
      var last := |names| - 1;
      NamedAt(names[..last], values);
      assert OneTo(|names|)[..last] == OneTo(last);
      assert Named(names, values) == Named(names[..last], values)[names[last] := values[last]];
    }
  }

  lemma KeyNameIsColumnName(fields: seq<Field>, j: nat)
    requires j < |KeyNames(fields)|
    ensures |KeyNames(fields)| == |KeyIndexes(fields)| &&
            KeyNames(fields)[j] == FieldNames(fields)[KeyIndexes(fields)[j]]
  {
    KeyNamesAreTheProjection(fields);
  }

  lemma KeyColumn(fields: seq<Field>, values: seq<PgValue>, j: nat)
    requires Distinct(FieldNames(fields)) && |values| == |fields| && j < |KeyNames(fields)|
    ensures |KeyNames(fields)| == |KeyIndexes(fields)|
    ensures At(Named(FieldNames(fields), values), KeyNames(fields)[j]) == KeyOf(fields, values)[j]
  {
    hide KeyNames, FieldNames, Named, KeyIndexes;
    KeyNameIsColumnName(fields, j);
    NamedAt(FieldNames(fields), values);
  }

  /** Two stored rows conflict exactly when their keys are equal. */
  lemma ConflictIsSameKey(fields: seq<Field>, a: seq<PgValue>, b: seq<PgValue>)
    requires Distinct(FieldNames(fields)) && Storable(fields, a) && Storable(fields, b)
    ensures Conflicts(Named(FieldNames(fields), a), Named(FieldNames(fields), b), KeyNames(fields)) <==>
            KeyOf(fields, a) == KeyOf(fields, b)
    ensures !KeyIsNull(Named(FieldNames(fields), a), KeyNames(fields))
  {
    hide Named, KeyNames, FieldNames, KeyOf;
    KeyNamesAreTheProjection(fields);
    forall j: nat | j < |KeyNames(fields)|
      ensures At(Named(FieldNames(fields), a), KeyNames(fields)[j]) == KeyOf(fields, a)[j] != Null
      ensures At(Named(FieldNames(fields), b), KeyNames(fields)[j]) == KeyOf(fields, b)[j]
    {
      KeyColumn(fields, a, j);
      KeyColumn(fields, b, j);
      assert KeyOf(fields, a)[j] in KeyOf(fields, a);
    }
    if Conflicts(Named(FieldNames(fields), a), Named(FieldNames(fields), b), KeyNames(fields)) {
      forall j: nat | j < |KeyNames(fields)| ensures KeyOf(fields, a)[j] == KeyOf(fields, b)[j] {
        assert SqlEqual(At(Named(FieldNames(fields), a), KeyNames(fields)[j]),
                        At(Named(FieldNames(fields), b), KeyNames(fields)[j]));
      }
    }
  }

  lemma {:induction false} NonKeysAreTheOthers(rows: seq<string>, keys: seq<string>)
    ensures forall c :: c in NonKeys(rows, keys) <==> c in rows && c !in keys
  {
    if rows != [] {
      NonKeysAreTheOthers(rows[..|rows| - 1], keys);
      assert rows == rows[..|rows| - 1] + [rows[|rows| - 1]];
    }
  }

  lemma {:induction false} AssignedAt(was: Row, row: Row, cs: seq<string>)
    ensures Assigned(was, row, Twice(cs)).Keys == was.Keys + set c | c in cs
    ensures forall c :: At(Assigned(was, row, Twice(cs)), c) == if c in cs then At(row, c) else At(was, c)
  {
    if cs != [] {
      var last := |cs| - 1;
      AssignedAt(was, row, cs[..last]);
      assert Twice(cs)[..last] == Twice(cs[..last]);
      assert cs == cs[..last] + [cs[last]];
    }
  }

  lemma SameRow(a: Row, b: Row)
    requires a.Keys == b.Keys && forall c | c in a :: At(a, c) == At(b, c)
    ensures a == b
  {
    assert forall c | c in a :: At(a, c) == a[c] && At(b, c) == b[c];
  }

  lemma SameKeyColumns(fields: seq<Field>, was: seq<PgValue>, now: seq<PgValue>)
    requires Distinct(FieldNames(fields)) && |was| == |now| == |fields| && KeyOf(fields, was) == KeyOf(fields, now)
    ensures forall c | c in KeyNames(fields) ::
              At(Named(FieldNames(fields), was), c) == At(Named(FieldNames(fields), now), c)
  {
    hide Named, FieldNames, KeyNames, KeyOf, At, KeyIndexes, Distinct;
    var names, keys := FieldNames(fields), KeyNames(fields);
    forall j: nat | j < |keys| ensures At(Named(names, was), keys[j]) == At(Named(names, now), keys[j]) {
      KeyColumn(fields, was, j);
      KeyColumn(fields, now, j);
    }
  }

  /** Resolving a conflict leaves the new row, whatever the old one was. */
  lemma ResolvedIsNew(fields: seq<Field>, was: seq<PgValue>, now: seq<PgValue>)
    requires Distinct(FieldNames(fields)) && Storable(fields, was) && Storable(fields, now)
    requires KeyOf(fields, was) == KeyOf(fields, now)
    ensures var names := FieldNames(fields);
            Resolved(Named(names, was), Named(names, now), Action(names, KeyNames(fields))) == Named(names, now)
  {
    assert |was| == |now| == |fields|;
    hide Named, FieldNames, KeyNames, KeyOf, Assigned, NonKeys, Distinct, Storable, At;
    var names, keys := FieldNames(fields), KeyNames(fields);
    NamedAt(names, was);
    NamedAt(names, now);
    SameKeyColumns(fields, was, now);
    if |names| == |keys| {
      EveryColumnIsKey(fields);
      SameRow(Named(names, was), Named(names, now));
    } else {
      var cs := NonKeys(names, keys);
      NonKeysAreTheOthers(names, keys);
      AssignedAt(Named(names, was), Named(names, now), cs);
      SameRow(Assigned(Named(names, was), Named(names, now), Twice(cs)), Named(names, now));
    }
  }

  lemma EveryColumnIsKey(fields: seq<Field>)
    requires |FieldNames(fields)| == |KeyNames(fields)|
    ensures forall c | c in FieldNames(fields) :: c in KeyNames(fields)
    ensures forall j | 0 <= j < |KeyIndexes(fields)| :: KeyIndexes(fields)[j] == j
  {
    hide KeyNames, KeyIndexes;
    KeyNamesAreTheProjection(fields);
    forall j: nat | j < |KeyIndexes(fields)| ensures KeyIndexes(fields)[j] == j {
      IncreasingBelow(KeyIndexes(fields), |fields|, j);
      IncreasingClimbs(KeyIndexes(fields), j);
    }
    forall i: nat | i < |fields| ensures FieldNames(fields)[i] in KeyNames(fields) {
      assert KeyNames(fields)[i] == Chars(fields[KeyIndexes(fields)[i]].name);
    }
  }

  /** An upsert puts the row under its key: a blind write, whatever was there. */
  lemma UpsertPuts(fields: seq<Field>, m: Contents, row: seq<PgValue>)
    requires Distinct(FieldNames(fields)) && Keyed(fields, m) && Storable(fields, row)
    ensures var names, keys := FieldNames(fields), KeyNames(fields);
            Upserted(TableOf(names, m), Named(names, row), keys, Action(names, keys)) ==
            TableOf(names, m[KeyOf(fields, row) := row])
    ensures Keyed(fields, m[KeyOf(fields, row) := row])
  {
    assert |row| == |fields| && forall k | k in m :: Storable(fields, m[k]);
    hide Named, FieldNames, KeyNames, KeyOf, Resolved, Action, Conflicts, Storable, KeyIsNull;
    var names, keys := FieldNames(fields), KeyNames(fields);
    var k, row1 := KeyOf(fields, row), Named(names, row);
    forall k1 | k1 in m
      ensures Conflicts(Named(names, m[k1]), row1, keys) <==> k1 == k
      ensures k1 == k ==> Resolved(Named(names, m[k1]), row1, Action(names, keys)) == row1
    {
      ConflictIsSameKey(fields, m[k1], row);
      if k1 == k {
        ResolvedIsNew(fields, m[k1], row);
      }
    }
    UpsertedImage(names, m, k, row, keys, Action(names, keys));
  }

  lemma UpsertedImage(names: seq<string>, m: Contents, k: seq<PgValue>, row: seq<PgValue>, keys: seq<string>,
                      action: Option<seq<(string, string)>>)
    requires forall k1 | k1 in m :: Conflicts(Named(names, m[k1]), Named(names, row), keys) <==> k1 == k
    requires k in m ==> Resolved(Named(names, m[k]), Named(names, row), action) == Named(names, row)
    ensures Upserted(TableOf(names, m), Named(names, row), keys, action) == TableOf(names, m[k := row])
  {
    hide Named, Resolved, Conflicts;
    var t, row1, m2 := TableOf(names, m), Named(names, row), m[k := row];
    var t2 := Upserted(t, row1, keys, action);
    forall r | r in TableOf(names, m2) ensures r in t2 {
      var k1 :| k1 in m2 && r == Named(names, m2[k1]);
      if k in m {
        assert Named(names, m[k]) in t;
      }
    }
    forall r | r in t2 ensures r in TableOf(names, m2) {
      assert m2[k] == row;
      if k in m {
        UpsertedFrom(names, m, k, row, keys, action, r);
      } else if r != row1 {
        var k1 :| k1 in m && r == Named(names, m[k1]);
        assert m2[k1] == m[k1];
      }
    }
  }

  /** Where a row of an upserted table comes from when the key was there before. */
  lemma UpsertedFrom(names: seq<string>, m: Contents, k: seq<PgValue>, row: seq<PgValue>, keys: seq<string>,
                     action: Option<seq<(string, string)>>, r: Row)
    requires forall k1 | k1 in m :: Conflicts(Named(names, m[k1]), Named(names, row), keys) <==> k1 == k
    requires k in m && Resolved(Named(names, m[k]), Named(names, row), action) == Named(names, row)
    requires r in Upserted(TableOf(names, m), Named(names, row), keys, action)
    ensures r in TableOf(names, m[k := row])
  {
    hide Named, Resolved, Conflicts;
    var t, row1, m2 := TableOf(names, m), Named(names, row), m[k := row];
    assert Named(names, m[k]) in t;
    var r0 :| r0 in t && r == if Conflicts(r0, row1, keys) then Resolved(r0, row1, action) else r0;
    var k1 :| k1 in m && r0 == Named(names, m[k1]);
    assert k1 in m2 && k in m2;
    if k1 == k {
      assert m2[k] == row && r == row1;
    } else {
      assert m2[k1] == m[k1] && r == r0;
    }
  }

  /** The conditions of the delete select exactly the row with the given key; none, when a part of it is null. */
  lemma SelectedIsSameKey(fields: seq<Field>, values: seq<PgValue>, key: seq<PgValue>)
    requires Distinct(FieldNames(fields)) && Storable(fields, values) && |key| == |KeyNames(fields)|
    ensures Selected(Named(FieldNames(fields), values), Numbered(KeyNames(fields)), key) <==>
            KeyOf(fields, values) == key
    ensures Null in key ==> !Selected(Named(FieldNames(fields), values), Numbered(KeyNames(fields)), key)
  {
    hide Named, KeyNames, FieldNames, KeyOf;
    KeyNamesAreTheProjection(fields);
    var r, keys, conditions := Named(FieldNames(fields), values), KeyNames(fields), Numbered(KeyNames(fields));
    forall j: nat | j < |keys|
      ensures SqlEqual(At(r, conditions[j].0), Arg(key, conditions[j].1)) <==> KeyOf(fields, values)[j] == key[j]
    {
      KeyColumn(fields, values, j);
      assert KeyOf(fields, values)[j] in KeyOf(fields, values);
    }
    if Selected(r, conditions, key) {
      assert KeyOf(fields, values) == key;
    }
  }

  /** A delete removes exactly the row with the given key, if there is one. */
  lemma DeleteRemoves(fields: seq<Field>, m: Contents, key: seq<PgValue>)
    requires Distinct(FieldNames(fields)) && Keyed(fields, m) && |key| == |KeyNames(fields)|
    ensures var names := FieldNames(fields);
            (set r | r in TableOf(names, m) && !Selected(r, Numbered(KeyNames(fields)), key)) ==
                TableOf(names, m - {key})
    ensures Keyed(fields, m - {key})
  {
    hide Named, FieldNames, KeyNames, KeyOf, Selected, Storable;
    forall k | k in m
      ensures Selected(Named(FieldNames(fields), m[k]), Numbered(KeyNames(fields)), key) <==> k == key
    {
      SelectedIsSameKey(fields, m[k], key);
    }
    RemainingImage(FieldNames(fields), m, key, Numbered(KeyNames(fields)));
  }

  lemma RemainingImage(names: seq<string>, m: Contents, key: seq<PgValue>, conditions: seq<(string, nat)>)
    requires forall k | k in m :: Selected(Named(names, m[k]), conditions, key) <==> k == key
    ensures (set r | r in TableOf(names, m) && !Selected(r, conditions, key)) == TableOf(names, m - {key})
  {
    hide Named, Selected;
    var m2 := m - {key};
    forall r | r in TableOf(names, m2) ensures r in TableOf(names, m) && !Selected(r, conditions, key) {
      var k :| k in m2 && r == Named(names, m2[k]);
      assert k in m;
    }
    forall r | r in TableOf(names, m) && !Selected(r, conditions, key) ensures r in TableOf(names, m2) {
      var k :| k in m && r == Named(names, m[k]);
      assert k in m2;
    }
  }
}
