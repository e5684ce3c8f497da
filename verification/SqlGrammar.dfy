/** A grammar for the statements of the PostgreSQL sink: which texts are statements, and what they say. */
module SqlGrammar {
  import opened Wrappers
  import opened Sql

  datatype Statement =
    | Upsert(table: string, columns: seq<string>, params: seq<nat>, conflict: seq<string>,
             sets: Option<seq<(string, string)>>)
    | Delete(table: string, conditions: seq<(string, nat)>)

  // ----- Words -----

  predicate NameChar(c: char)
  {
    c != ' ' && c != ',' && c != '(' && c != ')'
  }

  predicate IsName(s: string)
  {
    s != "" && forall i | 0 <= i < |s| :: NameChar(s[i])
  }

  predicate AllNames(names: seq<string>)
  {
    forall i | 0 <= i < |names| :: IsName(names[i])
  }

  /** No word goes on here. */
  predicate EndsWord(s: string)
  {
    s == "" || !NameChar(s[0])
  }

  function TakeWord(s: string): (r: (string, string))
    ensures |r.1| <= |s|
  {
    if EndsWord(s) then ("", s)
    else
      var (word, rest) := TakeWord(s[1..]);
      ([s[0]] + word, rest)
  }

  function ReadName(s: string): Option<(string, string)>
  {
    var (word, rest) := TakeWord(s);
    if word == "" then None else Some((word, rest))
  }

  function Expect(literal: string, s: string): Option<string>
  {
    if literal <= s then Some(s[|literal|..]) else None
  }

  predicate IsDigit(c: char)
  {
    '0' <= c <= '9'
  }

  predicate AllDigits(s: string)
  {
    forall i | 0 <= i < |s| :: IsDigit(s[i])
  }

  function Value(s: string): nat
    requires AllDigits(s)
  {
    if s == "" then 0 else Value(s[..|s| - 1]) * 10 + (s[|s| - 1] as int - '0' as int)
  }

  // ----- Clauses -----

  function ReadPlaceholder(s: string): Option<(nat, string)>
  {
    var s :- Expect("$", s);
    var (digits, rest) :- ReadName(s);
    if AllDigits(digits) then Some((Value(digits), rest)) else None
  }

  function ReadAssignment(s: string): Option<((string, string), string)>
  {
    var (target, s) :- ReadName(s);
    var s :- Expect(" = EXCLUDED.", s);
    var (source, s) :- ReadName(s);
    Some(((target, source), s))
  }

  function ReadCondition(s: string): Option<((string, nat), string)>
  {
    var (column, s) :- ReadName(s);
    var s :- Expect(" = ", s);
    var (n, s) :- ReadPlaceholder(s);
    Some(((column, n), s))
  }

  /** One item or more, with a separator between each two. */
  function ReadList<T>(item: string -> Option<(T, string)>, sep: string, s: string): Option<(seq<T>, string)>
    decreases |s|
  {
    match item(s)
    case None => None
    case Some((x, rest)) =>
      if sep != "" && |rest| <= |s| && sep <= rest then
        match ReadList(item, sep, rest[|sep|..])
        case None => None
        case Some((xs, end)) => Some(([x] + xs, end))
      else Some(([x], rest))
  }

  function ReadAction(s: string): Option<Option<seq<(string, string)>>>
  {
    if s == ") DO NOTHING" then Some(None)
    else
      var s :- Expect(") DO UPDATE SET ", s);
      var (sets, end) :- ReadList(ReadAssignment, ",", s);
      if end == "" then Some(Some(sets)) else None
  }

  function ReadConflict(s: string): Option<(seq<string>, Option<seq<(string, string)>>)>
  {
    var s :- Expect(") ON CONFLICT (", s);
    var (conflict, s) :- ReadList(ReadName, ", ", s);
    var sets :- ReadAction(s);
    Some((conflict, sets))
  }

  function ReadUpsert(s: string): Option<Statement>
  {
    var s :- Expect("INSERT INTO ", s);
    var (table, s) :- ReadName(s);
    var s :- Expect(" (", s);
    var (columns, s) :- ReadList(ReadName, ",", s);
    var s :- Expect(") VALUES (", s);
    var (params, s) :- ReadList(ReadPlaceholder, ",", s);
    var (conflict, sets) :- ReadConflict(s);
    Some(Upsert(table, columns, params, conflict, sets))
  }

  function ReadDelete(s: string): Option<Statement>
  {
    var s :- Expect("DELETE FROM ", s);
    var (table, s) :- ReadName(s);
    var s :- Expect(" WHERE ", s);
    var (conditions, end) :- ReadList(ReadCondition, " AND ", s);
    if end == "" then Some(Delete(table, conditions)) else None
  }

  // ----- What is written is read back -----

  lemma ExpectLiteral(literal: string, rest: string)
    ensures Expect(literal, literal + rest) == Some(rest)
  {
  }

  lemma {:induction false} NameReadsBack(name: string, rest: string)
    requires EndsWord(rest) && forall i | 0 <= i < |name| :: NameChar(name[i])
    ensures TakeWord(name + rest) == (name, rest)
  {
    hide NameChar;
    if name == "" {
      assert name + rest == rest;
    } else {
      NameReadsBack(name[1..], rest);
      assert (name + rest)[1..] == name[1..] + rest;
      assert [name[0]] + name[1..] == name;
    }
  }

  /** A decimal numeral is a word of digits with the value it was written from. */
  lemma {:induction false} NumeralReadsBack(n: nat)
    ensures IsName(Decimal(n)) && AllDigits(Decimal(n)) && Value(Decimal(n)) == n
  {
    if n >= 10 {
      NumeralReadsBack(n / 10);
      var front := Decimal(n / 10);
      assert Decimal(n)[..|front|] == front;
    } else {
      assert Decimal(n)[..0] == "";
    }
  }

  lemma PlaceholderReadsBack(n: nat, rest: string)
    requires EndsWord(rest)
    ensures ReadPlaceholder(Placeholder(n) + rest) == Some((n, rest))
  {
    hide Decimal, Value, TakeWord, NameChar, IsDigit;
    NumeralReadsBack(n);
    assert Placeholder(n) + rest == "$" + (Decimal(n) + rest);
    ExpectLiteral("$", Decimal(n) + rest);
    NameReadsBack(Decimal(n), rest);
  }

  lemma AssignmentReadsBack(target: string, source: string, rest: string)
    requires IsName(target) && IsName(source) && EndsWord(rest)
    ensures ReadAssignment(Assignment((target, source)) + rest) == Some(((target, source), rest))
  {
    hide TakeWord;
    var tail := " = EXCLUDED." + (source + rest);
    assert Assignment((target, source)) + rest == target + tail;
    NameReadsBack(target, tail);
    ExpectLiteral(" = EXCLUDED.", source + rest);
    NameReadsBack(source, rest);
  }

  lemma ConditionReadsBack(column: string, n: nat, rest: string)
    requires IsName(column) && EndsWord(rest)
    ensures ReadCondition(Condition((column, n)) + rest) == Some(((column, n), rest))
  {
    hide TakeWord, ReadPlaceholder, Placeholder;
    var tail := " = " + (Placeholder(n) + rest);
    assert Condition((column, n)) + rest == column + tail;
    NameReadsBack(column, tail);
    ExpectLiteral(" = ", Placeholder(n) + rest);
    PlaceholderReadsBack(n, rest);
  }

  /** An item is read back wherever a word may end. */
  ghost predicate ReadsBack<T(!new)>(item: string -> Option<(T, string)>, show: T -> string, x: T)
  {
    forall rest | EndsWord(rest) :: item(show(x) + rest) == Some((x, rest))
  }

  lemma JoinFirst<T>(show: T -> string, xs: seq<T>, sep: string)
    requires |xs| > 1
    ensures Join(Texts(show, xs), sep) == show(xs[0]) + (sep + Join(Texts(show, xs[1..]), sep))
  {
    assert Texts(show, xs)[1..] == Texts(show, xs[1..]);
  }

  lemma FirstReadsBack<T(!new)>(item: string -> Option<(T, string)>, show: T -> string, x: T, sep: string, more: string)
    requires ReadsBack(item, show, x) && sep != "" && EndsWord(sep)
    ensures var rest := ReadList(item, sep, more);
            ReadList(item, sep, show(x) + (sep + more)) ==
            if rest.None? then None else Some(([x] + rest.value.0, rest.value.1))
  {
    hide ReadsBack;
    assert EndsWord(sep + more);
    assert item(show(x) + (sep + more)) == Some((x, sep + more)) by {
      ReadsBackHere(item, show, x, sep + more);
    }
    assert (sep + more)[|sep|..] == more;
  }

  lemma ReadsBackHere<T(!new)>(item: string -> Option<(T, string)>, show: T -> string, x: T, rest: string)
    requires ReadsBack(item, show, x) && EndsWord(rest)
    ensures item(show(x) + rest) == Some((x, rest))
  {
  }

  lemma LastReadsBack<T(!new)>(item: string -> Option<(T, string)>, show: T -> string, x: T, sep: string, rest: string)
    requires ReadsBack(item, show, x) && sep != "" && EndsWord(rest) && !(sep <= rest)
    ensures ReadList(item, sep, show(x) + rest) == Some(([x], rest))
  {
    hide ReadsBack;
    ReadsBackHere(item, show, x, rest);
  }

  /** A list is read back up to a text at which no item goes on; if another separator follows, so must an item. */
  lemma {:induction false} ListReadsBack<T(!new)>(item: string -> Option<(T, string)>, show: T -> string, xs: seq<T>,
                                                  sep: string, rest: string)
    requires xs != [] && forall i | 0 <= i < |xs| :: ReadsBack(item, show, xs[i])
    requires sep != "" && EndsWord(sep) && EndsWord(rest) && !(sep <= rest)
    ensures ReadList(item, sep, Join(Texts(show, xs), sep) + rest) == Some((xs, rest))
  {
    hide ReadsBack, ReadList, EndsWord;
    if |xs| == 1 {
      assert Join(Texts(show, xs), sep) == show(xs[0]);
      LastReadsBack(item, show, xs[0], sep, rest);
      assert [xs[0]] == xs;
    } else {
      var more := Join(Texts(show, xs[1..]), sep) + rest;
      JoinFirst(show, xs, sep);
      assert Join(Texts(show, xs), sep) + rest == show(xs[0]) + (sep + more);
      ListReadsBack(item, show, xs[1..], sep, rest);
      FirstReadsBack(item, show, xs[0], sep, more);
      assert [xs[0]] + xs[1..] == xs;
    }
  }

  lemma {:induction false} TrailingSeparatorIsRefused<T(!new)>(item: string -> Option<(T, string)>, show: T -> string,
                                                               xs: seq<T>, sep: string)
    requires xs != [] && forall i | 0 <= i < |xs| :: ReadsBack(item, show, xs[i])
    requires sep != "" && EndsWord(sep) && item("") == None
    ensures ReadList(item, sep, Join(Texts(show, xs), sep) + sep) == None
  {
    hide ReadsBack, EndsWord;
    if |xs| == 1 {
      assert Join(Texts(show, xs), sep) + sep == show(xs[0]) + (sep + "");
      FirstReadsBack(item, show, xs[0], sep, "");
    } else {
      var more := Join(Texts(show, xs[1..]), sep) + sep;
      JoinFirst(show, xs, sep);
      assert Join(Texts(show, xs), sep) + sep == show(xs[0]) + (sep + more);
      TrailingSeparatorIsRefused(item, show, xs[1..], sep);
      FirstReadsBack(item, show, xs[0], sep, more);
    }
  }

  function Itself(s: string): string
  {
    s
  }

  lemma NamesReadBack(names: seq<string>, sep: string, rest: string)
    requires names != [] && AllNames(names) && sep != "" && EndsWord(sep) && EndsWord(rest) && !(sep <= rest)
    ensures ReadList(ReadName, sep, Join(names, sep) + rest) == Some((names, rest))
  {
    hide ReadList, TakeWord, Join;
    assert Texts(Itself, names) == names;
    forall i | 0 <= i < |names| ensures ReadsBack(ReadName, Itself, names[i]) {
      forall rest | EndsWord(rest) ensures ReadName(Itself(names[i]) + rest) == Some((names[i], rest)) {
        NameReadsBack(names[i], rest);
      }
    }
    ListReadsBack(ReadName, Itself, names, sep, rest);
  }

  lemma PlaceholdersReadBack(ns: seq<nat>, rest: string)
    requires ns != [] && EndsWord(rest) && !("," <= rest)
    ensures ReadList(ReadPlaceholder, ",", Join(Texts(Placeholder, ns), ",") + rest) == Some((ns, rest))
  {
    hide ReadList, ReadPlaceholder, Placeholder, Join;
    forall i | 0 <= i < |ns| ensures ReadsBack(ReadPlaceholder, Placeholder, ns[i]) {
      forall rest | EndsWord(rest) ensures ReadPlaceholder(Placeholder(ns[i]) + rest) == Some((ns[i], rest)) {
        PlaceholderReadsBack(ns[i], rest);
      }
    }
    ListReadsBack(ReadPlaceholder, Placeholder, ns, ",", rest);
  }

  lemma ConditionsReadBack(cs: seq<(string, nat)>)
    requires cs != [] && forall i | 0 <= i < |cs| :: IsName(cs[i].0)
    ensures ReadList(ReadCondition, " AND ", Join(Texts(Condition, cs), " AND ")) == Some((cs, ""))
  {
    hide ReadList, ReadCondition, Condition, Join, IsName;
    forall i | 0 <= i < |cs| ensures ReadsBack(ReadCondition, Condition, cs[i]) {
      forall rest | EndsWord(rest) ensures ReadCondition(Condition(cs[i]) + rest) == Some((cs[i], rest)) {
        ConditionReadsBack(cs[i].0, cs[i].1, rest);
      }
    }
    ListReadsBack(ReadCondition, Condition, cs, " AND ", "");
    assert Join(Texts(Condition, cs), " AND ") + "" == Join(Texts(Condition, cs), " AND ");
  }

  lemma {:induction false} NonKeysAreNames(rows: seq<string>, keys: seq<string>)
    requires AllNames(rows)
    ensures AllNames(NonKeys(rows, keys))
    ensures rows != [] && rows[|rows| - 1] !in keys ==> NonKeys(rows, keys) != []
  {
    hide IsName;
    if rows != [] {
      NonKeysAreNames(rows[..|rows| - 1], keys);
    }
  }

  lemma NothingIsNoItem()
    ensures ReadAssignment("") == None && ReadList(ReadAssignment, ",", "") == None
  {
  }

  lemma AssignmentsReadBack(cs: seq<string>)
    requires cs != [] && AllNames(cs)
    ensures ReadList(ReadAssignment, ",", Listed(cs)) == Some((Twice(cs), ""))
    ensures ReadList(ReadAssignment, ",", Listed(cs) + ",") == None
  {
    hide ReadList, ReadAssignment, Assignment, Join, IsName;
    var pairs := Twice(cs);
    forall i | 0 <= i < |pairs| ensures ReadsBack(ReadAssignment, Assignment, pairs[i]) {
      forall rest | EndsWord(rest) ensures ReadAssignment(Assignment(pairs[i]) + rest) == Some((pairs[i], rest)) {
        AssignmentReadsBack(cs[i], cs[i], rest);
      }
    }
    NothingIsNoItem();
    ListReadsBack(ReadAssignment, Assignment, pairs, ",", "");
    assert Listed(cs) + "" == Listed(cs);
    TrailingSeparatorIsRefused(ReadAssignment, Assignment, pairs, ",");
  }

  // ----- The upsert -----

  function Action(rows: seq<string>, keys: seq<string>): Option<seq<(string, string)>>
  {
    if |rows| == |keys| then None else Some(Twice(NonKeys(rows, keys)))
  }

  /** Every column is a key, or a column that is not a key comes last. */
  predicate EndsWell(rows: seq<string>, keys: seq<string>)
    requires rows != []
  {
    |rows| == |keys| || rows[|rows| - 1] !in keys
  }

  lemma ActionReadsBack(rows: seq<string>, keys: seq<string>)
    requires rows != [] && AllNames(rows)
    ensures ReadAction(ConflictText(rows, keys)) == if EndsWell(rows, keys) then Some(Action(rows, keys)) else None
  {
    hide ReadList, ReadAssignment, IsName, Listed, SetList;
    if |rows| != |keys| {
      var cs := NonKeys(rows, keys);
      NonKeysAreNames(rows, keys);
      SetListListed(rows, keys);
      NoneListed();
      NothingIsNoItem();
      ExpectLiteral(") DO UPDATE SET ", SetList(rows, keys));
      assert ConflictText(rows, keys)[5] == 'U';
      if cs != [] {
        AssignmentsReadBack(cs);
      }
      assert Listed(cs) + "" == Listed(cs);
    }
  }

  lemma ConflictReadsBack(rows: seq<string>, keys: seq<string>)
    requires rows != [] && AllNames(rows) && AllNames(keys)
    ensures ReadConflict(") ON CONFLICT (" + (Join(keys, ", ") + ConflictText(rows, keys))) ==
            if keys != [] && EndsWell(rows, keys) then Some((keys, Action(rows, keys))) else None
  {
    hide ReadList, ReadAction, IsName, Join, SetList, EndsWell;
    var tail := ConflictText(rows, keys);
    ExpectLiteral(") ON CONFLICT (", Join(keys, ", ") + tail);
    if keys == [] {
      JoinNone(", ");
      assert Join(keys, ", ") + tail == tail;
      NoNameHere(", ", tail);
    } else {
      NamesReadBack(keys, ", ", tail);
      ActionReadsBack(rows, keys);
    }
  }

  lemma NoNameHere(sep: string, s: string)
    requires EndsWord(s)
    ensures ReadList(ReadName, sep, s) == None
  {
  }

  /** The upsert text is a statement exactly when there are columns and keys and either every column is a key or
      the last is not; then it says what it should: the table, the columns with the placeholders 1 to n in column
      order, the keys, and each other column set to its new value. */
  lemma UpsertReadsBack(table: string, rows: seq<string>, keys: seq<string>)
    requires IsName(table) && AllNames(rows) && AllNames(keys)
    ensures ReadUpsert(UpsertText(table, rows, keys)) ==
            if rows != [] && keys != [] && EndsWell(rows, keys)
            then Some(Upsert(table, rows, OneTo(|rows|), keys, Action(rows, keys)))
            else None
  {
    hide ReadList, ReadConflict, ReadName, Join, ConflictText, EndsWell, Texts, OneTo, AllNames, IsName;
    var conflict := ") ON CONFLICT (" + (Join(keys, ", ") + ConflictText(rows, keys));
    var values := ") VALUES (" + (Join(Texts(Placeholder, OneTo(|rows|)), ",") + conflict);
    var columns := " (" + (Join(rows, ",") + values);
    ExpectLiteral("INSERT INTO ", table + columns);
    ReadTable(table, columns);
    ExpectLiteral(" (", Join(rows, ",") + values);
    if rows == [] {
      JoinNone(",");
      assert Join(rows, ",") + values == values;
      Delimiters(values, conflict);
      NoNameHere(",", values);
    } else {
      Delimiters(values, conflict);
      NamesReadBack(rows, ",", values);
      ExpectLiteral(") VALUES (", Join(Texts(Placeholder, OneTo(|rows|)), ",") + conflict);
      PlaceholdersReadBack(OneTo(|rows|), conflict);
      ConflictReadsBack(rows, keys);
    }
  }

  lemma ReadTable(table: string, rest: string)
    requires IsName(table) && EndsWord(rest)
    ensures ReadName(table + rest) == Some((table, rest))
  {
    NameReadsBack(table, rest);
  }

  lemma Delimiters(values: string, conflict: string)
    requires ") VALUES (" <= values && ") ON CONFLICT (" <= conflict
    ensures EndsWord(values) && !("," <= values) && EndsWord(conflict) && !("," <= conflict)
  {
  }

  /** The delete text is a statement exactly when there are keys; then the j-th names the j-th key and the
      placeholder j + 1. */
  lemma DeleteReadsBack(table: string, keys: seq<string>)
    requires IsName(table) && AllNames(keys)
    ensures ReadDelete(DeleteText(table, keys)) == if keys != [] then Some(Delete(table, Numbered(keys))) else None
  {
    hide ReadList, ReadName, Join, Texts, IsName, ReadCondition;
    var conditions := Join(Texts(Condition, Numbered(keys)), " AND ");
    ExpectLiteral("DELETE FROM ", table + (" WHERE " + conditions));
    ReadTable(table, " WHERE " + conditions);
    ExpectLiteral(" WHERE ", conditions);
    if keys == [] {
      JoinNone(" AND ");
      NoCondition();
    } else {
      forall i | 0 <= i < |keys| ensures IsName(Numbered(keys)[i].0) {
      }
      ConditionsReadBack(Numbered(keys));
    }
  }

  lemma NoCondition()
    ensures ReadList(ReadCondition, " AND ", "") == None
  {
  }

  /** Different shapes have different statements. */
  lemma StatementsTellShapesApart(t1: string, rows1: seq<string>, keys1: seq<string>,
                                  t2: string, rows2: seq<string>, keys2: seq<string>)
    requires IsName(t1) && AllNames(rows1) && AllNames(keys1) && rows1 != [] && keys1 != [] && EndsWell(rows1, keys1)
    requires IsName(t2) && AllNames(rows2) && AllNames(keys2) && rows2 != [] && keys2 != [] && EndsWell(rows2, keys2)
    ensures UpsertText(t1, rows1, keys1) == UpsertText(t2, rows2, keys2) <==>
            t1 == t2 && rows1 == rows2 && keys1 == keys2
    ensures DeleteText(t1, keys1) == DeleteText(t2, keys2) <==> t1 == t2 && keys1 == keys2
  {
    hide UpsertText, DeleteText, ReadUpsert, ReadDelete, IsName, AllNames, EndsWell;
    UpsertReadsBack(t1, rows1, keys1);
    UpsertReadsBack(t2, rows2, keys2);
    DeleteReadsBack(t1, keys1);
    DeleteReadsBack(t2, keys2);
    if Numbered(keys1) == Numbered(keys2) {
      forall i | 0 <= i < |keys1| ensures keys1[i] == keys2[i] {
        assert Numbered(keys1)[i].0 == keys1[i] && Numbered(keys2)[i].0 == keys2[i];
      }
      assert keys1 == keys2;
    }
  }
}
