/** The SQL text that the PostgreSQL sink prepares, and a grammar that reads it back. A string of the source is the
    sequence of its octets, one character each. */
module Sql {

  // ----- Text -----

  function Join(parts: seq<string>, sep: string): (text: string)
  {
    if parts == [] then ""
    else if |parts| == 1 then parts[0]
    else parts[0] + (sep + Join(parts[1..], sep))
  }

  function Digit(d: nat): char
    requires d < 10
  {
    "0123456789"[d]
  }

  function Decimal(n: nat): (text: string)
    ensures text != ""
  {
    if n < 10 then [Digit(n)] else Decimal(n / 10) + [Digit(n % 10)]
  }

  function Placeholder(n: nat): string
  {
    "$" + Decimal(n)
  }

  /** The numbers from 1 to `n`. */
  function OneTo(n: nat): (ks: seq<nat>)
    ensures |ks| == n && forall i | 0 <= i < n :: ks[i] == i + 1
  {
    seq(n, i => i + 1)
  }

  function Texts<T>(show: T -> string, xs: seq<T>): (parts: seq<string>)
    ensures |parts| == |xs| && forall i | 0 <= i < |xs| :: parts[i] == show(xs[i])
  {
    seq(|xs|, i requires 0 <= i < |xs| => show(xs[i]))
  }

  function Assignment(a: (string, string)): string
  {
    a.0 + (" = EXCLUDED." + a.1)
  }

  function Condition(c: (string, nat)): string
  {
    c.0 + (" = " + Placeholder(c.1))
  }

  function NonKeys(rows: seq<string>, keys: seq<string>): (cs: seq<string>)
  {
    if rows == [] then []
    else
      var last := |rows| - 1;
      if rows[last] in keys then NonKeys(rows[..last], keys) else NonKeys(rows[..last], keys) + [rows[last]]
  }

  function Twice(cs: seq<string>): (pairs: seq<(string, string)>)
    ensures |pairs| == |cs| && forall i | 0 <= i < |cs| :: pairs[i] == (cs[i], cs[i])
  {
    seq(|cs|, i requires 0 <= i < |cs| => (cs[i], cs[i]))
  }

  /** A comma is left over when a key column comes last. */
  function SetList(rows: seq<string>, keys: seq<string>): string
  {
    var cs := NonKeys(rows, keys);
    Join(Texts(Assignment, Twice(cs)), ",") + if cs != [] && rows[|rows| - 1] in keys then "," else ""
  }

  function ConflictText(rows: seq<string>, keys: seq<string>): string
  {
    if |rows| != |keys| then ") DO UPDATE SET " + SetList(rows, keys) else ") DO NOTHING"
  }

  function UpsertText(table: string, rows: seq<string>, keys: seq<string>): string
  {
    "INSERT INTO " + (table + (" (" + (Join(rows, ",") + (") VALUES (" + (Join(Texts(Placeholder, OneTo(|rows|)), ",")
    + (") ON CONFLICT (" + (Join(keys, ", ") + ConflictText(rows, keys))))))))
  }

  function Numbered(keys: seq<string>): (cs: seq<(string, nat)>)
    ensures |cs| == |keys| && forall i | 0 <= i < |keys| :: cs[i] == (keys[i], i + 1)
  {
    seq(|keys|, i requires 0 <= i < |keys| => (keys[i], i + 1))
  }

  function DeleteText(table: string, keys: seq<string>): string
  {
    "DELETE FROM " + (table + (" WHERE " + Join(Texts(Condition, Numbered(keys)), " AND ")))
  }

  // ----- The loops that write it -----

  lemma {:induction false} JoinMore(parts: seq<string>, sep: string, p: string)
    ensures Join(parts + [p], sep) == if parts == [] then p else Join(parts, sep) + sep + p
  {
    if |parts| == 1 {
      assert (parts + [p])[1..] == [p];
    } else if |parts| > 1 {
      JoinMore(parts[1..], sep, p);
      assert (parts + [p])[1..] == parts[1..] + [p];
      assert parts[0] + (sep + (Join(parts[1..], sep) + sep + p)) == parts[0] + (sep + Join(parts[1..], sep)) + sep + p;
    }
  }

  /** A separator is written after each part but the last. */
  function Pending(n: nat, i: nat, sep: string): string
  {
    if 0 < i < n then sep else ""
  }

  lemma JoinStep(parts: seq<string>, sep: string, i: nat)
    requires i < |parts|
    ensures Join(parts[..i + 1], sep) == Join(parts[..i], sep) + Pending(|parts|, i, sep) + parts[i]
  {
    assert parts[..i + 1] == parts[..i] + [parts[i]];
    JoinMore(parts[..i], sep, parts[i]);
  }

  method PushList(text: string, parts: seq<string>, sep: string) returns (out: string)
    ensures out == text + Join(parts, sep)
  {
    out := text;
    for i := 0 to |parts|
      invariant out == text + (Join(parts[..i], sep) + Pending(|parts|, i, sep))
    {
      JoinStep(parts, sep, i);
      out := out + parts[i];
      if i < |parts| - 1 {
        out := out + sep;
      }
    }
    assert parts[..|parts|] == parts;
  }

  method PushPlaceholders(text: string, n: nat) returns (out: string)
    ensures out == text + Join(Texts(Placeholder, OneTo(n)), ",")
  {
    hide Decimal, Join;
    ghost var parts := Texts(Placeholder, OneTo(n));
    out := text;
    assert Join([], ",") == "" by {
      JoinNone(",");
    }
    for i := 0 to n
      invariant out == text + (Join(parts[..i], ",") + Pending(n, i, ","))
    {
      JoinStep(parts, ",", i);
      out := out + Placeholder(i + 1);
      if i < n - 1 {
        out := out + ",";
      }
    }
    assert parts[..n] == parts;
  }

  lemma JoinNone(sep: string)
    ensures Join([], sep) == ""
  {
  }

  /** The assignments of the first `i` columns; each but that of the last column carries a comma. */
  function Assignments(rows: seq<string>, keys: seq<string>, i: nat): string
    requires i <= |rows|
  {
    if i == 0 then ""
    else if rows[i - 1] in keys then Assignments(rows, keys, i - 1)
    else Assignments(rows, keys, i - 1) + Assignment((rows[i - 1], rows[i - 1])) + if i < |rows| then "," else ""
  }

  function Listed(cs: seq<string>): string
  {
    Join(Texts(Assignment, Twice(cs)), ",")
  }

  lemma ListedMore(cs: seq<string>, c: string)
    ensures Listed(cs + [c]) == Listed(cs) + (if cs == [] then "" else ",") + Assignment((c, c))
  {
    hide Assignment, Join;
    JoinNone(",");
    assert Texts(Assignment, Twice(cs + [c])) == Texts(Assignment, Twice(cs)) + [Assignment((c, c))];
    JoinMore(Texts(Assignment, Twice(cs)), ",", Assignment((c, c)));
  }

  lemma AssignmentsStep(rows: seq<string>, keys: seq<string>, i: nat)
    requires 0 < i <= |rows|
    ensures NonKeys(rows[..i], keys) ==
            if rows[i - 1] in keys then NonKeys(rows[..i - 1], keys) else NonKeys(rows[..i - 1], keys) + [rows[i - 1]]
  {
    assert rows[..i][..i - 1] == rows[..i - 1];
  }

  lemma {:induction false} AssignmentsBeforeLast(rows: seq<string>, keys: seq<string>, i: nat)
    requires i < |rows|
    ensures var cs := NonKeys(rows[..i], keys);
            Assignments(rows, keys, i) == Listed(cs) + if cs == [] then "" else ","
  {
    hide Assignment, Join, Listed;
    if i == 0 {
      NoneListed();
    } else {
      AssignmentsBeforeLast(rows, keys, i - 1);
      AssignmentsStep(rows, keys, i);
      ListedMore(NonKeys(rows[..i - 1], keys), rows[i - 1]);
    }
  }

  lemma NoneListed()
    ensures Listed([]) == ""
  {
  }

  lemma AssignmentsAreTheSetList(rows: seq<string>, keys: seq<string>)
    ensures Assignments(rows, keys, |rows|) == SetList(rows, keys)
  {
    hide Assignment, Join, Listed, Texts, Twice;
    NoneListed();
    SetListListed(rows, keys);
    if rows != [] {
      var last := |rows| - 1;
      AssignmentsBeforeLast(rows, keys, last);
      ListedMore(NonKeys(rows[..last], keys), rows[last]);
    }
  }

  lemma SetListListed(rows: seq<string>, keys: seq<string>)
    ensures var cs := NonKeys(rows, keys);
            SetList(rows, keys) == Listed(cs) + if cs != [] && rows[|rows| - 1] in keys then "," else ""
  {
  }

  method PushAssignments(text: string, rows: seq<string>, keys: seq<string>) returns (out: string)
    ensures out == text + SetList(rows, keys)
  {
    hide SetList;
    out := text;
    for i := 0 to |rows|
      invariant out == text + Assignments(rows, keys, i)
    {
      if rows[i] in keys {
        continue;
      }
      out := out + rows[i];
      out := out + " = EXCLUDED.";
      out := out + rows[i];
      if i < |rows| - 1 {
        out := out + ",";
      }
      assert out == text + (Assignments(rows, keys, i) + Assignment((rows[i], rows[i]))
                            + if i + 1 < |rows| then "," else "");
    }
    AssignmentsAreTheSetList(rows, keys);
  }

  lemma Flat4(a: string, b: string, c: string, d: string)
    ensures a + (b + (c + d)) == a + b + c + d
  {
  }

  method PushColumns(table: string, rows: seq<string>) returns (text: string)
    ensures text == "INSERT INTO " + table + " (" + Join(rows, ",")
  {
    text := "INSERT INTO ";
    text := text + table;
    text := text + " (";
    text := PushList(text, rows, ",");
  }

  method PushValues(start: string, n: nat) returns (text: string)
    ensures text == start + ") VALUES (" + Join(Texts(Placeholder, OneTo(n)), ",") + ") ON CONFLICT ("
  {
    hide Join, Texts;
    text := start + ") VALUES (";
    text := PushPlaceholders(text, n);
    ghost var listed := text;
    text := text + ")";
    text := text + " ON CONFLICT (";
    assert text == listed + ") ON CONFLICT (";
  }

  method PushConflict(start: string, rows: seq<string>, keys: seq<string>) returns (text: string)
    ensures text == start + Join(keys, ", ") + ConflictText(rows, keys)
  {
    hide Join, SetList;
    text := PushList(start, keys, ", ");
    if |rows| != |keys| {
      ghost var listed := text;
      text := text + ") DO UPDATE SET ";
      text := PushAssignments(text, rows, keys);
      assert text == listed + (") DO UPDATE SET " + SetList(rows, keys));
    } else {
      text := text + ") DO NOTHING";
    }
  }

  method GenUpsert(table: string, rows: seq<string>, keys: seq<string>) returns (text: string)
    ensures text == UpsertText(table, rows, keys)
  {
    text := PushColumns(table, rows);
    text := PushValues(text, |rows|);
    text := PushConflict(text, rows, keys);
    UpsertTextIsFlat(table, rows, keys);
  }

  lemma UpsertTextIsFlat(table: string, rows: seq<string>, keys: seq<string>)
    ensures UpsertText(table, rows, keys) ==
            "INSERT INTO " + table + " (" + Join(rows, ",")
            + ") VALUES (" + Join(Texts(Placeholder, OneTo(|rows|)), ",") + ") ON CONFLICT ("
            + Join(keys, ", ") + ConflictText(rows, keys)
  {
    hide Join, Texts, ConflictText;
    var insert, columns, values, params, conflict, names, action :=
      "INSERT INTO ", Join(rows, ","), ") VALUES (", Join(Texts(Placeholder, OneTo(|rows|)), ","), ") ON CONFLICT (",
      Join(keys, ", "), ConflictText(rows, keys);
    Regroup(insert, table, " (", columns, values, params, conflict, names, action);
  }

  lemma Regroup(a: string, b: string, c: string, d: string, e: string, f: string, g: string, h: string, i: string)
    ensures a + (b + (c + (d + (e + (f + (g + (h + i))))))) == a + b + c + d + e + f + g + h + i
  {
    Flat4(e, f, g, h + i);
    Flat4(a, b, c, d + (e + f + g + (h + i)));
    var head := a + b + c;
    assert head + (d + (e + f + g + (h + i))) == head + d + (e + f + g + (h + i));
    Flat4(head + d, e, f, g);
    var middle := e + f + g;
    assert head + d + (middle + (h + i)) == (head + d + middle) + h + i;
  }

  method GenDelete(table: string, keys: seq<string>) returns (text: string)
    ensures text == DeleteText(table, keys)
  {
    hide Join, Decimal, Placeholder;
    ghost var parts := Texts(Condition, Numbered(keys));
    JoinNone(" AND ");
    text := "DELETE FROM ";
    text := text + table;
    text := text + " WHERE ";
    ghost var start := text;
    for i := 0 to |keys|
      invariant text == start + (Join(parts[..i], " AND ") + Pending(|keys|, i, " AND "))
    {
      JoinStep(parts, " AND ", i);
      text := text + keys[i] + " = " + Placeholder(i + 1);
      if i < |keys| - 1 {
        text := text + " AND ";
      }
    }
    assert parts[..|keys|] == parts;
    assert start == "DELETE FROM " + table + " WHERE ";
  }
}
