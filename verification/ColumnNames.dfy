/**
 The column-name conversion of shared/lib/mysql.ts, on ASCII names.

 A JavaScript object is a map here, and `Object.entries` a list of its entries
 in some order.
 */
module ColumnNames {
  import opened Text

  /** `str.replace(/[A-Z]/g, …)`. */
  function CamelToSnake(s: string): string {
    if s == "" then ""
    else (if IsUpper(s[0]) then ['_', ToLower(s[0])] else [s[0]]) + CamelToSnake(s[1..])
  }

  /** `str.replace(/_([a-z])/g, …)`: the next match starts after the last one. */
  function SnakeToCamel(s: string): string {
    if s == "" then ""
    else if s[0] == '_' && |s| > 1 && IsLower(s[1]) then [ToUpper(s[1])] + SnakeToCamel(s[2..])
    else [s[0]] + SnakeToCamel(s[1..])
  }

  /** Some underscore is followed by a lower-case letter. */
  predicate HasSnakePair(s: string) {
    exists i :: 0 <= i < |s| - 1 && s[i] == '_' && IsLower(s[i + 1])
  }

  predicate HasUpper(s: string) {
    exists i :: 0 <= i < |s| && IsUpper(s[i])
  }

  /** A name survives the way to a column and back exactly when it contains no
      underscore followed by a lower-case letter. */
  lemma {:induction false} CamelRoundTripIff(s: string)
    ensures SnakeToCamel(CamelToSnake(s)) == s <==> !HasSnakePair(s)
  {
    if s == "" {
    } else {
      CamelRoundTripIff(s[1..]);
      PairInTail(s);
      hide HasSnakePair;
      assert s == [s[0]] + s[1..];
      if IsUpper(s[0]) {
        UpperThere(s);
      } else {
        OtherThere(s);
      }
    }
  }

  lemma UpperThere(s: string)
    requires s != "" && IsUpper(s[0])
    ensures SnakeToCamel(CamelToSnake(s)) == [s[0]] + SnakeToCamel(CamelToSnake(s[1..]))
  {
    assert CamelToSnake(s)[2..] == CamelToSnake(s[1..]);
  }

  /** An underscore before a lower-case letter is lost on the way back. */
  lemma OtherThere(s: string)
    requires s != "" && !IsUpper(s[0])
    ensures if s[0] == '_' && |s| > 1 && IsLower(s[1]) then SnakeToCamel(CamelToSnake(s)) != s
            else SnakeToCamel(CamelToSnake(s)) == [s[0]] + SnakeToCamel(CamelToSnake(s[1..]))
  {
    assert CamelToSnake(s)[1..] == CamelToSnake(s[1..]);
    FirstOfSnake(s[1..]);
    if s[0] == '_' && |s| > 1 && IsLower(s[1]) {
      assert SnakeToCamel(CamelToSnake(s))[0] == ToUpper(s[1]);
    }
  }

  lemma PairInTail(s: string)
    requires s != ""
    ensures HasSnakePair(s) <==> HasSnakePair(s[1..]) || (|s| > 1 && s[0] == '_' && IsLower(s[1]))
  {
    if HasSnakePair(s[1..]) {
      var i :| 0 <= i < |s[1..]| - 1 && s[1..][i] == '_' && IsLower(s[1..][i + 1]);
      assert s[i + 1] == '_' && IsLower(s[i + 1 + 1]);
    }
    if HasSnakePair(s) {
      var i :| 0 <= i < |s| - 1 && s[i] == '_' && IsLower(s[i + 1]);
      if i > 0 {
        assert s[1..][i - 1] == '_' && IsLower(s[1..][i - 1 + 1]);
      }
    }
  }

  lemma FirstOfSnake(s: string)
    ensures CamelToSnake(s) == "" <==> s == ""
    ensures s != "" ==> CamelToSnake(s)[0] == if IsUpper(s[0]) then '_' else s[0]
  {
  }

  lemma {:induction false} SnakeHasNoUpper(s: string)
    ensures !HasUpper(CamelToSnake(s))
  {
    if s == "" {
    } else {
      SnakeHasNoUpper(s[1..]);
      var snake, rest := CamelToSnake(s), CamelToSnake(s[1..]);
      forall i | 0 <= i < |snake| ensures !IsUpper(snake[i]) {
        var k := if IsUpper(s[0]) then 2 else 1;
        if i >= k {
          assert snake[i] == rest[i - k];
        }
      }
    }
  }

  /** A column name survives the way to a property and back exactly when it has
      no upper-case letter. */
  lemma {:induction false} SnakeRoundTripIff(t: string)
    ensures CamelToSnake(SnakeToCamel(t)) == t <==> !HasUpper(t)
  {
    if HasUpper(t) {
      SnakeHasNoUpper(SnakeToCamel(t));
    } else {
      SnakeRoundTrip(t);
    }
  }

  lemma {:induction false} SnakeRoundTrip(t: string)
    requires !HasUpper(t)
    ensures CamelToSnake(SnakeToCamel(t)) == t
  {
    if t == "" {
    } else {
      if t[0] == '_' && |t| > 1 && IsLower(t[1]) {
        assert !HasUpper(t[2..]) by {
          assert forall i :: 0 <= i < |t[2..]| ==> t[2..][i] == t[i + 2];
        }
        SnakeRoundTrip(t[2..]);
        assert SnakeToCamel(t)[1..] == SnakeToCamel(t[2..]);
        assert t == [t[0], t[1]] + t[2..];
      } else {
        assert !HasUpper(t[1..]) by {
          assert forall i :: 0 <= i < |t[1..]| ==> t[1..][i] == t[i + 1];
        }
        SnakeRoundTrip(t[1..]);
        assert SnakeToCamel(t)[1..] == SnakeToCamel(t[1..]);
        assert t == [t[0]] + t[1..];
      }
    }
  }

  /** Word by word: `wordRest` is `word_rest`. */
  lemma {:induction false} SnakeOfWords(word: string, c: char, rest: string)
    requires !HasUpper(word) && 'A' <= c <= 'Z'
    ensures CamelToSnake(word + [c] + rest) == word + "_" + Lower([c]) + CamelToSnake(rest)
  {
    var s := word + [c] + rest;
    if word == "" {
      assert s == [c] + rest && s[1..] == rest;
    } else {
      assert s[1..] == word[1..] + [c] + rest;
      assert !IsUpper(word[0]);
      assert forall i :: 0 <= i < |word[1..]| ==> word[1..][i] == word[i + 1];
      SnakeOfWords(word[1..], c, rest);
      assert word == [word[0]] + word[1..];
    }
  }

  // ---- rows ----------------------------------------------------------------

  /** The object a list of entries builds; a repeated key keeps its last value. */
  function Build<V>(entries: seq<(string, V)>): map<string, V> {
    if entries == [] then map[]
    else Build(entries[..|entries| - 1])[entries[|entries| - 1].0 := entries[|entries| - 1].1]
  }

  /** An object has the keys that were written, each with the value written last. */
  lemma {:induction false} BuildKeepsLast<V>(entries: seq<(string, V)>, key: string)
    ensures key in Build(entries) <==> exists i :: 0 <= i < |entries| && entries[i].0 == key
    ensures forall i :: 0 <= i < |entries| && entries[i].0 == key && (forall j :: i < j < |entries| ==> entries[j].0 != key)
                        ==> Build(entries)[key] == entries[i].1
  {
    if entries == [] {
    } else {
      var n := |entries| - 1;
      BuildKeepsLast(entries[..n], key);
      forall i | 0 <= i < n ensures entries[..n][i] == entries[i] {
      }
    }
  }

  /** `entries` is what `Object.entries` may return for the object. */
  ghost predicate Lists<V>(entries: seq<(string, V)>, obj: map<string, V>) {
    && (forall i, j :: 0 <= i < j < |entries| ==> entries[i].0 != entries[j].0)
    && (forall i :: 0 <= i < |entries| ==> entries[i].0 in obj && obj[entries[i].0] == entries[i].1)
    && (forall key :: key in obj ==> exists i :: 0 <= i < |entries| && entries[i].0 == key)
  }

  function CamelEntries<V>(entries: seq<(string, V)>): seq<(string, V)> {
    seq(|entries|, i requires 0 <= i < |entries| => (SnakeToCamel(entries[i].0), entries[i].1))
  }

  method MapRowToCamelCase<V>(entries: seq<(string, V)>) returns (result: map<string, V>)
    ensures result == Build(CamelEntries(entries))
  {
    result := map[];
    for i := 0 to |entries|
      invariant result == Build(CamelEntries(entries)[..i])
    {
      assert CamelEntries(entries)[..i + 1][..i] == CamelEntries(entries)[..i];
      result := result[SnakeToCamel(entries[i].0) := entries[i].1];
    }
    assert CamelEntries(entries)[..|entries|] == CamelEntries(entries);
  }

  /** The entries that reach the database: those whose column is allowed. */
  function SnakeEntries<V>(entries: seq<(string, V)>, allowed: seq<string>): seq<(string, V)> {
    if entries == [] then []
    else
      var n := |entries| - 1;
      var column := CamelToSnake(entries[n].0);
      SnakeEntries(entries[..n], allowed) + if column in allowed then [(column, entries[n].1)] else []
  }

  method MapDataToSnakeCase<V>(entries: seq<(string, V)>, allowed: seq<string>) returns (result: map<string, V>)
    ensures result == Build(SnakeEntries(entries, allowed))
  {
    result := map[];
    for i := 0 to |entries|
      invariant result == Build(SnakeEntries(entries[..i], allowed))
    {
      assert entries[..i + 1][..i] == entries[..i];
      var column := CamelToSnake(entries[i].0);
      var before := SnakeEntries(entries[..i], allowed);
      if column in allowed {
        assert (before + [(column, entries[i].1)])[..|before|] == before;
        result := result[column := entries[i].1];
      } else {
        assert before + [] == before;
      }
    }
    assert entries[..|entries|] == entries;
  }

  ghost predicate LowerColumns<V>(row: map<string, V>) {
    forall column :: column in row ==> !HasUpper(column)
  }

  /** Lower-case columns stay apart as properties, so the object has exactly one
      property for each column. */
  lemma {:induction false} CamelRow<V>(entries: seq<(string, V)>, row: map<string, V>)
    requires Lists(entries, row) && LowerColumns(row)
    ensures forall key :: key in Build(CamelEntries(entries)) <==>
              CamelToSnake(key) in row && SnakeToCamel(CamelToSnake(key)) == key
    ensures forall column :: column in row ==>
              SnakeToCamel(column) in Build(CamelEntries(entries))
              && Build(CamelEntries(entries))[SnakeToCamel(column)] == row[column]
  {
    hide SnakeToCamel, CamelToSnake, HasUpper, Build;
    var camel := CamelEntries(entries);
    forall i | 0 <= i < |entries| ensures CamelToSnake(camel[i].0) == entries[i].0 {
      SnakeRoundTripIff(entries[i].0);
    }
    BuildOfDistinct(camel);
    forall key ensures key in Build(camel) <==> CamelToSnake(key) in row && SnakeToCamel(CamelToSnake(key)) == key {
      if CamelToSnake(key) in row && SnakeToCamel(CamelToSnake(key)) == key {
        var i :| 0 <= i < |entries| && entries[i].0 == CamelToSnake(key);
        assert camel[i].0 == key;
      }
    }
    forall column | column in row
      ensures SnakeToCamel(column) in Build(camel) && Build(camel)[SnakeToCamel(column)] == row[column]
    {
      var i :| 0 <= i < |entries| && entries[i].0 == column;
      assert camel[i].0 == SnakeToCamel(column);
    }
  }

  lemma {:induction false} BuildOfDistinct<V>(entries: seq<(string, V)>)
    requires forall i, j :: 0 <= i < j < |entries| ==> entries[i].0 != entries[j].0
    ensures forall i :: 0 <= i < |entries| ==> entries[i].0 in Build(entries) && Build(entries)[entries[i].0] == entries[i].1
    ensures forall key :: key in Build(entries) ==> exists i :: 0 <= i < |entries| && entries[i].0 == key
  {
    if entries == [] {
    } else {
      var n := |entries| - 1;
      BuildOfDistinct(entries[..n]);
      forall key | key in Build(entries) ensures exists i :: 0 <= i < |entries| && entries[i].0 == key {
        if key != entries[n].0 {
          var i :| 0 <= i < n && entries[..n][i].0 == key;
          assert entries[i].0 == key;
        }
      }
      forall i | 0 <= i < n ensures entries[i].0 in Build(entries) && Build(entries)[entries[i].0] == entries[i].1 {
        assert entries[..n][i] == entries[i];
      }
    }
  }

  /** Reading a row and writing it back, whatever order the object yields its
      properties in, gives the row cut down to the allowed columns. */
  lemma WriteBack<V>(row: map<string, V>, entries: seq<(string, V)>, properties: seq<(string, V)>, allowed: seq<string>)
    requires Lists(entries, row) && LowerColumns(row)
    requires Lists(properties, Build(CamelEntries(entries)))
    ensures Build(SnakeEntries(properties, allowed)) == map column | column in row && column in allowed :: row[column]
  {
    hide SnakeToCamel, CamelToSnake, HasUpper, SnakeEntries, CamelEntries;
    CamelRow(entries, row);
    forall i | 0 <= i < |properties|
      ensures CamelToSnake(properties[i].0) in row && row[CamelToSnake(properties[i].0)] == properties[i].1
    {
      assert properties[i].0 in Build(CamelEntries(entries));
      assert SnakeToCamel(CamelToSnake(properties[i].0)) == properties[i].0;
    }
    SnakeOfProperties(row, properties, allowed);
    var written := Build(SnakeEntries(properties, allowed));
    forall column | column in row && column in allowed ensures column in written && written[column] == row[column] {
      SnakeRoundTripIff(column);
      var i :| 0 <= i < |properties| && properties[i].0 == SnakeToCamel(column);
    }
  }

  lemma BuildOfSnake<V>(properties: seq<(string, V)>, allowed: seq<string>)
    requires properties != []
    ensures var n, column := |properties| - 1, CamelToSnake(properties[|properties| - 1].0);
            var before := Build(SnakeEntries(properties[..n], allowed));
            Build(SnakeEntries(properties, allowed))
            == if column in allowed then before[column := properties[n].1] else before
  {
    var n, column := |properties| - 1, CamelToSnake(properties[|properties| - 1].0);
    var before := SnakeEntries(properties[..n], allowed);
    assert (before + [(column, properties[n].1)])[..|before|] == before;
    assert before + [] == before;
  }

  /** The properties name columns of the row and have their values. */
  ghost predicate FromRow<V>(properties: seq<(string, V)>, row: map<string, V>) {
    forall i :: 0 <= i < |properties| ==>
      CamelToSnake(properties[i].0) in row && row[CamelToSnake(properties[i].0)] == properties[i].1
  }

  /** Such properties write exactly the allowed columns. */
  lemma {:induction false} SnakeOfProperties<V>(row: map<string, V>, properties: seq<(string, V)>, allowed: seq<string>)
    requires FromRow(properties, row)
    ensures forall column :: column in Build(SnakeEntries(properties, allowed)) ==>
              column in row && column in allowed && Build(SnakeEntries(properties, allowed))[column] == row[column]
    ensures forall i :: 0 <= i < |properties| && CamelToSnake(properties[i].0) in allowed ==>
              CamelToSnake(properties[i].0) in Build(SnakeEntries(properties, allowed))
  {
    hide Build, SnakeEntries, CamelToSnake;
    if properties == [] {
      EmptyWritesNothing<V>(allowed);
    } else {
      var n := |properties| - 1;
      var front := properties[..n];
      assert FromRow(front, row);
      SnakeOfProperties(row, front, allowed);
      BuildOfSnake(properties, allowed);
      assert CamelToSnake(properties[n].0) in row;
      forall i | 0 <= i < n && CamelToSnake(properties[i].0) in allowed
        ensures CamelToSnake(properties[i].0) in Build(SnakeEntries(properties, allowed))
      {
        assert front[i] == properties[i];
      }
    }
  }

  lemma EmptyWritesNothing<V>(allowed: seq<string>)
    ensures Build(SnakeEntries<V>([], allowed)) == map[]
  {
  }
}
