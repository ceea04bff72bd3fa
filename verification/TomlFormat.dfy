/**
 The text that the TOML writer produces (tools/src/toml.c, `toml_dumps`), by what each further piece of a
 tree adds to it.
 */
module TomlFormat {
  import opened Wrappers
  import opened Strings
  import opened TomlTree
  import opened TomlWriter
  import G = TomlGrammar

  // ------------------------------------------------------------------
  // Keys and values
  // ------------------------------------------------------------------

  /** Characters with an escape of their own, and the letters of these escapes. */
  const SPECIAL: string := ['"', '\\', '\n', '\t', '\r', 8 as char, 12 as char]
  const LETTERS: string := "\"\\ntrbf"

  /** How a character is written inside quotation marks. */
  predicate IsEscaped(c: char, e: string) {
    && (forall i :: 0 <= i < 7 && SPECIAL[i] == c ==> e == ['\\', LETTERS[i]])
    && (c !in SPECIAL ==>
          e == if c as int < 0x20
               then ['\\', 'u', '0', '0', G.UPPER_HEX[c as int / 16], G.UPPER_HEX[c as int % 16]]
               else [c])
  }

  lemma EscapedIs(c: char)
    ensures IsEscaped(c, Escaped(c))
  {
  }

  lemma {:induction false} EscapedAppend(s: string, c: char)
    ensures EscapedAll(s + [c]) == EscapedAll(s) + Escaped(c)
  {
    hide Escaped;
    if s == "" {
      assert (s + [c])[1..] == "" && EscapedAll("") == "";
    } else {
      assert (s + [c])[1..] == s[1..] + [c];
      EscapedAppend(s[1..], c);
      Assoc(Escaped(s[0]), EscapedAll(s[1..]), Escaped(c));
    }
  }

  /** A string is written between quotation marks, character by character. */
  lemma StringWritten(libc: Libc, s: string, c: char)
    ensures ValueText(libc, Str("")) == "\"\""
    ensures exists inner, e :: IsEscaped(c, e) && ValueText(libc, Str(s)) == "\"" + inner + "\"" &&
                               ValueText(libc, Str(s + [c])) == "\"" + (inner + e) + "\""
  {
    hide IsEscaped;
    EscapedIs(c);
    EscapedAppend(s, c);
    assert EscapedAll("") == "" && "\"" + "" + "\"" == "\"\"";
    var inner, e := EscapedAll(s), Escaped(c);
    assert IsEscaped(c, e) && ValueText(libc, Str(s)) == "\"" + inner + "\"" &&
           ValueText(libc, Str(s + [c])) == "\"" + (inner + e) + "\"";
  }

  /** A key of letters, digits, underscores and hyphens is written as it is, any other one as a string. */
  lemma KeyWritten(libc: Libc, key: string)
    ensures KeyText(key) == if key != "" && forall i :: 0 <= i < |key| ==> G.BareChar(key[i]) then key
                            else ValueText(libc, Str(key))
  {
  }

  lemma {:induction false} DigitsLead(n: nat)
    ensures AllDigits(Digits(n)) && Digits(n) != "" && (Digits(n)[0] == '0' ==> n == 0 && |Digits(n)| == 1)
  {
    if n >= 10 {
      DigitsLead(n / 10);
    }
  }

  /** An integer is written in decimal, with a minus sign and without leading zeros. */
  lemma IntWritten(libc: Libc, i: int)
    ensures exists d :: AllDigits(d) && d != "" && (d[0] == '0' ==> |d| == 1) &&
                        G.Decimal(d) == (if i < 0 then -i else i) &&
                        ValueText(libc, Int(i)) == (if i < 0 then "-" else "") + d
  {
    var n := if i < 0 then -i else i;
    DigitsLead(n);
    DigitsRead(n);
    G.DecimalIs(Digits(n));
    assert "" + Digits(n) == Digits(n);
  }

  /** A table in place of a scalar is written as an empty one. */
  lemma WordWritten(libc: Libc, ms: Members)
    ensures ValueText(libc, Bool(true)) == "true" && ValueText(libc, Bool(false)) == "false"
    ensures ValueText(libc, Table(ms)) == "{}"
  {
  }

  /** A float keeps a fractional part or an exponent. */
  lemma FloatWritten(libc: Libc, d: real)
    ensures var t := libc.fmt(d);
            ValueText(libc, Float(d)) == if exists c :: c in t && c in {'.', 'e', 'E', 'n'} then t else t + ".0"
  {
    var t := libc.fmt(d);
    assert (exists c :: c in t && c in {'.', 'e', 'E', 'n'}) <==> ('.' in t || 'e' in t || 'E' in t || 'n' in t);
  }

  lemma {:induction false} MoreItemsAppend(libc: Libc, items: seq<Value>, v: Value)
    ensures MoreItems(libc, items + [v]) == MoreItems(libc, items) + (", " + ValueText(libc, v))
  {
    hide ValueText;
    if items == [] {
      assert (items + [v])[1..] == [] && ", " + ValueText(libc, v) + "" == ", " + ValueText(libc, v);
    } else {
      assert (items + [v])[1..] == items[1..] + [v];
      MoreItemsAppend(libc, items[1..], v);
      Assoc(", " + ValueText(libc, items[0]), MoreItems(libc, items[1..]), ", " + ValueText(libc, v));
    }
  }

  /** An array is written with a comma and a space between its items. */
  lemma ArrayWritten(libc: Libc, items: seq<Value>, v: Value)
    ensures ValueText(libc, Arr([])) == "[]"
    ensures ValueText(libc, Arr([v])) == "[" + ValueText(libc, v) + "]"
    ensures items != [] ==>
              exists inner :: ValueText(libc, Arr(items)) == "[" + inner + "]" &&
                              ValueText(libc, Arr(items + [v])) == "[" + (inner + ", " + ValueText(libc, v)) + "]"
  {
    assert ItemsText(libc, []) == "" && "[" + "" + "]" == "[]";
    assert ItemsText(libc, [v]) == ValueText(libc, v) by {
      assert [v][1..] == [] && MoreItems(libc, []) == "" && ValueText(libc, v) + "" == ValueText(libc, v);
    }
    if items != [] {
      var inner := ItemsText(libc, items);
      assert ItemsText(libc, items + [v]) == inner + ", " + ValueText(libc, v) by {
        assert (items + [v])[1..] == items[1..] + [v];
        MoreItemsAppend(libc, items[1..], v);
        Assoc(ValueText(libc, items[0]), MoreItems(libc, items[1..]), ", " + ValueText(libc, v));
        Assoc(inner, ", ", ValueText(libc, v));
      }
    }
  }

  // ------------------------------------------------------------------
  // Tables
  // ------------------------------------------------------------------

  predicate NoTables(ms: Members) { forall i :: 0 <= i < |ms| ==> !ms[i].val.Table? }

  lemma {:induction false} ScalarsSum(libc: Libc, a: Members, b: Members)
    ensures ScalarLines(libc, a + b) == ScalarLines(libc, a) + ScalarLines(libc, b)
    ensures ScalarsOf(a + b) == ScalarsOf(a) + ScalarsOf(b)
  {
    hide ScalarLine;
    if a == [] {
      assert a + b == b;
    } else {
      assert (a + b)[1..] == a[1..] + b;
      ScalarsSum(libc, a[1..], b);
      Assoc(if a[0].val.Table? then "" else ScalarLine(libc, a[0]), ScalarLines(libc, a[1..]), ScalarLines(libc, b));
    }
  }

  lemma {:induction false} NoSubTables(libc: Libc, ms: Members, path: Path, nl: bool)
    requires NoTables(ms)
    ensures SubTables(libc, ms, path, nl) == Some("")
  {
    if ms != [] {
      NoSubTables(libc, ms[1..], path, nl);
    }
  }

  /** The text of two texts, if there are both. */
  function Both(a: Option<string>, b: Option<string>): Option<string> {
    if a.Some? && b.Some? then Some(a.value + b.value) else None
  }

  lemma {:induction false} SubTablesSum(libc: Libc, a: Members, b: Members, path: Path, nl: bool)
    ensures SubTables(libc, a + b, path, nl) ==
            Both(SubTables(libc, a, path, nl), SubTables(libc, b, path, nl || !NoTables(a)))
    decreases a, 0
  {
    hide TableText, Opening;
    if a == [] {
      assert a + b == b;
      var o := SubTables(libc, b, path, nl);
      assert o.Some? ==> "" + o.value == o.value;
    } else {
      assert (a + b)[1..] == a[1..] + b;
      NoTablesFirst(a);
      match a[0].val
      case Table(sub) =>
        SubTablesSum(libc, a[1..], b, path, true);
        var body, rest := TableText(libc, sub, path + [a[0].key]), SubTables(libc, a[1..], path, true);
        var more := SubTables(libc, b, path, true);
        if |path| < 63 && body.Some? && rest.Some? && more.Some? {
          Assoc(Opening(path + [a[0].key], nl) + body.value, rest.value, more.value);
        }
      case _ => SubTablesSum(libc, a[1..], b, path, nl);
    }
  }

  lemma NoTablesFirst(a: Members)
    requires a != []
    ensures NoTables(a) <==> !a[0].val.Table? && NoTables(a[1..])
  {
    assert forall i :: 0 < i < |a| ==> a[i] == a[1..][i - 1];
  }

  /** An empty table is no text. */
  lemma EmptyWritten(libc: Libc, path: Path)
    ensures TableText(libc, [], path) == Some("")
  {
    assert ScalarLines(libc, []) + "" == "";
  }

  /** A further value adds a line. */
  lemma LineWritten(libc: Libc, ms: Members, m: Member, path: Path)
    requires NoTables(ms) && !m.val.Table?
    ensures TableText(libc, ms, path).Some?
    ensures TableText(libc, ms + [m], path) ==
            Some(TableText(libc, ms, path).value + (KeyText(m.key) + " = " + ValueText(libc, m.val) + "\n"))
  {
    hide KeyText, ValueText;
    NoSubTables(libc, ms, path, ScalarsOf(ms) != []);
    NoSubTables(libc, ms + [m], path, ScalarsOf(ms + [m]) != []);
    ScalarsSum(libc, ms, [m]);
    OneLine(libc, m);
    assert ScalarLines(libc, ms) + "" == ScalarLines(libc, ms);
    assert ScalarLines(libc, ms + [m]) + "" == ScalarLines(libc, ms + [m]);
  }

  lemma OneLine(libc: Libc, m: Member)
    requires !m.val.Table?
    ensures ScalarLines(libc, [m]) == KeyText(m.key) + " = " + ValueText(libc, m.val) + "\n"
  {
    hide KeyText, ValueText;
    assert [m][1..] == [];
    assert ScalarLine(libc, m) + "" == ScalarLine(libc, m);
  }

  /** A further sub-table adds its header, after a blank line unless it is the first thing in its table, and
      then its own text.  Headers of more than 63 segments are refused. */
  lemma TableWritten(libc: Libc, ms: Members, key: string, sub: Members, path: Path)
    ensures var all, before, body := TableText(libc, ms + [Member(key, Table(sub))], path), TableText(libc, ms, path),
                                     TableText(libc, sub, path + [key]);
            all == if |path| < 63 && before.Some? && body.Some? then
                     Some(before.value +
                          ((if ms == [] then "" else "\n") + "[" + PathText(path + [key]) + "]\n" + body.value))
                   else None
  {
    hide PathText, ScalarLines;
    var m := Member(key, Table(sub));
    var nl := ScalarsOf(ms) != [];
    SubTablesSum(libc, ms, [m], path, nl);
    ScalarsSum(libc, ms, [m]);
    assert ScalarsOf([m]) == [] && ScalarsOf(ms) + [] == ScalarsOf(ms);
    ScalarsAndTables(ms);
    LastTable(libc, m, path, nl || !NoTables(ms));
    NoLine(libc, m);
    hide TableText, SubTables;
    var a, b := SubTables(libc, ms, path, nl), SubTables(libc, [m], path, nl || !NoTables(ms));
    TextIs(libc, ms, path);
    TextIs(libc, ms + [m], path);
    assert ScalarLines(libc, ms) + "" == ScalarLines(libc, ms);
    if a.Some? && b.Some? {
      Assoc(ScalarLines(libc, ms), a.value, b.value);
    }
  }

  lemma TextIs(libc: Libc, ms: Members, path: Path)
    ensures TableText(libc, ms, path) ==
            Both(Some(ScalarLines(libc, ms)), SubTables(libc, ms, path, ScalarsOf(ms) != []))
  {
  }

  lemma NoLine(libc: Libc, m: Member)
    requires m.val.Table?
    ensures ScalarLines(libc, [m]) == ""
  {
  }

  lemma {:induction false} ScalarsAndTables(ms: Members)
    ensures ms == [] <==> ScalarsOf(ms) == [] && NoTables(ms)
  {
    if ms != [] {
      NoTablesFirst(ms);
    }
  }

  lemma LastTable(libc: Libc, m: Member, path: Path, nl: bool)
    requires m.val.Table?
    ensures var body := TableText(libc, m.val.members, path + [m.key]);
            SubTables(libc, [m], path, nl) ==
            if |path| < 63 && body.Some? then
              Some((if nl then "\n" else "") + "[" + PathText(path + [m.key]) + "]\n" + body.value)
            else None
  {
    hide PathText, TableText;
    assert [m][1..] == [];
    var body := TableText(libc, m.val.members, path + [m.key]);
    assert SubTables(libc, [], path, true) == Some("");
    if |path| < 63 && body.Some? {
      var open := Opening(path + [m.key], nl);
      assert open == (if nl then "\n" else "") + "[" + PathText(path + [m.key]) + "]\n";
      assert open + body.value + "" == open + body.value;
    }
  }

  /** Values come before sub-tables, whatever the order in the tree. */
  lemma ValuesFirst(libc: Libc, a: Members, t: Member, v: Member, b: Members, path: Path)
    requires t.val.Table? && !v.val.Table?
    ensures TableText(libc, a + [t, v] + b, path) == TableText(libc, a + [v, t] + b, path)
  {
    hide TableText, ScalarLines, SubTables;
    var p, q := [t, v], [v, t];
    assert p == [t] + [v] && q == [v] + [t];
    ScalarsSum(libc, a + p, b);
    ScalarsSum(libc, a + q, b);
    ScalarsSum(libc, a, p);
    ScalarsSum(libc, a, q);
    PairLines(libc, t, v);
    var nl := ScalarsOf(a + p + b) != [];
    PairTables(libc, t, v, path, nl || !NoTables(a));
    SubTablesSum(libc, a + p, b, path, nl);
    SubTablesSum(libc, a + q, b, path, nl);
    SubTablesSum(libc, a, p, path, nl);
    SubTablesSum(libc, a, q, path, nl);
    assert !NoTables(a + p) by {
      assert (a + p)[|a|] == t;
    }
    assert !NoTables(a + q) by {
      assert (a + q)[|a| + 1] == t;
    }
    TextIs(libc, a + p + b, path);
    TextIs(libc, a + q + b, path);
  }

  lemma PairLines(libc: Libc, t: Member, v: Member)
    requires t.val.Table? && !v.val.Table?
    ensures ScalarLines(libc, [t, v]) == ScalarLines(libc, [v, t]) && ScalarsOf([t, v]) == ScalarsOf([v, t])
  {
    hide ScalarLine;
    assert [t, v] == [t] + [v] && [v, t] == [v] + [t];
    ScalarsSum(libc, [t], [v]);
    ScalarsSum(libc, [v], [t]);
    NoLine(libc, t);
    assert ScalarsOf([t]) == [];
    assert ScalarsOf([t, v]) == ScalarsOf([v]) == ScalarsOf([v, t]);
    assert "" + ScalarLines(libc, [v]) == ScalarLines(libc, [v]) + "";
  }

  lemma PairTables(libc: Libc, t: Member, v: Member, path: Path, nl: bool)
    requires t.val.Table? && !v.val.Table?
    ensures SubTables(libc, [t, v], path, nl) == SubTables(libc, [v, t], path, nl)
  {
    hide TableText, Opening;
    assert [t, v][1..] == [v] && [v, t][1..] == [t] && [t][1..] == [] && [v][1..] == [];
  }

  /** A header names its table by the keys from the root, with dots between them. */
  lemma {:induction false} PathWritten(path: Path, key: string)
    ensures PathText(path + [key]) == if path == [] then KeyText(key) else PathText(path) + ("." + KeyText(key))
  {
    hide KeyText;
    if path == [] {
      assert (path + [key])[1..] == [] && KeyText(key) + "" == KeyText(key);
    } else {
      assert (path + [key])[1..] == path[1..] + [key];
      MorePathAppend(path[1..], key);
      Assoc(KeyText(path[0]), MorePath(path[1..]), "." + KeyText(key));
    }
  }

  lemma {:induction false} MorePathAppend(path: Path, key: string)
    ensures MorePath(path + [key]) == MorePath(path) + ("." + KeyText(key))
  {
    hide KeyText;
    if path == [] {
      assert (path + [key])[1..] == [] && "." + KeyText(key) + "" == "." + KeyText(key);
    } else {
      assert (path + [key])[1..] == path[1..] + [key];
      MorePathAppend(path[1..], key);
      Assoc("." + KeyText(path[0]), MorePath(path[1..]), "." + KeyText(key));
    }
  }

  /** toml_dumps writes the root table, and refuses anything else. */
  lemma RootWritten(libc: Libc, v: Value)
    ensures Dumps(libc, v) == if v.Table? then TableText(libc, v.members, []) else None
  {
  }
}
