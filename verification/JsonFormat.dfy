/**
 The text that the JSON writer produces (tools/src/json.c, `json_dumps`), by what each further piece of a
 value adds to it.
 */
module JsonFormat {
  import opened Wrappers
  import opened Strings
  import opened Reals
  import opened JsonWriter

  // ------------------------------------------------------------------
  // Strings and numbers
  // ------------------------------------------------------------------

  /** Characters with an escape of their own, and the letters of these escapes. */
  const SPECIAL: string := ['"', '\\', 8 as char, 12 as char, '\n', '\r', '\t']
  const LETTERS: string := "\"\\bfnrt"
  const HEX: string := "0123456789abcdef"

  /** How a character is written inside quotation marks. */
  predicate IsEscaped(c: char, e: string) {
    && (forall i :: 0 <= i < 7 && SPECIAL[i] == c ==> e == ['\\', LETTERS[i]])
    && (c !in SPECIAL ==>
          e == if c as int < 0x20 then ['\\', 'u', '0', '0', HEX[c as int / 16], HEX[c as int % 16]] else [c])
  }

  lemma EscapedIs(c: char)
    ensures IsEscaped(c, EscapedChar(c))
  {
  }

  lemma {:induction false} EscapedAppend(s: string, c: char)
    ensures EscapedChars(s + [c]) == EscapedChars(s) + EscapedChar(c)
  {
    hide EscapedChar;
    if s == "" {
      assert (s + [c])[1..] == "" && EscapedChars("") == "";
    } else {
      assert (s + [c])[1..] == s[1..] + [c];
      EscapedAppend(s[1..], c);
      Assoc(EscapedChar(s[0]), EscapedChars(s[1..]), EscapedChar(c));
    }
  }

  /** A string is written between quotation marks, character by character. */
  lemma StringWritten(s: string, c: char)
    ensures StringText("") == "\"\""
    ensures exists inner, e :: IsEscaped(c, e) && StringText(s) == "\"" + inner + "\"" &&
                               StringText(s + [c]) == "\"" + (inner + e) + "\""
  {
    hide IsEscaped;
    EscapedIs(c);
    EscapedAppend(s, c);
    assert EscapedChars("") == "" && "\"" + "" + "\"" == "\"\"";
    var inner, e := EscapedChars(s), EscapedChar(c);
    assert IsEscaped(c, e) && StringText(s) == "\"" + inner + "\"" && StringText(s + [c]) == "\"" + (inner + e) + "\"";
  }

  lemma {:induction false} StrippedEnds(t: string)
    requires t != ""
    ensures var s := Stripped(t);
            && s <= t && (|s| == 1 || s[|s| - 1] != '0')
            && forall i :: |s| <= i < |t| ==> t[i] == '0'
    decreases |t|
  {
    if |t| > 1 && t[|t| - 1] == '0' {
      StrippedEnds(t[..|t| - 1]);
    }
  }

  /** Tiny and huge numbers are written by "%g", all others by "%.6f" without the zeros at the end, but for one
      after the point. */
  lemma NumberWritten(libc: Libc, d: real)
    ensures var t := NumberText(libc, d);
            if d != 0.0 && (-0.0000005 < d < 0.0000005 || !(-10000000000000000.0 < d < 10000000000000000.0)) then
              t == libc.short(d)
            else if '.' !in libc.fixed(d) then t == libc.fixed(d)
            else
              var f := libc.fixed(d);
              exists n: nat :: 0 < n <= |f| && (forall i :: n <= i < |f| ==> f[i] == '0') &&
                               (n == 1 || f[n - 1] != '0') && t == if f[n - 1] == '.' then f[..n] + "0" else f[..n]
  {
    var f := libc.fixed(d);
    if '.' in f {
      StrippedEnds(f);
      var s := Stripped(f);
      assert f[..|s|] == s && 0 < |s| <= |f|;
    }
  }

  // ------------------------------------------------------------------
  // Containers
  // ------------------------------------------------------------------

  lemma WordsWritten(libc: Libc, b: bool, level: nat)
    ensures ValueText(libc, Null, level) == "null"
    ensures ValueText(libc, Boolean(b), level) == if b then "true" else "false"
    ensures ValueText(libc, List([]), level) == "[]" && ValueText(libc, Object([]), level) == "{}"
  {
  }

  /** A new line with four spaces for each level. */
  predicate IsNewLine(s: string, level: nat) {
    |s| == 4 * level + 1 && s[0] == '\n' && forall i :: 0 < i < |s| ==> s[i] == ' '
  }

  lemma IndentIs(level: nat)
    ensures IsNewLine(Indent(level), level)
  {
  }

  lemma {:induction false} ItemsAppend(libc: Libc, items: seq<Json>, v: Json, level: nat)
    ensures ItemsText(libc, items + [v], level) ==
            ItemsText(libc, items, level) +
            ((if items == [] then "" else ",") + Indent(level) + ValueText(libc, v, level))
    decreases |items|
  {
    hide ValueText, Indent;
    var last := (if items == [] then "" else ",") + Indent(level) + ValueText(libc, v, level);
    if items == [] {
      assert (items + [v])[1..] == [] && ItemsText(libc, [], level) == "";
      assert ItemsText(libc, [v], level) == Indent(level) + ValueText(libc, v, level) by {
        assert [v][1..] == [];
        var t := Indent(level) + ValueText(libc, v, level);
        assert t + "" + "" == t;
      }
      assert "" + Indent(level) == Indent(level);
    } else {
      var more := items[1..];
      assert (items + [v])[1..] == more + [v];
      ItemsAppend(libc, more, v, level);
      var head := Indent(level) + ValueText(libc, items[0], level);
      ItemsShift(libc, items, level, head);
      ItemsShift(libc, items + [v], level, head);
      if more == [] {
        assert ItemsText(libc, more, level) == "";
        assert head + "," + ("" + ("" + Indent(level) + ValueText(libc, v, level))) == head + "" + "" + last;
      } else {
        Assoc(head + ",", ItemsText(libc, more, level), last);
      }
    }
  }

  lemma ItemsShift(libc: Libc, items: seq<Json>, level: nat, head: string)
    requires items != [] && head == Indent(level) + ValueText(libc, items[0], level)
    ensures ItemsText(libc, items, level) ==
            head + (if |items| > 1 then "," else "") + ItemsText(libc, items[1..], level)
  {
    hide ValueText, Indent;
  }

  /** A list is written with each item on a line of its own, one level deeper, and commas between them. */
  lemma ListWritten(libc: Libc, items: seq<Json>, v: Json, level: nat)
    returns (inner: string, line: string, close: string)
    ensures IsNewLine(line, level + 1) && IsNewLine(close, level)
    ensures if items == [] then inner == "" else ValueText(libc, List(items), level) == "[" + inner + close + "]"
    ensures ValueText(libc, List(items + [v]), level) ==
            "[" + (inner + ((if items == [] then "" else ",") + line + ValueText(libc, v, level + 1))) + close + "]"
  {
    hide Indent;
    ItemsAppend(libc, items, v, level + 1);
    IndentIs(level);
    IndentIs(level + 1);
    inner, line, close := ItemsText(libc, items, level + 1), Indent(level + 1), Indent(level);
  }

  lemma {:induction false} MembersAppend(libc: Libc, ms: seq<Pair>, m: Pair, level: nat)
    ensures MembersText(libc, ms + [m], level) ==
            MembersText(libc, ms, level) + ((if ms == [] then "" else ",") + Indent(level) + PairText(libc, m, level))
    decreases |ms|
  {
    hide PairText, Indent;
    var last := (if ms == [] then "" else ",") + Indent(level) + PairText(libc, m, level);
    if ms == [] {
      assert (ms + [m])[1..] == [] && MembersText(libc, [], level) == "";
      assert MembersText(libc, [m], level) == Indent(level) + PairText(libc, m, level) by {
        assert [m][1..] == [];
        var t := Indent(level) + PairText(libc, m, level);
        assert t + "" + "" == t;
      }
      assert "" + Indent(level) == Indent(level);
    } else {
      var more := ms[1..];
      assert (ms + [m])[1..] == more + [m];
      MembersAppend(libc, more, m, level);
      var head := Indent(level) + PairText(libc, ms[0], level);
      MembersShift(libc, ms, level, head);
      MembersShift(libc, ms + [m], level, head);
      if more == [] {
        assert MembersText(libc, more, level) == "";
        assert head + "," + ("" + ("" + Indent(level) + PairText(libc, m, level))) == head + "" + "" + last;
      } else {
        Assoc(head + ",", MembersText(libc, more, level), last);
      }
    }
  }

  lemma MembersShift(libc: Libc, ms: seq<Pair>, level: nat, head: string)
    requires ms != [] && head == Indent(level) + PairText(libc, ms[0], level)
    ensures MembersText(libc, ms, level) == head + (if |ms| > 1 then "," else "") + MembersText(libc, ms[1..], level)
  {
    hide PairText, Indent;
  }

  /** An object likewise, each member with its key as a string, a colon and a space. */
  lemma ObjectWritten(libc: Libc, ms: seq<Pair>, m: Pair, level: nat)
    returns (inner: string, line: string, close: string)
    ensures IsNewLine(line, level + 1) && IsNewLine(close, level)
    ensures if ms == [] then inner == "" else ValueText(libc, Object(ms), level) == "{" + inner + close + "}"
    ensures ValueText(libc, Object(ms + [m]), level) ==
            "{" + (inner + ((if ms == [] then "" else ",") + line +
                            (StringText(m.key) + ": " + ValueText(libc, m.val, level + 1)))) + close + "}"
  {
    hide Indent;
    MembersAppend(libc, ms, m, level + 1);
    IndentIs(level);
    IndentIs(level + 1);
    inner, line, close := MembersText(libc, ms, level + 1), Indent(level + 1), Indent(level);
  }
}
