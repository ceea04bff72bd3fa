/**
 The JSON writer (tools/src/json.c, `json_dumps` and below).
 */
module JsonWriter {
  import opened Wrappers
  import opened Strings
  import opened Reals

  datatype Json =
    | Null
    | Boolean(b: bool)
    | Num(d: real)
    | Text(s: string)
    | List(items: seq<Json>)
    | Object(members: seq<Pair>)

  datatype Pair = Pair(key: string, val: Json)

  // ------------------------------------------------------------------
  // Numbers
  // ------------------------------------------------------------------

  /** A plain decimal: sign, digits, point, digits. */
  datatype Decimal = Decimal(negative: bool, whole: string, frac: string)

  predicate ValidDecimal(x: Decimal) { AllDigits(x.whole) && AllDigits(x.frac) && x.whole != "" }

  function DecimalText(x: Decimal): string { (if x.negative then "-" else "") + x.whole + "." + x.frac }

  /** 10 to the minus k. */
  function Tenth(k: nat): real { if k == 0 then 1.0 else Tenth(k - 1) / 10.0 }

  function DecimalValue(x: Decimal): real {
    var v := DigitsValue(x.whole) as real + DigitsValue(x.frac) as real * Tenth(|x.frac|);
    if x.negative then -v else v
  }

  /** Exactly k digits of n, with leading zeros. */
  function PaddedDigits(n: nat, k: nat): (r: string)
    ensures |r| == k && AllDigits(r)
  {
    if k == 0 then "" else PaddedDigits(n / 10, k - 1) + ['0' + (n % 10) as char]
  }

  const MILLION: nat := 1_000_000

  function Millionths(m: int): real { m as real / MILLION as real }

  /** What "%.6f" prints for m millionths. */
  function Fixed6(m: int): Decimal {
    var a: nat := if m < 0 then -m else m;
    Decimal(m < 0, Digits(a / MILLION), PaddedDigits(a % MILLION, 6))
  }

  /** The C library: `fixed` is "%.6f" and `short` is "%g". */
  datatype Libc = Libc(fixed: real -> string, short: real -> string, strtod: string -> Option<real>)

  /** printf prints multiples of a millionth exactly, and strtod reads plain decimals exactly. */
  ghost predicate Faithful(libc: Libc) {
    && (forall m: int :: libc.fixed(Millionths(m)) == DecimalText(Fixed6(m)))
    && (forall x: Decimal :: ValidDecimal(x) && x.frac != "" ==> libc.strtod(DecimalText(x)) == Some(DecimalValue(x)))
  }

  /** Trailing zeros removed, down to one character. */
  function Stripped(t: string): (r: string)
    ensures t != "" ==> r != ""
    decreases |t|
  {
    if |t| > 1 && t[|t| - 1] == '0' then Stripped(t[..|t| - 1]) else t
  }

  function Trimmed(t: string): string {
    if '.' !in t then t
    else
      var s := Stripped(t);
      if s[|s| - 1] == '.' then s + "0" else s
  }

  const TINIEST: real := 0.0000005
  const HUGE: real := 10_000_000_000_000_000.0

  /** fmt_number. */
  function NumberText(libc: Libc, d: real): string {
    if d != 0.0 && (Abs(d) < TINIEST || Abs(d) >= HUGE) then libc.short(d) else Trimmed(libc.fixed(d))
  }

  // ------------------------------------------------------------------
  // Strings and trees
  // ------------------------------------------------------------------

  function LowerHex(n: nat): char
    requires n < 16
  {
    if n < 10 then '0' + n as char else 'a' + (n - 10) as char
  }

  function EscapedChar(c: char): string {
    if c == '"' then ['\\', '"']
    else if c == '\\' then ['\\', '\\']
    else if c == 8 as char then ['\\', 'b']
    else if c == 12 as char then ['\\', 'f']
    else if c == '\n' then ['\\', 'n']
    else if c == '\r' then ['\\', 'r']
    else if c == '\t' then ['\\', 't']
    else if c as int < 0x20 then ['\\', 'u', '0', '0', LowerHex(c as nat / 16), LowerHex(c as nat % 16)]
    else [c]
  }

  function EscapedChars(s: string): string { if s == "" then "" else EscapedChar(s[0]) + EscapedChars(s[1..]) }

  function StringText(s: string): string { "\"" + EscapedChars(s) + "\"" }

  function Spaces(n: nat): (r: string)
    ensures |r| == n && forall i :: 0 <= i < n ==> r[i] == ' '
  {
    if n == 0 then "" else Spaces(n - 1) + " "
  }

  /** A new line at an indentation level. */
  function Indent(level: nat): string { "\n" + Spaces(4 * level) }

  function ValueText(libc: Libc, v: Json, level: nat): string
    decreases v, 0
  {
    match v
    case Null => "null"
    case Boolean(b) => if b then "true" else "false"
    case Num(d) => NumberText(libc, d)
    case Text(s) => StringText(s)
    case List(items) => if items == [] then "[]" else "[" + ItemsText(libc, items, level + 1) + Indent(level) + "]"
    case Object(ms) => if ms == [] then "{}" else "{" + MembersText(libc, ms, level + 1) + Indent(level) + "}"
  }

  function ItemsText(libc: Libc, items: seq<Json>, level: nat): string
    decreases items, 1
  {
    if items == [] then ""
    else
      Indent(level) + ValueText(libc, items[0], level) + (if |items| > 1 then "," else "") +
      ItemsText(libc, items[1..], level)
  }

  function PairText(libc: Libc, m: Pair, level: nat): string
    decreases m, 1
  {
    StringText(m.key) + ": " + ValueText(libc, m.val, level)
  }

  function MembersText(libc: Libc, ms: seq<Pair>, level: nat): string
    decreases ms, 1
  {
    if ms == [] then ""
    else
      Indent(level) + PairText(libc, ms[0], level) + (if |ms| > 1 then "," else "") + MembersText(libc, ms[1..], level)
  }

  /** json_dumps. */
  function DumpsJson(libc: Libc, v: Json): string { ValueText(libc, v, 0) }

  // ------------------------------------------------------------------
  // The writer
  // ------------------------------------------------------------------

  lemma ItemsStep(libc: Libc, done: string, items: seq<Json>, i: nat, level: nat)
    requires i < |items|
    ensures done + ItemsText(libc, items[i..], level) ==
            done + Indent(level) + ValueText(libc, items[i], level) + (if i + 1 < |items| then "," else "") +
            ItemsText(libc, items[i + 1..], level)
  {
    hide ValueText, Indent;
    assert items[i..][1..] == items[i + 1..];
    var a, b, c, d := Indent(level), ValueText(libc, items[i], level), if i + 1 < |items| then "," else "",
                      ItemsText(libc, items[i + 1..], level);
    assert ItemsText(libc, items[i..], level) == a + b + c + d;
    assert done + (a + b + c + d) == done + a + b + c + d;
  }

  lemma MembersStep(libc: Libc, done: string, ms: seq<Pair>, i: nat, level: nat)
    requires i < |ms|
    ensures done + MembersText(libc, ms[i..], level) ==
            done + Indent(level) + PairText(libc, ms[i], level) + (if i + 1 < |ms| then "," else "") +
            MembersText(libc, ms[i + 1..], level)
  {
    hide PairText, Indent;
    assert ms[i..][1..] == ms[i + 1..];
    var a, b, c, d := Indent(level), PairText(libc, ms[i], level), if i + 1 < |ms| then "," else "",
                      MembersText(libc, ms[i + 1..], level);
    assert MembersText(libc, ms[i..], level) == a + b + c + d;
    assert done + (a + b + c + d) == done + a + b + c + d;
  }

  lemma EscapedCharsStep(done: string, s: string, i: nat)
    requires i < |s|
    ensures done + EscapedChar(s[i]) + EscapedChars(s[i + 1..]) == done + EscapedChars(s[i..])
  {
    assert s[i..][1..] == s[i + 1..];
    Assoc(done, EscapedChar(s[i]), EscapedChars(s[i + 1..]));
  }

  /** struct sbuf. */
  class Buffer {
    var out: string

    constructor ()
      ensures out == ""
    {
      out := "";
    }

    method Put(s: string)
      modifies this
      ensures out == old(out) + s
    {
      out := out + s;
    }

    method PutSpaces(n: nat)
      modifies this
      ensures out == old(out) + Spaces(n)
    {
      assert out + Spaces(0) == out;
      for i := 0 to n
        invariant out == old(out) + Spaces(i)
      {
        Assoc(old(out), Spaces(i), " ");
        out := out + " ";
      }
    }

    method PutIndent(level: nat)
      modifies this
      ensures out == old(out) + Indent(level)
    {
      Put("\n");
      PutSpaces(4 * level);
      Assoc(old(out), "\n", Spaces(4 * level));
    }

    /** escape_string. */
    method PutString(s: string)
      modifies this
      ensures out == old(out) + StringText(s)
    {
      Put("\"");
      ghost var start := out;
      var i := 0;
      assert s[0..] == s;
      while i < |s|
        invariant 0 <= i <= |s|
        invariant out + EscapedChars(s[i..]) == start + EscapedChars(s)
      {
        EscapedCharsStep(out, s, i);
        Put(EscapedChar(s[i]));
        i := i + 1;
      }
      assert out + "" == out;
      Put("\"");
      Assoc(old(out), "\"", EscapedChars(s));
      Assoc(old(out), "\"" + EscapedChars(s), "\"");
    }

    method PutItems(libc: Libc, items: seq<Json>, level: nat)
      modifies this
      ensures out == old(out) + ItemsText(libc, items, level)
      decreases items, 1
    {
      hide ItemsText, Indent, Digits;
      assert items[0..] == items;
      var i := 0;
      while i < |items|
        invariant 0 <= i <= |items|
        invariant out + ItemsText(libc, items[i..], level) == old(out) + ItemsText(libc, items, level)
      {
        ItemsStep(libc, out, items, i, level);
        PutIndent(level);
        DumpValue(libc, items[i], level);
        if i + 1 < |items| {
          Put(",");
        } else {
          assert out + "" == out;
        }
        i := i + 1;
      }
      NoItems(libc, items[i..], level);
      assert out + "" == out;
    }

    method PutMembers(libc: Libc, ms: seq<Pair>, level: nat)
      modifies this
      ensures out == old(out) + MembersText(libc, ms, level)
      decreases ms, 1
    {
      hide MembersText, Indent, PairText;
      assert ms[0..] == ms;
      var i := 0;
      while i < |ms|
        invariant 0 <= i <= |ms|
        invariant out + MembersText(libc, ms[i..], level) == old(out) + MembersText(libc, ms, level)
      {
        MembersStep(libc, out, ms, i, level);
        PutIndent(level);
        PutPair(libc, ms[i], level);
        if i + 1 < |ms| {
          Put(",");
        } else {
          assert out + "" == out;
        }
        i := i + 1;
      }
      NoMembers(libc, ms[i..], level);
      assert out + "" == out;
    }

    method PutPair(libc: Libc, m: Pair, level: nat)
      modifies this
      ensures out == old(out) + PairText(libc, m, level)
      decreases m, 1
    {
      PutString(m.key);
      Put(": ");
      DumpValue(libc, m.val, level);
      Assoc(old(out), StringText(m.key), ": ");
      Assoc(old(out), StringText(m.key) + ": ", ValueText(libc, m.val, level));
    }

    /** dump_value for a non-empty container, given its text. */
    method PutClosing(level: nat, close: string, ghost before: string, ghost open: string, ghost body: string)
      requires out == before + open + body
      modifies this
      ensures out == before + (open + body + Indent(level) + close)
    {
      PutIndent(level);
      Put(close);
      assert before + open + body + Indent(level) + close == before + (open + body + Indent(level) + close);
    }

    /** dump_value. */
    method DumpValue(libc: Libc, v: Json, level: nat)
      modifies this
      ensures out == old(out) + ValueText(libc, v, level)
      decreases v, 0
    {
      hide ItemsText, MembersText, Indent, StringText, NumberText;
      match v
      case Null => Put("null");
      case Boolean(b) => Put(if b then "true" else "false");
      case Num(d) =>
        var t := FormatNumber(libc, d);
        Put(t);
      case Text(s) => PutString(s);
      case List(items) =>
        Put("[");
        if items == [] {
          Put("]");
          assert old(out) + "[" + "]" == old(out) + "[]";
        } else {
          PutItems(libc, items, level + 1);
          PutClosing(level, "]", old(out), "[", ItemsText(libc, items, level + 1));
        }
      case Object(ms) =>
        Put("{");
        if ms == [] {
          Put("}");
          assert old(out) + "{" + "}" == old(out) + "{}";
        } else {
          PutMembers(libc, ms, level + 1);
          PutClosing(level, "}", old(out), "{", MembersText(libc, ms, level + 1));
        }
    }
  }

  lemma NoItems(libc: Libc, items: seq<Json>, level: nat)
    requires items == []
    ensures ItemsText(libc, items, level) == ""
  {
  }

  lemma NoMembers(libc: Libc, ms: seq<Pair>, level: nat)
    requires ms == []
    ensures MembersText(libc, ms, level) == ""
  {
  }

  method JsonDumps(libc: Libc, v: Json) returns (text: string)
    ensures text == DumpsJson(libc, v)
  {
    var b := new Buffer();
    b.DumpValue(libc, v, 0);
    assert "" + ValueText(libc, v, 0) == ValueText(libc, v, 0);
    return b.out;
  }

  /** fmt_number's loop over the printed text. */
  method FormatNumber(libc: Libc, d: real) returns (t: string)
    ensures t == NumberText(libc, d)
  {
    if d != 0.0 && (Abs(d) < TINIEST || Abs(d) >= HUGE) {
      return libc.short(d);
    }
    t := libc.fixed(d);
    if '.' in t {
      ghost var whole := t;
      while |t| > 1 && t[|t| - 1] == '0'
        invariant t != "" && Stripped(t) == Stripped(whole)
      {
        t := t[..|t| - 1];
      }
      if t[|t| - 1] == '.' {
        t := t + "0";
      }
    }
  }
}
