/**
 Reading back what the JSON writer writes, with the exact condition for it.
 */
module JsonRoundTrip {
  import opened Wrappers
  import opened Strings
  import opened Reals
  import opened JsonWriter
  import opened JsonReader

  // ------------------------------------------------------------------
  // Which trees come back
  // ------------------------------------------------------------------

  /** The text of a number is one token that strtod reads: every finite double's is. */
  predicate PrintableNumber(libc: Libc, d: real) {
    var t := NumberText(libc, d);
    && t != "" && (t[0] == '-' || IsDigit(t[0]))
    && (forall i :: 0 <= i < |t| ==> IsNumberChar(t[i])) && HasDigit(t) && libc.strtod(t).Some?
  }

  /** The number that a number's text stands for. */
  function RereadNumber(libc: Libc, d: real): real {
    match libc.strtod(NumberText(libc, d)) case Some(e) => e case None => d
  }

  /** The tree that a tree's text stands for. */
  function Reread(libc: Libc, v: Json): Json
    decreases v, 1
  {
    match v
    case Num(d) => Num(RereadNumber(libc, d))
    case List(items) => List(RereadItems(libc, items))
    case Object(ms) => Object(RereadMembers(libc, ms))
    case _ => v
  }

  function RereadItems(libc: Libc, items: seq<Json>): (r: seq<Json>)
    ensures |r| == |items|
    decreases items, 0
  {
    if items == [] then [] else [Reread(libc, items[0])] + RereadItems(libc, items[1..])
  }

  function RereadPair(libc: Libc, m: Pair): Pair
    decreases m, 2
  {
    Pair(m.key, Reread(libc, m.val))
  }

  function RereadMembers(libc: Libc, ms: seq<Pair>): (r: seq<Pair>)
    ensures |r| == |ms|
    decreases ms, 0
  {
    if ms == [] then [] else [RereadPair(libc, ms[0])] + RereadMembers(libc, ms[1..])
  }

  /** What the model covers: C strings and printable numbers. */
  ghost predicate Covered(libc: Libc, v: Json)
    decreases v, 1
  {
    match v
    case Num(d) => PrintableNumber(libc, d)
    case Text(s) => NulFree(s)
    case List(items) => CoveredItems(libc, items)
    case Object(ms) => CoveredMembers(libc, ms)
    case _ => true
  }

  ghost predicate CoveredItems(libc: Libc, items: seq<Json>)
    decreases items, 0
  {
    items == [] || (Covered(libc, items[0]) && CoveredItems(libc, items[1..]))
  }

  ghost predicate CoveredMembers(libc: Libc, ms: seq<Pair>)
    decreases ms, 0
  {
    ms == [] || (NulFree(ms[0].key) && Covered(libc, ms[0].val) && CoveredMembers(libc, ms[1..]))
  }

  /** No control characters but those with an escape of their own. */
  predicate CleanChar(c: char) {
    c as int >= 0x20 || c == 8 as char || c == 12 as char || c == '\n' || c == '\r' || c == '\t'
  }

  predicate Clean(s: string) { forall i :: 0 <= i < |s| ==> CleanChar(s[i]) }

  /** Nested at most 32 deep when inside d containers, with clean strings only. */
  predicate Readable(v: Json, d: nat)
    decreases v, 1
  {
    match v
    case Text(s) => Clean(s)
    case List(items) => d < MAX_DEPTH && ReadableItems(items, d + 1)
    case Object(ms) => d < MAX_DEPTH && ReadableMembers(ms, d + 1)
    case _ => true
  }

  predicate ReadableItems(items: seq<Json>, d: nat)
    decreases items, 0
  {
    items == [] || (Readable(items[0], d) && ReadableItems(items[1..], d))
  }

  predicate ReadableMembers(ms: seq<Pair>, d: nat)
    decreases ms, 0
  {
    ms == [] || (Clean(ms[0].key) && Readable(ms[0].val, d) && ReadableMembers(ms[1..], d))
  }

  // ------------------------------------------------------------------
  // Numbers
  // ------------------------------------------------------------------

  lemma {:induction false} PaddedValue(n: nat, k: nat)
    requires n < Power(k)
    ensures DigitsValue(PaddedDigits(n, k)) == n
  {
    if k > 0 {
      PaddedValue(n / 10, k - 1);
      var s := PaddedDigits(n, k);
      assert s[..|s| - 1] == PaddedDigits(n / 10, k - 1);
    }
  }

  function Power(k: nat): nat { if k == 0 then 1 else 10 * Power(k - 1) }

  lemma SixPlaces()
    ensures Power(6) == MILLION && Tenth(6) == 1.0 / MILLION as real
  {
    assert Power(3) == 1000;
    assert Tenth(3) == 0.001;
  }

  lemma SplitMillion(a: nat)
    ensures (a / MILLION) as real + (a % MILLION) as real * (1.0 / MILLION as real) == a as real / MILLION as real
  {
    var q, r := a / MILLION, a % MILLION;
    assert a == q * MILLION + r;
    assert a as real == q as real * MILLION as real + r as real;
  }

  lemma MagnitudeValue(a: nat)
    ensures ValidDecimal(Fixed6(a)) && DecimalValue(Fixed6(a)) == Millionths(a)
  {
    var q, r: nat := a / MILLION, a % MILLION;
    SixPlaces();
    DigitsRead(q);
    PaddedValue(r, 6);
    SplitMillion(a);
    hide Digits, DigitsValue, PaddedDigits, Tenth, Power;
    DecimalParts(Decimal(false, Digits(q), PaddedDigits(r, 6)), q, r);
  }

  lemma DecimalParts(x: Decimal, whole: int, frac: int)
    requires !x.negative && DigitsValue(x.whole) == whole && DigitsValue(x.frac) == frac
    ensures DecimalValue(x) == whole as real + frac as real * Tenth(|x.frac|)
  {
    hide DigitsValue, Tenth;
  }

  /** What "%.6f" prints for m millionths is m millionths. */
  lemma FixedValue(m: int)
    ensures ValidDecimal(Fixed6(m)) && DecimalValue(Fixed6(m)) == Millionths(m)
  {
    MagnitudeValue(if m < 0 then -m else m);
    if m < 0 {
      hide DecimalValue, Millionths;
      Negated(Fixed6(-m));
      MillionthsNegated(-m);
    }
  }

  lemma Negated(x: Decimal)
    requires !x.negative
    ensures DecimalValue(x.(negative := true)) == -DecimalValue(x)
  {
  }

  lemma MillionthsNegated(m: int)
    ensures Millionths(-m) == -Millionths(m)
  {
  }

  function DropLast(x: Decimal): Decimal
    requires x.frac != ""
  {
    x.(frac := x.frac[..|x.frac| - 1])
  }

  /** A trailing zero after the point makes no difference. */
  lemma ZeroDropped(x: Decimal)
    requires ValidDecimal(x) && x.frac != "" && x.frac[|x.frac| - 1] == '0'
    ensures ValidDecimal(DropLast(x)) && DecimalValue(DropLast(x)) == DecimalValue(x)
    ensures DecimalText(x)[..|DecimalText(x)| - 1] == DecimalText(DropLast(x))
  {
    var y := DropLast(x);
    var v, k := DigitsValue(y.frac), |y.frac|;
    assert DigitsValue(x.frac) == v * 10;
    Shift(v, k);
  }

  lemma Shift(v: int, k: nat)
    ensures (v * 10) as real * Tenth(k + 1) == v as real * Tenth(k)
  {
    assert Tenth(k + 1) == Tenth(k) / 10.0;
    assert (v * 10) as real == v as real * 10.0;
    assert (v as real * 10.0) * (Tenth(k) / 10.0) == v as real * Tenth(k);
  }

  /** Stripping zeros stops at the point at the latest. */
  lemma {:induction false} StrippedDecimal(x: Decimal) returns (y: Decimal)
    requires ValidDecimal(x)
    ensures ValidDecimal(y) && DecimalValue(y) == DecimalValue(x)
    ensures Stripped(DecimalText(x)) == DecimalText(y)
    decreases |x.frac|
  {
    hide DecimalValue;
    var t := DecimalText(x);
    if x.frac != "" && x.frac[|x.frac| - 1] == '0' {
      ZeroDropped(x);
      y := StrippedDecimal(DropLast(x));
    } else {
      y := x;
      assert t[|t| - 1] == if x.frac == "" then '.' else x.frac[|x.frac| - 1];
    }
  }

  lemma OneZero(x: Decimal)
    requires ValidDecimal(x) && x.frac == ""
    ensures ValidDecimal(x.(frac := "0")) && DecimalValue(x.(frac := "0")) == DecimalValue(x)
    ensures DecimalText(x) + "0" == DecimalText(x.(frac := "0"))
  {
    var z := x.(frac := "0");
    assert z.frac[..|z.frac| - 1] == "";
    ZeroDropped(z);
    assert DropLast(z) == x;
  }

  lemma TrimmedDecimal(x: Decimal) returns (y: Decimal)
    requires ValidDecimal(x)
    ensures ValidDecimal(y) && y.frac != "" && DecimalValue(y) == DecimalValue(x)
    ensures Trimmed(DecimalText(x)) == DecimalText(y)
  {
    hide DecimalValue;
    var t := DecimalText(x);
    assert '.' in t by {
      PointIn(x);
    }
    y := StrippedDecimal(x);
    var s := DecimalText(y);
    if y.frac == "" {
      assert s[|s| - 1] == '.';
      OneZero(y);
      y := y.(frac := "0");
    } else {
      assert s[|s| - 1] == y.frac[|y.frac| - 1];
    }
  }

  lemma PointIn(x: Decimal)
    ensures '.' in DecimalText(x)
  {
    var head := (if x.negative then "-" else "") + x.whole;
    assert DecimalText(x) == head + "." + x.frac;
    assert DecimalText(x)[|head|] == '.';
  }

  predicate EndsNumber(rest: string) { rest == "" || !IsNumberChar(rest[0]) }

  lemma {:induction false} TokenWhole(t: string, rest: string)
    requires (forall i :: 0 <= i < |t| ==> IsNumberChar(t[i])) && EndsNumber(rest)
    ensures TokenLength(t + rest) == |t|
    decreases |t|
  {
    if t == "" {
      assert t + rest == rest;
    } else {
      assert (t + rest)[1..] == t[1..] + rest;
      TokenWhole(t[1..], rest);
    }
  }

  lemma DecimalChars(x: Decimal)
    requires ValidDecimal(x)
    ensures var t := DecimalText(x);
            && t != "" && (forall i :: 0 <= i < |t| ==> IsNumberChar(t[i]))
            && HasDigit(t) && (t[0] == '-' || IsDigit(t[0]))
  {
    var t := DecimalText(x);
    var n := if x.negative then 1 else 0;
    assert t[n] == x.whole[0];
    forall i | 0 <= i < |t| ensures IsNumberChar(t[i]) {
      if n <= i < n + |x.whole| {
        assert t[i] == x.whole[i - n];
      } else if i > n + |x.whole| {
        assert t[i] == x.frac[i - n - |x.whole| - 1];
      }
    }
  }

  /** A number is read back as what its text stands for. */
  lemma NumberBack(libc: Libc, d: real, rest: string)
    requires PrintableNumber(libc, d) && EndsNumber(rest)
    ensures ReadNumber(libc, NumberText(libc, d) + rest) == Some(Got(Num(RereadNumber(libc, d)), rest))
  {
    hide NumberText, HasDigit, TokenLength, IsNumberChar;
    var t := NumberText(libc, d);
    TokenWhole(t, rest);
    assert (t + rest)[..|t|] == t && (t + rest)[|t|..] == rest;
  }

  /** A whole multiple of a millionth below 1e16. */
  ghost predicate SixDecimals(d: real) { Abs(d) < HUGE && exists m: int :: d == Millionths(m) }

  /** A number of six decimals is printable, and it is what its text stands for. */
  lemma SixDecimalsBack(libc: Libc, d: real)
    requires Faithful(libc) && SixDecimals(d)
    ensures PrintableNumber(libc, d) && RereadNumber(libc, d) == d
  {
    hide DecimalText, DecimalValue, Trimmed, Fixed6, HasDigit, IsNumberChar;
    var m: int :| d == Millionths(m);
    NotTiny(m);
    FixedValue(m);
    var y := TrimmedDecimal(Fixed6(m));
    assert libc.fixed(d) == DecimalText(Fixed6(m));
    assert NumberText(libc, d) == DecimalText(y);
    DecimalChars(y);
    assert libc.strtod(DecimalText(y)) == Some(DecimalValue(y));
  }

  /** "%.6f" prints some multiple of a millionth, whatever the number. */
  ghost predicate RoundsToSix(libc: Libc) {
    forall d: real :: exists m: int :: libc.fixed(d) == DecimalText(Fixed6(m))
  }

  /** Among the numbers printed without an exponent exactly those of six decimals are read back as
      themselves. */
  lemma ExactNumberIff(libc: Libc, d: real)
    requires Faithful(libc) && RoundsToSix(libc) && (d == 0.0 || TINIEST <= Abs(d) < HUGE)
    ensures PrintableNumber(libc, d) && (RereadNumber(libc, d) == d <==> SixDecimals(d))
  {
    hide DecimalText, DecimalValue, Trimmed, Fixed6, HasDigit, IsNumberChar;
    var m: int :| libc.fixed(d) == DecimalText(Fixed6(m));
    FixedValue(m);
    var y := TrimmedDecimal(Fixed6(m));
    assert NumberText(libc, d) == DecimalText(y);
    DecimalChars(y);
    assert libc.strtod(DecimalText(y)) == Some(DecimalValue(y));
    if SixDecimals(d) {
      SixDecimalsBack(libc, d);
    } else {
      assert RereadNumber(libc, d) == Millionths(m);
    }
  }

  lemma NotTiny(m: int)
    ensures Millionths(m) == 0.0 || Abs(Millionths(m)) >= TINIEST
  {
    if m > 0 {
      assert m as real >= 1.0;
      assert m as real / MILLION as real >= 1.0 / MILLION as real;
    } else if m < 0 {
      assert m as real <= -1.0;
      assert m as real / MILLION as real <= -1.0 / MILLION as real;
    }
  }

  // ------------------------------------------------------------------
  // Strings
  // ------------------------------------------------------------------

  lemma CharBack(c: char, more: string, buf: string)
    requires c != '\0'
    ensures ReadChars(EscapedChar(c) + more, buf) == if CleanChar(c) then ReadChars(more, buf + [c]) else None
  {
    var s := EscapedChar(c) + more;
    if |EscapedChar(c)| == 1 {
      assert s[1..] == more;
    } else if |EscapedChar(c)| == 2 {
      assert s[2..] == more;
    }
  }

  lemma {:induction false} CharsBack(s: string, buf: string, rest: string)
    requires NulFree(s)
    ensures ReadChars(EscapedChars(s) + ("\"" + rest), buf) == if Clean(s) then Some(Got(buf + s, rest)) else None
    decreases |s|
  {
    hide ReadChars, EscapedChar;
    if s == "" {
      assert buf + s == buf && "" + ("\"" + rest) == "\"" + rest;
      QuoteEnds(buf, rest);
    } else {
      var more := EscapedChars(s[1..]) + ("\"" + rest);
      Assoc(EscapedChar(s[0]), EscapedChars(s[1..]), "\"" + rest);
      CharBack(s[0], more, buf);
      CharsBack(s[1..], buf + [s[0]], rest);
      assert buf + [s[0]] + s[1..] == buf + s;
      CleanTail(s);
    }
  }

  lemma QuoteEnds(buf: string, rest: string)
    ensures ReadChars("\"" + rest, buf) == Some(Got(buf, rest))
  {
    assert ("\"" + rest)[1..] == rest;
  }

  lemma CleanTail(s: string)
    requires s != ""
    ensures Clean(s) <==> CleanChar(s[0]) && Clean(s[1..])
  {
    assert s == [s[0]] + s[1..];
  }

  lemma StringBack(s: string, rest: string)
    requires NulFree(s)
    ensures Peek(StringText(s) + rest, '"')
    ensures ReadString(StringText(s) + rest) == if Clean(s) then Some(Got(s, rest)) else None
  {
    hide ReadChars, EscapedChars;
    var t := StringText(s) + rest;
    assert t[1..] == EscapedChars(s) + ("\"" + rest);
    assert "" + s == s;
    CharsBack(s, "", rest);
  }

  // ------------------------------------------------------------------
  // White space
  // ------------------------------------------------------------------

  predicate Solid(s: string) { s == "" || !IsSpace(s[0]) }

  lemma SkipSolid(s: string)
    requires Solid(s)
    ensures Skip(s) == s
  {
  }

  lemma {:induction false} SkipSpaces(n: nat, s: string)
    requires Solid(s)
    ensures Skip(Spaces(n) + s) == s
  {
    if n == 0 {
      assert Spaces(0) + s == s;
    } else {
      assert (Spaces(n) + s)[1..] == Spaces(n - 1) + s by {
        SpacesFront(n);
        assert Spaces(n) + s == " " + (Spaces(n - 1) + s);
      }
      SkipSpaces(n - 1, s);
    }
  }

  lemma SpacesFront(n: nat)
    requires n > 0
    ensures Spaces(n) == " " + Spaces(n - 1)
  {
  }

  lemma SkipIndent(level: nat, s: string)
    requires Solid(s)
    ensures Skip(Indent(level) + s) == s
    ensures (Indent(level) + s)[0] == '\n'
  {
    hide Spaces;
    assert (Indent(level) + s)[1..] == Spaces(4 * level) + s;
    SkipSpaces(4 * level, s);
  }

  // ------------------------------------------------------------------
  // Values
  // ------------------------------------------------------------------

  /** What follows a value in the writer's output. */
  predicate EndsValue(rest: string) { rest == "" || rest[0] == '\n' || rest[0] == ',' }

  lemma WordBack(libc: Libc, v: Json, level: nat, rest: string, d: nat)
    requires v.Null? || v.Boolean?
    ensures ReadValue(libc, ValueText(libc, v, level) + rest, d) == Some(Got(v, rest))
    ensures ValueText(libc, v, level) != "" && Solid(ValueText(libc, v, level)) && ValueText(libc, v, level)[0] != ']'
  {
    hide ReadList, ReadObject, ReadString, ReadNumber;
    var word := ValueText(libc, v, level);
    var t := word + rest;
    assert t[|word|..] == rest && word <= t;
    assert t[0] == word[0];
    SkipSolid(t);
  }

  lemma NumberSolid(libc: Libc, d: real)
    requires PrintableNumber(libc, d)
    ensures StartsValue(NumberText(libc, d))
  {
    hide NumberText, HasDigit;
  }

  lemma NumBack(libc: Libc, x: real, level: nat, rest: string, d: nat)
    requires PrintableNumber(libc, x) && EndsValue(rest)
    ensures ReadValue(libc, ValueText(libc, Num(x), level) + rest, d) == Some(Got(Num(RereadNumber(libc, x)), rest))
    ensures NumberText(libc, x) != "" && Solid(NumberText(libc, x)) && NumberText(libc, x)[0] != ']'
  {
    hide NumberText, ReadNumber, ReadList, ReadObject, ReadString, RereadNumber, HasDigit;
    NumberBack(libc, x, rest);
    NumberSolid(libc, x);
    var t := NumberText(libc, x) + rest;
    assert t[0] == NumberText(libc, x)[0];
    SkipSolid(t);
    assert "true"[0] == 't' && "false"[0] == 'f' && "null"[0] == 'n';
  }

  lemma TextBack(libc: Libc, s: string, level: nat, rest: string, d: nat)
    requires NulFree(s)
    ensures ReadValue(libc, ValueText(libc, Text(s), level) + rest, d) ==
            if Clean(s) then Some(Got(Text(s), rest)) else None
    ensures StringText(s) != "" && Solid(StringText(s)) && StringText(s)[0] != ']'
  {
    hide StringText, ReadString, ReadNumber, ReadList, ReadObject;
    StringBack(s, rest);
    QuoteFirst(s);
    SkipSolid(StringText(s) + rest);
  }

  lemma QuoteFirst(s: string)
    ensures StringText(s) != "" && StringText(s)[0] == '"'
  {
  }

  /** The first character of a value's text. */
  predicate StartsValue(t: string) { t != "" && Solid(t) && t[0] != ']' && t[0] != '}' }

  lemma ValueStarts(libc: Libc, v: Json, level: nat)
    requires Covered(libc, v)
    ensures StartsValue(ValueText(libc, v, level))
  {
    hide NumberText, ItemsText, MembersText, Indent, EscapedChars;
    match v
    case Num(x) => NumberSolid(libc, x);
    case List(items) =>
      if items != [] {
        assert ValueText(libc, v, level) == "[" + (ItemsText(libc, items, level + 1) + Indent(level) + "]");
      }
    case Object(ms) =>
      if ms != [] {
        assert ValueText(libc, v, level) == "{" + (MembersText(libc, ms, level + 1) + Indent(level) + "}");
      }
    case _ =>
  }

  /** The text of the items of a list, with its first line's indentation removed. */
  lemma ItemsOpen(libc: Libc, items: seq<Json>, level: nat, close: string)
    requires items != [] && Covered(libc, items[0])
    ensures var first := ValueText(libc, items[0], level);
            var after := (if |items| > 1 then "," + ItemsText(libc, items[1..], level) else "") + close;
            Skip(ItemsText(libc, items, level) + close) == first + after && StartsValue(first + after)
  {
    hide ValueText, Indent, Covered;
    var first := ValueText(libc, items[0], level);
    var sep, more := if |items| > 1 then "," else "", ItemsText(libc, items[1..], level);
    var after := (if |items| > 1 then "," + more else "") + close;
    ValueStarts(libc, items[0], level);
    assert (first + after)[0] == first[0];
    assert ItemsText(libc, items, level) + close == Indent(level) + (first + after) by {
      assert items[1..] == [] ==> more == "";
      assert Indent(level) + first + sep + more + close == Indent(level) + (first + (sep + more + close));
    }
    SkipIndent(level, first + after);
  }

  /** The items of a list are read back, or the list is refused. */
  lemma {:induction false} ItemsBack(libc: Libc, items: seq<Json>, level: nat, outer: nat, rest: string, d: nat)
    requires items != [] && CoveredItems(libc, items) && d <= MAX_DEPTH
    ensures ReadItems(libc, Skip(ItemsText(libc, items, level) + (Indent(outer) + ("]" + rest))), d) ==
            if ReadableItems(items, d) then Some(Got(RereadItems(libc, items), rest)) else None
    decreases items, 0
  {
    hide ReadValue, ReadItems, Readable, ItemsText, ValueText, Indent, Covered, Reread;
    var close := Indent(outer) + ("]" + rest);
    var v, tail := items[0], items[1..];
    ItemsOpen(libc, items, level, close);
    if |items| > 1 {
      var after := "," + ItemsText(libc, tail, level) + close;
      CommaAhead(ItemsText(libc, tail, level), close);
      ValueBack(libc, v, level, after, d);
      ItemsBack(libc, tail, level, outer, rest, d);
      ItemThen(libc, v, level, after, ItemsText(libc, tail, level) + close, d);
    } else {
      CloseAhead(outer, ']', rest);
      assert "" + close == close;
      ValueBack(libc, v, level, close, d);
      ItemLast(libc, v, level, close, rest, d);
      assert tail == [] && RereadItems(libc, items) == [Reread(libc, v)];
    }
  }

  /** After an item and a comma the list goes on. */
  lemma ItemThen(libc: Libc, v: Json, level: nat, after: string, more: string, d: nat)
    requires EndsValue(after) && Skip(after) == "," + more
    requires ReadValue(libc, ValueText(libc, v, level) + after, d) ==
             if Readable(v, d) then Some(Got(Reread(libc, v), after)) else None
    ensures ReadItems(libc, ValueText(libc, v, level) + after, d) ==
            if !Readable(v, d) then None
            else
              match ReadItems(libc, Skip(more), d)
              case None => None
              case Some(Got(items, end)) => Some(Got([Reread(libc, v)] + items, end))
  {
    hide ReadValue, ReadItems, Readable, ValueText, Skip, Reread;
    ItemsFollow(libc, ValueText(libc, v, level) + after, d);
    assert ("," + more)[1..] == more;
  }

  /** After the last item the list ends. */
  lemma ItemLast(libc: Libc, v: Json, level: nat, after: string, rest: string, d: nat)
    requires EndsValue(after) && Skip(after) == "]" + rest
    requires ReadValue(libc, ValueText(libc, v, level) + after, d) ==
             if Readable(v, d) then Some(Got(Reread(libc, v), after)) else None
    ensures ReadItems(libc, ValueText(libc, v, level) + after, d) ==
            if Readable(v, d) then Some(Got([Reread(libc, v)], rest)) else None
  {
    hide ReadValue, ReadItems, Readable, ValueText, Skip, Reread;
    ItemsFollow(libc, ValueText(libc, v, level) + after, d);
    assert ("]" + rest)[1..] == rest;
  }

  lemma CommaAhead(more: string, close: string)
    ensures var after := "," + more + close;
            EndsValue(after) && Skip(after) == "," + (more + close)
  {
    Assoc(",", more, close);
    SkipSolid("," + (more + close));
  }

  lemma CloseAhead(outer: nat, c: char, rest: string)
    requires c == ']' || c == '}'
    ensures var after := Indent(outer) + ([c] + rest);
            EndsValue(after) && Skip(after) == [c] + rest
  {
    SkipIndent(outer, [c] + rest);
  }

  lemma ListBack(libc: Libc, items: seq<Json>, level: nat, rest: string, d: nat)
    requires CoveredItems(libc, items) && d <= MAX_DEPTH
    ensures ReadValue(libc, ValueText(libc, List(items), level) + rest, d) ==
            if Readable(List(items), d) then Some(Got(Reread(libc, List(items)), rest)) else None
    decreases items, 1
  {
    hide ReadItems, ItemsText, ReadObject, ReadString, ReadNumber, Indent;
    var t := ValueText(libc, List(items), level) + rest;
    SkipSolid(t);
    if items == [] {
      assert t[1..] == "]" + rest && ("]" + rest)[1..] == rest;
      SkipSolid("]" + rest);
    } else {
      var body := ItemsText(libc, items, level + 1) + (Indent(level) + ("]" + rest));
      assert t[1..] == body;
      ItemsOpen(libc, items, level + 1, Indent(level) + ("]" + rest));
      if d < MAX_DEPTH {
        ItemsBack(libc, items, level + 1, level, rest, d + 1);
      }
    }
  }

  lemma PairBack(libc: Libc, m: Pair, level: nat, rest: string, d: nat)
    requires NulFree(m.key) && Covered(libc, m.val) && d <= MAX_DEPTH && EndsValue(rest)
    ensures ReadPair(libc, PairText(libc, m, level) + rest, d) ==
            if Clean(m.key) && Readable(m.val, d) then Some(Got(RereadPair(libc, m), rest)) else None
    decreases m, 1
  {
    hide ReadString, ReadValue, StringText, ValueText, Covered, Readable, Clean;
    var text := ValueText(libc, m.val, level) + rest;
    var after := ":" + (" " + text);
    assert ": " == ":" + " ";
    assert PairText(libc, m, level) + rest == StringText(m.key) + after;
    StringBack(m.key, after);
    SkipSolid(after);
    assert after[1..] == " " + text;
    ValueStarts(libc, m.val, level);
    assert text[0] == ValueText(libc, m.val, level)[0];
    SkipOne(text);
    ValueBack(libc, m.val, level, rest, d);
  }

  lemma SkipOne(s: string)
    requires Solid(s)
    ensures Skip(" " + s) == s
  {
    assert (" " + s)[1..] == s;
  }

  lemma MembersOpen(libc: Libc, ms: seq<Pair>, level: nat, close: string)
    requires ms != []
    ensures var first := PairText(libc, ms[0], level);
            var after := (if |ms| > 1 then "," + MembersText(libc, ms[1..], level) else "") + close;
            Skip(MembersText(libc, ms, level) + close) == first + after && Peek(first + after, '"')
  {
    hide ValueText, Indent, StringText;
    var first := PairText(libc, ms[0], level);
    var sep, more := if |ms| > 1 then "," else "", MembersText(libc, ms[1..], level);
    var after := (if |ms| > 1 then "," + more else "") + close;
    QuoteFirst(ms[0].key);
    assert (first + after)[0] == first[0] == StringText(ms[0].key)[0];
    assert MembersText(libc, ms, level) + close == Indent(level) + (first + after) by {
      assert ms[1..] == [] ==> more == "";
      assert Indent(level) + first + sep + more + close == Indent(level) + (first + (sep + more + close));
    }
    SkipIndent(level, first + after);
  }

  lemma {:induction false} MembersBack(libc: Libc, ms: seq<Pair>, level: nat, outer: nat, rest: string, d: nat)
    requires ms != [] && CoveredMembers(libc, ms) && d <= MAX_DEPTH
    ensures ReadMembers(libc, Skip(MembersText(libc, ms, level) + (Indent(outer) + ("}" + rest))), d) ==
            if ReadableMembers(ms, d) then Some(Got(RereadMembers(libc, ms), rest)) else None
    decreases ms, 0
  {
    hide ReadPair, ReadMembers, Readable, MembersText, PairText, Indent, Covered, Clean, RereadPair;
    var close := Indent(outer) + ("}" + rest);
    var m, tail := ms[0], ms[1..];
    MembersOpen(libc, ms, level, close);
    if |ms| > 1 {
      var after := "," + MembersText(libc, tail, level) + close;
      CommaAhead(MembersText(libc, tail, level), close);
      PairBack(libc, m, level, after, d);
      MembersBack(libc, tail, level, outer, rest, d);
      PairThen(libc, m, level, after, MembersText(libc, tail, level) + close, d);
    } else {
      CloseAhead(outer, '}', rest);
      assert "" + close == close;
      PairBack(libc, m, level, close, d);
      PairLast(libc, m, level, close, rest, d);
      assert tail == [] && RereadMembers(libc, ms) == [RereadPair(libc, m)];
    }
  }

  predicate ReadablePair(m: Pair, d: nat) { Clean(m.key) && Readable(m.val, d) }

  /** After a member and a comma the object goes on. */
  lemma PairThen(libc: Libc, m: Pair, level: nat, after: string, more: string, d: nat)
    requires EndsValue(after) && Skip(after) == "," + more
    requires ReadPair(libc, PairText(libc, m, level) + after, d) ==
             if ReadablePair(m, d) then Some(Got(RereadPair(libc, m), after)) else None
    ensures ReadMembers(libc, PairText(libc, m, level) + after, d) ==
            if !ReadablePair(m, d) then None
            else
              match ReadMembers(libc, Skip(more), d)
              case None => None
              case Some(Got(ms, end)) => Some(Got([RereadPair(libc, m)] + ms, end))
  {
    hide ReadPair, ReadMembers, ReadablePair, PairText, Skip, RereadPair;
    MembersFollow(libc, PairText(libc, m, level) + after, d);
    assert ("," + more)[1..] == more;
  }

  /** After the last member the object ends. */
  lemma PairLast(libc: Libc, m: Pair, level: nat, after: string, rest: string, d: nat)
    requires EndsValue(after) && Skip(after) == "}" + rest
    requires ReadPair(libc, PairText(libc, m, level) + after, d) ==
             if ReadablePair(m, d) then Some(Got(RereadPair(libc, m), after)) else None
    ensures ReadMembers(libc, PairText(libc, m, level) + after, d) ==
            if ReadablePair(m, d) then Some(Got([RereadPair(libc, m)], rest)) else None
  {
    hide ReadPair, ReadMembers, ReadablePair, PairText, Skip, RereadPair;
    MembersFollow(libc, PairText(libc, m, level) + after, d);
    assert ("}" + rest)[1..] == rest;
  }

  lemma ObjectBack(libc: Libc, ms: seq<Pair>, level: nat, rest: string, d: nat)
    requires CoveredMembers(libc, ms) && d <= MAX_DEPTH
    ensures ReadValue(libc, ValueText(libc, Object(ms), level) + rest, d) ==
            if Readable(Object(ms), d) then Some(Got(Reread(libc, Object(ms)), rest)) else None
    decreases ms, 1
  {
    hide ReadMembers, MembersText, ReadList, ReadString, ReadNumber, Indent;
    var t := ValueText(libc, Object(ms), level) + rest;
    SkipSolid(t);
    if ms == [] {
      assert t[1..] == "}" + rest && ("}" + rest)[1..] == rest;
      SkipSolid("}" + rest);
    } else {
      var body := MembersText(libc, ms, level + 1) + (Indent(level) + ("}" + rest));
      assert t[1..] == body;
      MembersOpen(libc, ms, level + 1, Indent(level) + ("}" + rest));
      if d < MAX_DEPTH {
        MembersBack(libc, ms, level + 1, level, rest, d + 1);
      }
    }
  }

  /** A value's text is read back as the value when it is readable, and refused otherwise. */
  lemma {:induction false} ValueBack(libc: Libc, v: Json, level: nat, rest: string, d: nat)
    requires Covered(libc, v) && d <= MAX_DEPTH && EndsValue(rest)
    ensures ReadValue(libc, ValueText(libc, v, level) + rest, d) ==
            if Readable(v, d) then Some(Got(Reread(libc, v), rest)) else None
    decreases v, 0
  {
    hide ReadValue, ValueText, Clean, PrintableNumber, RereadNumber;
    match v
    case Num(x) => NumBack(libc, x, level, rest, d);
    case Text(s) => TextBack(libc, s, level, rest, d);
    case List(items) => ListBack(libc, items, level, rest, d);
    case Object(ms) => ObjectBack(libc, ms, level, rest, d);
    case _ => WordBack(libc, v, level, rest, d);
  }

  // ------------------------------------------------------------------
  // Readable means shallow and clean
  // ------------------------------------------------------------------

  predicate CleanTree(v: Json)
    decreases v, 1
  {
    match v
    case Text(s) => Clean(s)
    case List(items) => CleanItems(items)
    case Object(ms) => CleanMembers(ms)
    case _ => true
  }

  predicate CleanItems(items: seq<Json>)
    decreases items, 0
  {
    items == [] || (CleanTree(items[0]) && CleanItems(items[1..]))
  }

  predicate CleanMembers(ms: seq<Pair>)
    decreases ms, 0
  {
    ms == [] || (Clean(ms[0].key) && CleanTree(ms[0].val) && CleanMembers(ms[1..]))
  }

  lemma {:induction false} ReadableIff(v: Json, d: nat)
    requires d <= MAX_DEPTH
    ensures Readable(v, d) <==> CleanTree(v) && d + Depth(v) <= MAX_DEPTH
    decreases v, 1
  {
    match v
    case List(items) =>
      if d < MAX_DEPTH {
        ReadableItemsIff(items, d + 1);
      }
    case Object(ms) =>
      if d < MAX_DEPTH {
        ReadableMembersIff(ms, d + 1);
      }
    case _ =>
  }

  lemma {:induction false} ReadableItemsIff(items: seq<Json>, d: nat)
    requires d <= MAX_DEPTH
    ensures ReadableItems(items, d) <==> CleanItems(items) && d + Deepest(items) <= MAX_DEPTH
    decreases items, 0
  {
    if items != [] {
      ReadableIff(items[0], d);
      ReadableItemsIff(items[1..], d);
    }
  }

  lemma {:induction false} ReadableMembersIff(ms: seq<Pair>, d: nat)
    requires d <= MAX_DEPTH
    ensures ReadableMembers(ms, d) <==> CleanMembers(ms) && d + DeepestMember(ms) <= MAX_DEPTH
    decreases ms, 0
  {
    if ms != [] {
      ReadableIff(ms[0].val, d);
      ReadableMembersIff(ms[1..], d);
    }
  }

  /** Every number of the tree is what its text stands for. */
  predicate ExactTree(libc: Libc, v: Json)
    decreases v, 1
  {
    match v
    case Num(d) => RereadNumber(libc, d) == d
    case List(items) => ExactItems(libc, items)
    case Object(ms) => ExactMembers(libc, ms)
    case _ => true
  }

  predicate ExactItems(libc: Libc, items: seq<Json>)
    decreases items, 0
  {
    items == [] || (ExactTree(libc, items[0]) && ExactItems(libc, items[1..]))
  }

  predicate ExactMembers(libc: Libc, ms: seq<Pair>)
    decreases ms, 0
  {
    ms == [] || (ExactTree(libc, ms[0].val) && ExactMembers(libc, ms[1..]))
  }

  lemma {:induction false} RereadExact(libc: Libc, v: Json)
    ensures Reread(libc, v) == v <==> ExactTree(libc, v)
    decreases v, 1
  {
    hide RereadNumber;
    match v
    case List(items) => ItemsExact(libc, items);
    case Object(ms) => MembersExact(libc, ms);
    case _ =>
  }

  lemma {:induction false} ItemsExact(libc: Libc, items: seq<Json>)
    ensures RereadItems(libc, items) == items <==> ExactItems(libc, items)
    decreases items, 0
  {
    hide Reread, ExactTree;
    if items != [] {
      RereadExact(libc, items[0]);
      ItemsExact(libc, items[1..]);
      assert items == [items[0]] + items[1..];
      assert RereadItems(libc, items)[0] == Reread(libc, items[0]);
      assert RereadItems(libc, items)[1..] == RereadItems(libc, items[1..]);
    }
  }

  lemma {:induction false} MembersExact(libc: Libc, ms: seq<Pair>)
    ensures RereadMembers(libc, ms) == ms <==> ExactMembers(libc, ms)
    decreases ms, 0
  {
    hide Reread, ExactTree;
    if ms != [] {
      RereadExact(libc, ms[0].val);
      MembersExact(libc, ms[1..]);
      assert ms == [ms[0]] + ms[1..];
      assert RereadMembers(libc, ms)[0] == RereadPair(libc, ms[0]);
      assert RereadMembers(libc, ms)[1..] == RereadMembers(libc, ms[1..]);
    }
  }

  /** json_parse of json_dumps gives the tree that the text stands for when the tree nests at most 32 deep
      and its strings have no control characters but those with an escape of their own; otherwise the text
      is refused.  It is the tree itself exactly when, besides, every number is exact. */
  lemma RoundTrip(libc: Libc, v: Json)
    requires Covered(libc, v)
    ensures var o := Parse(libc, DumpsJson(libc, v));
            && o == (if CleanTree(v) && Depth(v) <= MAX_DEPTH then Some(Reread(libc, v)) else None)
            && (o == Some(v) <==> CleanTree(v) && Depth(v) <= MAX_DEPTH && ExactTree(libc, v))
  {
    hide ReadValue, ValueText, Readable, CleanTree, Depth, Reread, ExactTree;
    var t := ValueText(libc, v, 0);
    assert t + "" == t;
    ValueBack(libc, v, 0, "", 0);
    SkipSolid("");
    ReadableIff(v, 0);
    RereadExact(libc, v);
  }

  /** The numbers of the tree have six decimals. */
  ghost predicate Decimals(v: Json)
    decreases v, 1
  {
    match v
    case Num(d) => SixDecimals(d)
    case Text(s) => NulFree(s)
    case List(items) => DecimalItems(items)
    case Object(ms) => DecimalMembers(ms)
    case _ => true
  }

  ghost predicate DecimalItems(items: seq<Json>)
    decreases items, 0
  {
    items == [] || (Decimals(items[0]) && DecimalItems(items[1..]))
  }

  ghost predicate DecimalMembers(ms: seq<Pair>)
    decreases ms, 0
  {
    ms == [] || (NulFree(ms[0].key) && Decimals(ms[0].val) && DecimalMembers(ms[1..]))
  }

  /** Trees whose numbers are multiples of a millionth below 1e16, as calibration files have them, are exact. */
  lemma {:induction false} DecimalsExact(libc: Libc, v: Json)
    requires Faithful(libc) && Decimals(v)
    ensures Covered(libc, v) && ExactTree(libc, v)
    decreases v, 1
  {
    hide PrintableNumber, RereadNumber, SixDecimals, Faithful;
    match v
    case Num(d) => SixDecimalsBack(libc, d);
    case List(items) => DecimalItemsExact(libc, items);
    case Object(ms) => DecimalMembersExact(libc, ms);
    case _ =>
  }

  lemma {:induction false} DecimalItemsExact(libc: Libc, items: seq<Json>)
    requires Faithful(libc) && DecimalItems(items)
    ensures CoveredItems(libc, items) && ExactItems(libc, items)
    decreases items, 0
  {
    hide Covered, ExactTree, Decimals, Faithful;
    if items != [] {
      DecimalsExact(libc, items[0]);
      DecimalItemsExact(libc, items[1..]);
    }
  }

  lemma {:induction false} DecimalMembersExact(libc: Libc, ms: seq<Pair>)
    requires Faithful(libc) && DecimalMembers(ms)
    ensures CoveredMembers(libc, ms) && ExactMembers(libc, ms)
    decreases ms, 0
  {
    hide Covered, ExactTree, Decimals, Faithful;
    if ms != [] {
      DecimalsExact(libc, ms[0].val);
      DecimalMembersExact(libc, ms[1..]);
    }
  }
}
