/**
 Reading back what the TOML writer writes: the tree comes back in normal form, every table's scalars
 before its sub-tables.
 */
module TomlRoundTrip {
  import opened Wrappers
  import opened Strings
  import opened TomlTree
  import opened TomlWriter
  import opened TomlReader

  // ------------------------------------------------------------------
  // Strings
  // ------------------------------------------------------------------

  lemma {:induction false} CStringWhole(s: string)
    requires NulFree(s)
    ensures CString(s) == s
  {
    if s != "" {
      CStringWhole(s[1..]);
    }
  }

  lemma HexDigitRead(n: nat)
    requires n < 16
    ensures HexValue(HexDigit(n)) == Some(n)
  {
  }

  /** An escaped character is read back as itself. */
  lemma EscapedRead(c: char, rest: string, l: nat)
    requires c != '\0'
    ensures Escaped(c) != "" && Escaped(c)[0] != '"'
    ensures StringItem(Pos(Escaped(c) + rest, l), '"') == Ok([c], Pos(rest, l))
  {
    var s := Escaped(c) + rest;
    if |Escaped(c)| == 1 {
      assert s[1..] == rest;
    } else if |Escaped(c)| == 2 {
      assert s[1..][1..] == rest;
    } else {
      UnicodeEscapeRead(c, s, rest, l);
    }
  }

  lemma UnicodeEscapeRead(c: char, s: string, rest: string, l: nat)
    requires c != '\0' && |Escaped(c)| == 6 && s == Escaped(c) + rest
    ensures s[0] == '\\' && Escape(Pos(s[1..], l)) == Ok([c], Pos(rest, l))
  {
    var hi, lo := c as nat / 16, c as nat % 16;
    var t := s[1..];
    assert t[0] == 'u';
    assert t[1..] == ['0', '0', HexDigit(hi), HexDigit(lo)] + rest;
    UnicodeRead(t[1..], hi, lo, rest, l);
    assert hi * 16 + lo == c as nat;
  }

  lemma UnicodeRead(t: string, hi: nat, lo: nat, rest: string, l: nat)
    requires hi < 2 && lo < 16
    requires t == ['0', '0', HexDigit(hi), HexDigit(lo)] + rest
    ensures HexDigits(Pos(t, l), 4, 0) == Ok(hi * 16 + lo, Pos(rest, l))
  {
    HexDigitRead(0);
    HexDigitRead(hi);
    HexDigitRead(lo);
    assert t[1..][1..][1..][1..] == rest;
    assert HexDigits(Pos(t[1..][1..][1..], l), 1, hi) == Ok(hi * 16 + lo, Pos(rest, l));
    assert HexDigits(Pos(t[1..][1..], l), 2, 0) == Ok(hi * 16 + lo, Pos(rest, l));
    assert HexDigits(Pos(t[1..], l), 3, 0) == Ok(hi * 16 + lo, Pos(rest, l));
  }

  lemma {:induction false} StringRead(s: string, buf: string, rest: string, l: nat)
    requires NulFree(buf) && NulFree(buf + s)
    ensures StringBody(Pos(EscapedAll(s) + "\"" + rest, l), '"', buf, l) == Ok(buf + s, Pos(rest, l))
    decreases |s|
  {
    hide EscapedAll, Escaped, StringItem, StringBody;
    if s == "" {
      assert buf + s == buf;
      StringEnd(buf, rest, l);
    } else {
      EscapedSplit(s, rest);
      assert s[0] in buf + s by {
        assert (buf + s)[|buf|] == s[0];
      }
      StringStep(s[0], EscapedAll(s[1..]) + "\"" + rest, buf, l);
      assert buf + [s[0]] + s[1..] == buf + s;
      StringRead(s[1..], buf + [s[0]], rest, l);
    }
  }

  lemma StringEnd(buf: string, rest: string, l: nat)
    requires NulFree(buf)
    ensures StringBody(Pos(EscapedAll("") + "\"" + rest, l), '"', buf, l) == Ok(buf, Pos(rest, l))
  {
    CStringWhole(buf);
    assert ("" + "\"" + rest)[1..] == rest;
  }

  lemma StringStep(c: char, more: string, buf: string, l: nat)
    requires c != '\0'
    ensures StringBody(Pos(Escaped(c) + more, l), '"', buf, l) == StringBody(Pos(more, l), '"', buf + [c], l)
  {
    hide Escaped, StringItem;
    EscapedRead(c, more, l);
    assert (Escaped(c) + more)[0] == Escaped(c)[0];
  }

  lemma EscapedSplit(s: string, rest: string)
    requires s != ""
    ensures EscapedAll(s) + "\"" + rest == Escaped(s[0]) + (EscapedAll(s[1..]) + "\"" + rest)
  {
    Assoc(Escaped(s[0]), EscapedAll(s[1..]), "\"");
    Assoc(Escaped(s[0]), EscapedAll(s[1..]) + "\"", rest);
  }

  /** A quoted string is read back as itself, whatever follows it. */
  lemma QuotedRead(s: string, rest: string, l: nat)
    requires NulFree(s)
    ensures QuotedString(Pos(Quoted(s) + rest, l)) == Ok(s, Pos(rest, l))
  {
    var text := Quoted(s) + rest;
    assert text[1..] == EscapedAll(s) + "\"" + rest;
    assert "" + s == s;
    StringRead(s, "", rest, l);
  }

  // ------------------------------------------------------------------
  // Keys
  // ------------------------------------------------------------------

  predicate EndsKey(rest: string) { rest == "" || !IsBare(rest[0]) }

  lemma {:induction false} BareRead(s: string, rest: string)
    requires AllBare(s) && EndsKey(rest)
    ensures BareLength(s + rest) == |s|
  {
    if s == "" {
      assert s + rest == rest;
    } else {
      assert (s + rest)[1..] == s[1..] + rest;
      BareRead(s[1..], rest);
    }
  }

  lemma KeyRead(key: string, rest: string, l: nat)
    requires NulFree(key) && EndsKey(rest)
    ensures KeySegment(Pos(KeyText(key) + rest, l)) == Ok(key, Pos(rest, l))
  {
    var text := KeyText(key) + rest;
    if BareSafe(key) {
      assert text[0] == key[0];
      BareRead(key, rest);
      assert text[..|key|] == key && text[|key|..] == rest;
    } else {
      QuotedRead(key, rest, l);
    }
  }

  ghost predicate NulFreePath(path: Path) { forall i :: 0 <= i < |path| ==> NulFree(path[i]) }

  lemma KeyPathStep(at: Pos, seg: string, next: Pos)
    requires KeySegment(at) == Ok(seg, next)
    ensures !Peek(next.rest, '.') ==> KeyPath(at) == Ok([seg], next)
    ensures Peek(next.rest, '.') && KeyPath(Pos(next.rest[1..], next.line)).Ok? ==>
              var o := KeyPath(Pos(next.rest[1..], next.line)); KeyPath(at) == Ok([seg] + o.value, o.at)
  {
  }

  lemma PathSplit(path: Path, rest: string)
    requires path != []
    ensures PathText(path) + rest == KeyText(path[0]) + (MorePath(path[1..]) + rest)
    ensures |path| == 1 ==> MorePath(path[1..]) + rest == rest
    ensures |path| > 1 ==> MorePath(path[1..]) + rest == "." + (PathText(path[1..]) + rest)
  {
    Assoc(KeyText(path[0]), MorePath(path[1..]), rest);
    if |path| > 1 {
      var tail := path[1..];
      Assoc(".", KeyText(tail[0]), MorePath(tail[1..]));
      Assoc(".", PathText(tail), rest);
    }
  }

  /** A header path is read back segment by segment. */
  lemma {:induction false} PathRead(path: Path, rest: string, l: nat)
    requires path != [] && NulFreePath(path) && EndsKey(rest) && !Peek(rest, '.')
    ensures KeyPath(Pos(PathText(path) + rest, l)) == Ok(path, Pos(rest, l))
    decreases |path|
  {
    hide KeySegment, KeyPath, KeyText, PathText, MorePath;
    var tail := path[1..];
    var after := MorePath(tail) + rest;
    PathSplit(path, rest);
    assert path == [path[0]] + tail;
    if tail != [] {
      assert after[1..] == PathText(tail) + rest;
      PathRead(tail, rest, l);
    }
    KeyRead(path[0], after, l);
    KeyPathStep(Pos(PathText(path) + rest, l), path[0], Pos(after, l));
    if tail == [] {
      assert path == [path[0]];
    } else {
      assert KeyPath(Pos(PathText(path) + rest, l)) == Ok([path[0]] + tail, Pos(rest, l));
    }
  }

  // ------------------------------------------------------------------
  // Numbers
  // ------------------------------------------------------------------

  lemma {:induction false} DigitsShort(n: nat, k: nat)
    requires k > 0 && n < Power10(k)
    ensures |Digits(n)| <= k
  {
    assert Power10(1) == 10;
    if n >= 10 {
      DigitsShort(n / 10, k - 1);
    }
  }

  lemma Power19()
    ensures Power10(19) > 0x8000_0000_0000_0000
  {
    assert Power10(4) == 10000;
    assert Power10(8) == 100000000;
    assert Power10(12) == 1000000000000;
    assert Power10(16) == 10000000000000000;
  }

  lemma DigitsFit(n: nat)
    requires n <= 0x8000_0000_0000_0000
    ensures |Digits(n)| <= 19
  {
    Power19();
    DigitsShort(n, 19);
  }

  predicate EndsNumber(rest: string) {
    rest != "" ==> !IsDigit(rest[0]) && rest[0] !in "_.eE+-"
  }

  lemma {:induction false} ScanDigits(s: string, token: string, digits: bool, rest: string)
    requires AllDigits(s) && EndsNumber(rest) && |token| + |s| <= TOKEN_MAX
    ensures Scan(s + rest, token, digits, false) == Scanned(rest, token + s, digits || s != "", false)
    decreases |s|
  {
    if s == "" {
      assert s + rest == rest && token + s == token;
    } else {
      assert (s + rest)[1..] == s[1..] + rest;
      assert token + [s[0]] + s[1..] == token + s;
      ScanDigits(s[1..], token + [s[0]], true, rest);
    }
  }

  lemma {:induction false} ScanLiteral(t: string, token: string, digits: bool, isFloat: bool, rest: string)
    requires LiteralTail(t, digits) && EndsNumber(rest) && |token| + |t| <= TOKEN_MAX
    ensures Scan(t + rest, token, digits, isFloat) == Scanned(rest, token + t, true, isFloat || Marked(t))
    decreases |t|
  {
    if t == "" {
      assert t + rest == rest && token + t == token;
    } else if (t[0] == 'e' || t[0] == 'E') && |t| > 1 && (t[1] == '+' || t[1] == '-') {
      assert t[0] in t;
      assert (t + rest)[2..] == t[2..] + rest;
      assert token + [t[0]] + [t[1]] + t[2..] == token + t;
      ScanLiteral(t[2..], token + [t[0]] + [t[1]], digits, true, rest);
    } else {
      ScanLiteralStep(t, token, digits, isFloat, rest);
      MarkedFirst(t);
      hide Scan, Marked, EndsNumber;
      assert token + [t[0]] + t[1..] == token + t;
      ScanLiteral(t[1..], token + [t[0]], digits || IsDigit(t[0]), isFloat || !IsDigit(t[0]), rest);
    }
  }

  lemma MarkedFirst(t: string)
    requires t != ""
    ensures Marked(t) <==> (t[0] == '.' || t[0] == 'e' || t[0] == 'E' || Marked(t[1..]))
  {
    assert t == [t[0]] + t[1..];
  }

  lemma ScanLiteralStep(t: string, token: string, digits: bool, isFloat: bool, rest: string)
    requires LiteralTail(t, digits) && EndsNumber(rest) && |token| + |t| <= TOKEN_MAX && t != ""
    requires !((t[0] == 'e' || t[0] == 'E') && |t| > 1 && (t[1] == '+' || t[1] == '-'))
    ensures LiteralTail(t[1..], digits || IsDigit(t[0]))
    ensures IsDigit(t[0]) || t[0] == '.' || t[0] == 'e' || t[0] == 'E'
    ensures Scan(t + rest, token, digits, isFloat) ==
            Scan(t[1..] + rest, token + [t[0]], digits || IsDigit(t[0]), isFloat || !IsDigit(t[0]))
  {
    var s := t + rest;
    assert s[1..] == t[1..] + rest;
    if (t[0] == 'e' || t[0] == 'E') && |t| == 1 {
      assert s[1..] == rest;
    }
  }

  // ------------------------------------------------------------------
  // Values
  // ------------------------------------------------------------------

  /** What follows a value in the writer's output: the end of its line, or more of an array. */
  predicate EndsValue(rest: string) { rest != "" ==> rest[0] == '\n' || rest[0] == ',' || rest[0] == ']' }

  lemma NumberFirst(libc: Libc, s: string, l: nat)
    requires s != "" && (IsDigit(s[0]) || s[0] == '-' || s[0] == '.')
    ensures ReadValue(libc, Pos(s, l)) == Number(libc, Pos(s, l))
  {
    PrefixFirst("true", s);
    PrefixFirst("false", s);
  }

  lemma PrefixFirst(w: string, s: string)
    ensures w != "" && w <= s ==> s != "" && s[0] == w[0]
  {
  }

  predicate Unsigned(t: string) { t != "" && t[0] != '+' && t[0] != '-' }

  /** Scanning an optional minus sign and t. */
  function ScanSigned(negative: bool, t: string): Scanned {
    if negative then Scan(t, "-", false, false) else Scan(t, "", false, false)
  }

  function Signed(negative: bool, t: string): string { if negative then "-" + t else t }

  lemma NumberSigned(libc: Libc, negative: bool, t: string, rest: string, l: nat)
    requires Unsigned(t)
    requires var n := ScanSigned(negative, t + rest);
             n.digits && n.rest == rest && n.token == Signed(negative, t)
    ensures var isFloat := ScanSigned(negative, t + rest).isFloat;
            Number(libc, Pos(Signed(negative, t) + rest, l)) ==
            if isFloat then
              var d := libc.strtod(Signed(negative, t));
              if d.Some? then Ok(Float(d.value), Pos(rest, l)) else Err(InvalidFloat, l)
            else
              var i := Strtoll(Signed(negative, t));
              if i.Some? then Ok(Int(i.value), Pos(rest, l)) else Err(InvalidInteger, l)
  {
    hide Scan, Strtoll;
    var text := Signed(negative, t) + rest;
    if negative {
      assert text[1..] == t + rest;
      assert [text[0]] == "-";
    } else {
      assert text[0] == t[0];
    }
  }

  lemma IntTextRead(i: int)
    requires InRange(i)
    ensures Strtoll(IntText(i)) == Some(i)
  {
    var n := if i < 0 then -i else i;
    DigitsRead(n);
    if i < 0 {
      assert IntText(i)[1..] == Digits(n);
    }
  }

  lemma IntRead(libc: Libc, i: int, rest: string, l: nat)
    requires InRange(i) && EndsValue(rest)
    ensures ReadValue(libc, Pos(IntText(i) + rest, l)) == Ok(Int(i), Pos(rest, l))
  {
    hide Scan, Strtoll, ReadValue, Number, Digits, DigitsValue, IntText;
    var digits := Digits(if i < 0 then -i else i);
    IntTextSigned(i);
    IntScan(i, rest);
    NumberSigned(libc, i < 0, digits, rest, l);
    IntTextRead(i);
    NumberFirst(libc, IntText(i) + rest, l);
  }

  lemma IntTextSigned(i: int)
    requires InRange(i)
    ensures var digits := Digits(if i < 0 then -i else i);
            && IntText(i) == Signed(i < 0, digits)
            && AllDigits(digits) && 0 < |digits| <= 19 && Unsigned(digits)
  {
    var n := if i < 0 then -i else i;
    DigitsRead(n);
    DigitsFit(n);
    hide Digits, DigitsValue;
    assert Digits(n)[0] in Digits(n);
  }

  lemma IntScan(i: int, rest: string)
    requires InRange(i) && EndsValue(rest)
    ensures ScanSigned(i < 0, Digits(if i < 0 then -i else i) + rest) == Scanned(rest, IntText(i), true, false)
  {
    hide Scan, Digits, DigitsValue, IntText;
    IntTextSigned(i);
    var digits := Digits(if i < 0 then -i else i);
    assert "" + digits == digits;
    ScanDigits(digits, if i < 0 then "-" else "", false, rest);
  }

  /** The literal without its sign. */
  function Magnitude(text: string): string { if Peek(text, '-') then text[1..] else text }

  lemma LiteralSplit(text: string)
    requires FloatLiteral(text)
    ensures var t := Magnitude(text);
            text != "" && text == Signed(text[0] == '-', t) && LiteralTail(t, false) && Marked(t) && Unsigned(t)
  {
    var t := Magnitude(text);
    if text[0] == '-' {
      assert text == "-" + t;
    }
    assert forall c :: c in text && c != '-' ==> c in t;
  }

  lemma LiteralFirst(text: string)
    requires FloatLiteral(text)
    ensures IsDigit(text[0]) || text[0] == '-' || text[0] == '.'
  {
  }

  /** What a written scalar becomes: a float becomes the number its text stands for. */
  function Reread(libc: Libc, v: Value): Value {
    match v
    case Float(d) => (match libc.strtod(FloatText(libc, d)) case Some(e) => Float(e) case None => v)
    case _ => v
  }

  lemma SignedLiteralScan(negative: bool, t: string, rest: string)
    requires LiteralTail(t, false) && Marked(t) && EndsNumber(rest) && |Signed(negative, t)| <= TOKEN_MAX
    ensures ScanSigned(negative, t + rest) == Scanned(rest, Signed(negative, t), true, true)
  {
    hide Scan, LiteralTail, Marked;
    ScanLiteral(t, if negative then "-" else "", false, false, rest);
    assert "" + t == t;
  }

  lemma FloatRead(libc: Libc, d: real, rest: string, l: nat)
    requires Printable(libc, d) && EndsValue(rest)
    ensures ReadValue(libc, Pos(FloatText(libc, d) + rest, l)) == Ok(Reread(libc, Float(d)), Pos(rest, l))
  {
    hide Scan, ScanSigned, ReadValue, Number, LiteralTail, Marked, FloatLiteral, FloatText, Unsigned, Signed, Magnitude;
    var text := FloatText(libc, d);
    LiteralSplit(text);
    var negative, t := text[0] == '-', Magnitude(text);
    SignedLiteralScan(negative, t, rest);
    NumberSigned(libc, negative, t, rest, l);
    LiteralFirst(text);
    NumberFirst(libc, text + rest, l);
  }

  predicate Solid(s: string) { s == "" || (!IsBlank(s[0]) && s[0] != '#' && s[0] != '\n') }

  lemma SkipNothing(at: Pos)
    requires Solid(at.rest)
    ensures SkipWs(at) == at
  {
  }

  lemma SkipSpace(rest: string, l: nat)
    requires Solid(rest)
    ensures SkipWs(Pos(" " + rest, l)) == Pos(rest, l)
  {
    assert (" " + rest)[1..] == rest;
    assert SkipBlanks(rest) == rest;
    assert SkipBlanks(" " + rest) == rest;
  }

  ghost predicate StringsOnly(items: seq<Value>) {
    forall k :: 0 <= k < |items| ==> items[k].Str? && NulFree(items[k].s)
  }

  lemma ItemRead(at: Pos, s: string, rest: string)
    requires NulFree(s)
    requires SkipWs(at) == Pos(Quoted(s) + rest, at.line)
    requires Peek(rest, ',') || Peek(rest, ']')
    ensures var next := Pos(rest[1..], at.line);
            ArrayItems(at) == if rest[0] == ']' then Ok([Str(s)], next) else Prefixed([Str(s)], ArrayItems(next))
  {
    hide SkipWs, QuotedString, ArrayItems, EscapedAll;
    QuotedRead(s, rest, at.line);
    SkipNothing(Pos(rest, at.line));
    PrefixedItem([], Str(s), at);
    PrefixedByNone(ArrayItems(at));
    assert [] + [Str(s)] == [Str(s)];
  }

  lemma ItemsSplit(libc: Libc, items: seq<Value>, rest: string)
    requires items != []
    ensures ItemsText(libc, items) + rest == ValueText(libc, items[0]) + (MoreItems(libc, items[1..]) + rest)
    ensures |items| == 1 ==> MoreItems(libc, items[1..]) + rest == rest
    ensures |items| > 1 ==>
              MoreItems(libc, items[1..]) + rest == "," + (" " + (ItemsText(libc, items[1..]) + rest))
  {
    Assoc(ValueText(libc, items[0]), MoreItems(libc, items[1..]), rest);
    if |items| > 1 {
      var tail := items[1..];
      assert ", " == "," + " ";
      Assoc(", ", ValueText(libc, tail[0]), MoreItems(libc, tail[1..]));
      Assoc(", ", ItemsText(libc, tail), rest);
      Assoc(",", " ", ItemsText(libc, tail) + rest);
    }
  }

  /** The items of an array, with or without a blank before the first one. */
  lemma {:induction false} ItemsRead(libc: Libc, items: seq<Value>, rest: string, l: nat)
    requires items != [] && StringsOnly(items)
    ensures var text := ItemsText(libc, items) + ("]" + rest);
            ArrayItems(Pos(" " + text, l)) == Ok(items, Pos(rest, l)) &&
            ArrayItems(Pos(text, l)) == Ok(items, Pos(rest, l))
    decreases |items|
  {
    hide ArrayItems, SkipWs, MoreItems, ItemsText, EscapedAll;
    var end := "]" + rest;
    var s, text, after := items[0].s, ItemsText(libc, items) + end, MoreItems(libc, items[1..]) + end;
    ItemsSplit(libc, items, end);
    SkipNothing(Pos(text, l));
    SkipSpace(text, l);
    ItemRead(Pos(text, l), s, after);
    ItemRead(Pos(" " + text, l), s, after);
    if |items| > 1 {
      var tail := items[1..];
      assert after[1..] == " " + (ItemsText(libc, tail) + end);
      ItemsRead(libc, tail, rest, l);
      assert [Str(s)] + tail == items;
    } else {
      assert after[1..] == rest;
      assert [Str(s)] == items;
    }
  }

  lemma ArrayRead(libc: Libc, items: seq<Value>, rest: string, l: nat)
    requires StringsOnly(items)
    ensures ReadValue(libc, Pos(ValueText(libc, Arr(items)) + rest, l)) == Ok(Arr(items), Pos(rest, l))
  {
    hide ArrayItems, ItemsText;
    var body := ItemsText(libc, items);
    var text := ValueText(libc, Arr(items)) + rest;
    assert text[1..] == body + ("]" + rest);
    if items == [] {
      EmptyRead(libc, rest, l);
    } else {
      ItemsRead(libc, items, rest, l);
    }
  }

  lemma EmptyRead(libc: Libc, rest: string, l: nat)
    ensures ArrayItems(Pos(ItemsText(libc, []) + ("]" + rest), l)) == Ok([], Pos(rest, l))
  {
    assert ItemsText(libc, []) + ("]" + rest) == "]" + rest;
    assert ("]" + rest)[1..] == rest;
    SkipNothing(Pos("]" + rest, l));
  }

  lemma BoolRead(libc: Libc, b: bool, rest: string, l: nat)
    requires EndsValue(rest)
    ensures ReadValue(libc, Pos(ValueText(libc, Bool(b)) + rest, l)) == Ok(Bool(b), Pos(rest, l))
  {
    var word := ValueText(libc, Bool(b));
    var text := word + rest;
    assert text[|word|..] == rest;
    assert word <= text;
    if !b {
      assert text[0] == 'f';
    }
  }

  /** A written value is read back as itself, up to the precision of its text. */
  lemma ValueRead(libc: Libc, v: Value, rest: string, l: nat)
    requires Writable(libc, v) && !v.Table? && EndsValue(rest)
    ensures ReadValue(libc, Pos(ValueText(libc, v) + rest, l)) == Ok(Reread(libc, v), Pos(rest, l))
  {
    hide EscapedAll, ArrayItems, ItemsText, MoreItems, Digits, LiteralTail, Scan, QuotedString, FloatText;
    match v
    case Str(s) => QuotedRead(s, rest, l);
    case Int(i) => IntRead(libc, i, rest, l);
    case Float(d) => FloatRead(libc, d, rest, l);
    case Bool(b) => BoolRead(libc, b, rest, l);
    case Arr(items) => ArrayRead(libc, items, rest, l);
  }

  lemma ValueSolid(libc: Libc, v: Value)
    requires Writable(libc, v) && !v.Table?
    ensures ValueText(libc, v) != "" && Solid(ValueText(libc, v))
  {
    match v
    case Int(i) =>
      var n := if i < 0 then -i else i;
      DigitsRead(n);
      assert Digits(n)[0] in Digits(n);
    case Float(d) => assert FloatText(libc, d) != "";
    case _ =>
  }

  // ------------------------------------------------------------------
  // Lines
  // ------------------------------------------------------------------

  lemma SkipNewline(rest: string, l: nat)
    ensures SkipWs(Pos("\n" + rest, l)) == SkipWs(Pos(rest, l + 1))
  {
    assert ("\n" + rest)[1..] == rest;
    assert SkipBlanks("\n" + rest) == "\n" + rest;
  }

  /** Leading newlines only count lines. */
  lemma DocumentNewline(libc: Libc, rest: string, l: nat, scope: Scope)
    ensures Document(libc, Pos("\n" + rest, l), scope) == Document(libc, Pos(rest, l + 1), scope)
  {
    hide SkipWs;
    SkipNewline(rest, l);
  }

  lemma LineSplit(libc: Libc, m: Member, rest: string)
    ensures ScalarLine(libc, m) + rest ==
            KeyText(m.key) + (" " + ("=" + (" " + (ValueText(libc, m.val) + ("\n" + rest)))))
  {
    hide KeyText, ValueText;
    var k, v := KeyText(m.key), ValueText(libc, m.val);
    assert " = " == " " + ("=" + " ");
    assert ScalarLine(libc, m) + rest == k + (" = " + (v + ("\n" + rest)));
    assert " = " + (v + ("\n" + rest)) == " " + ("=" + (" " + (v + ("\n" + rest))));
  }

  lemma KeyAlone(key: string, rest: string, l: nat)
    requires NulFree(key)
    ensures KeyPath(Pos(KeyText(key) + (" " + rest), l)) == Ok([key], Pos(" " + rest, l))
  {
    hide KeySegment, KeyPath, KeyText;
    KeyRead(key, " " + rest, l);
    KeyPathStep(Pos(KeyText(key) + (" " + rest), l), key, Pos(" " + rest, l));
  }

  /** A written scalar line adds its member to the current table. */
  lemma LineRead(libc: Libc, m: Member, w: Value, rest: string, l: nat, scope: Scope)
    requires NulFree(m.key) && Writable(libc, m.val) && !m.val.Table? && w == Reread(libc, m.val)
    requires At(scope.root, scope.cur).Some? && AddAt(scope.root, scope.cur, m.key, w).Some?
    ensures KeyLine(libc, Pos(ScalarLine(libc, m) + rest, l), scope) ==
            Ok(Scope(AddAt(scope.root, scope.cur, m.key, w).value, scope.cur), Pos("\n" + rest, l))
  {
    hide KeyPath, SkipWs, ReadValue, Enter, AddAt, ScalarLine, KeyText, ValueText, At, Reread;
    var end := "\n" + rest;
    var value := ValueText(libc, m.val) + end;
    var eq := "=" + (" " + value);
    LineSplit(libc, m, rest);
    KeyAlone(m.key, eq, l);
    SkipSpace(eq, l);
    assert eq[1..] == " " + value;
    ValueSolid(libc, m.val);
    SkipSpace(value, l);
    assert [m.key][..0] == [];
    assert scope.cur + [] == scope.cur;
    EnterExisting(scope.root, scope.cur);
    ValueRead(libc, m.val, end, l);
    assert SkipLineEnd(Pos(end, l)) == Some(Pos(end, l));
  }

  lemma KeySolid(key: string)
    ensures KeyText(key) != "" && Solid(KeyText(key)) && KeyText(key)[0] != '['
  {
  }

  lemma DocumentLine(libc: Libc, m: Member, w: Value, rest: string, l: nat, scope: Scope)
    requires NulFree(m.key) && Writable(libc, m.val) && !m.val.Table? && w == Reread(libc, m.val)
    requires At(scope.root, scope.cur).Some? && AddAt(scope.root, scope.cur, m.key, w).Some?
    ensures Document(libc, Pos(ScalarLine(libc, m) + rest, l), scope) ==
            Document(libc, Pos(rest, l + 1), Scope(AddAt(scope.root, scope.cur, m.key, w).value, scope.cur))
  {
    hide KeyLine, SkipWs, Document, AddAt, At, ValueText, KeyText, Reread;
    var here := Pos(ScalarLine(libc, m) + rest, l);
    KeySolid(m.key);
    assert here.rest[0] == KeyText(m.key)[0];
    SkipNothing(here);
    DocumentStep(libc, here, scope);
    LineRead(libc, m, w, rest, l, scope);
    DocumentNewline(libc, rest, l, Scope(AddAt(scope.root, scope.cur, m.key, w).value, scope.cur));
  }

  /** A written header enters its table. */
  lemma DocumentHeader(libc: Libc, path: Path, rest: string, l: nat, scope: Scope)
    requires path != [] && NulFreePath(path) && Enter(scope.root, path).Some?
    ensures Document(libc, Pos(Header(path) + rest, l), scope) ==
            Document(libc, Pos(rest, l + 1), Scope(Enter(scope.root, path).value, path))
  {
    hide KeyPath, SkipWs, Document, Enter, PathText;
    var here := Pos(Header(path) + rest, l);
    var end := "\n" + rest;
    assert here.rest[1..] == PathText(path) + ("]" + end);
    PathRead(path, "]" + end, l);
    assert ("]" + end)[1..] == end;
    assert SkipLineEnd(Pos(end, l)) == Some(Pos(end, l));
    SkipNothing(here);
    DocumentStep(libc, here, scope);
    DocumentNewline(libc, rest, l, Scope(Enter(scope.root, path).value, path));
  }

  lemma DocumentOpening(libc: Libc, path: Path, nl: bool, rest: string, l: nat, scope: Scope) returns (l': nat)
    requires path != [] && NulFreePath(path) && Enter(scope.root, path).Some?
    ensures Document(libc, Pos(Opening(path, nl) + rest, l), scope) ==
            Document(libc, Pos(rest, l'), Scope(Enter(scope.root, path).value, path))
  {
    hide Document, Enter, Header;
    if nl {
      assert Opening(path, nl) + rest == "\n" + (Header(path) + rest);
      DocumentNewline(libc, Header(path) + rest, l, scope);
      l' := l + 2;
      DocumentHeader(libc, path, rest, l + 1, scope);
    } else {
      assert Opening(path, nl) == Header(path);
      l' := l + 1;
      DocumentHeader(libc, path, rest, l, scope);
    }
  }

  // ------------------------------------------------------------------
  // Tables
  // ------------------------------------------------------------------

  /** None of the scalars, or none of the sub-tables, of ms is in t yet. */
  ghost predicate NotYet(t: Members, ms: Members, tables: bool) {
    forall i :: 0 <= i < |ms| && ms[i].val.Table? == tables ==> Get(t, ms[i].key).None?
  }

  lemma NotYetNext(t: Members, m: Member, ms: Members, tables: bool)
    requires ms != [] && Unique(ms) && NotYet(t, ms, tables) && m.key == ms[0].key
    ensures Unique(ms[1..]) && NotYet(t + [m], ms[1..], tables)
  {
    var tail := ms[1..];
    forall i | 0 <= i < |tail| && tail[i].val.Table? == tables ensures Get(t + [m], tail[i].key).None? {
      assert tail[i] == ms[i + 1];
      GetAppend(t, m, tail[i].key);
    }
  }

  lemma NotYetSkip(t: Members, ms: Members, tables: bool)
    requires ms != [] && Unique(ms) && NotYet(t, ms, tables)
    ensures Unique(ms[1..]) && NotYet(t, ms[1..], tables)
  {
    forall i | 0 <= i < |ms[1..]| && ms[1..][i].val.Table? == tables ensures Get(t, ms[1..][i].key).None? {
      assert ms[1..][i] == ms[i + 1];
    }
  }

  /** The scalars of a table as they are read back. */
  function RereadScalars(libc: Libc, ms: Members): Members {
    if ms == [] then []
    else
      (if ms[0].val.Table? then [] else [Member(ms[0].key, Reread(libc, ms[0].val))]) + RereadScalars(libc, ms[1..])
  }

  /** The sub-tables of a table as they are read back. */
  function RereadTables(libc: Libc, ms: Members): Members
    decreases ms, 0
  {
    if ms == [] then []
    else
      match ms[0].val
      case Table(sub) => [Member(ms[0].key, Table(RereadTree(libc, sub)))] + RereadTables(libc, ms[1..])
      case _ => RereadTables(libc, ms[1..])
  }

  /** The tree that the writer's text stands for. */
  function RereadTree(libc: Libc, ms: Members): Members
    decreases ms, 1
  {
    RereadScalars(libc, ms) + RereadTables(libc, ms)
  }

  lemma {:induction false} ScalarKey(libc: Libc, ms: Members, key: string)
    requires Get(RereadScalars(libc, ms), key).Some?
    ensures exists i :: 0 <= i < |ms| && ms[i].key == key && !ms[i].val.Table?
  {
    if !ms[0].val.Table? && ms[0].key == key {
    } else {
      var s := RereadScalars(libc, ms[1..]);
      if !ms[0].val.Table? {
        assert RereadScalars(libc, ms)[1..] == s;
      } else {
        assert RereadScalars(libc, ms) == s;
      }
      ScalarKey(libc, ms[1..], key);
      var i :| 0 <= i < |ms[1..]| && ms[1..][i].key == key && !ms[1..][i].val.Table?;
      assert ms[i + 1].key == key;
    }
  }

  lemma ScalarsAndTablesApart(libc: Libc, ms: Members)
    requires Unique(ms)
    ensures NotYet(RereadScalars(libc, ms), ms, true)
  {
    forall i | 0 <= i < |ms| && ms[i].val.Table? ensures Get(RereadScalars(libc, ms), ms[i].key).None? {
      if Get(RereadScalars(libc, ms), ms[i].key).Some? {
        ScalarKey(libc, ms, ms[i].key);
        assert false;
      }
    }
  }

  lemma ScalarsSplit(libc: Libc, ms: Members, rest: string, t: Members)
    ensures ms == [] ==> ScalarLines(libc, ms) + rest == rest && t + RereadScalars(libc, ms) == t
    ensures ms != [] && ms[0].val.Table? ==>
              && ScalarLines(libc, ms) == ScalarLines(libc, ms[1..])
              && RereadScalars(libc, ms) == RereadScalars(libc, ms[1..])
    ensures ms != [] && !ms[0].val.Table? ==>
              && ScalarLines(libc, ms) + rest == ScalarLine(libc, ms[0]) + (ScalarLines(libc, ms[1..]) + rest)
              && t + RereadScalars(libc, ms) ==
                 t + [Member(ms[0].key, Reread(libc, ms[0].val))] + RereadScalars(libc, ms[1..])
  {
    if ms != [] && !ms[0].val.Table? {
      Assoc(ScalarLine(libc, ms[0]), ScalarLines(libc, ms[1..]), rest);
      assert RereadScalars(libc, ms) == [Member(ms[0].key, Reread(libc, ms[0].val))] + RereadScalars(libc, ms[1..]);
    }
  }

  /** The scalar lines of a table add its scalars. */
  lemma {:induction false} ScalarsRead(libc: Libc, ms: Members, rest: string, l: nat, root: Members, cur: Path,
                                       t: Members) returns (l': nat)
    requires At(root, cur) == Some(t)
    requires Unique(ms) && WritableMembers(libc, ms) && NotYet(t, ms, false)
    ensures Document(libc, Pos(ScalarLines(libc, ms) + rest, l), Scope(root, cur)) ==
            Document(libc, Pos(rest, l'), Scope(Put(root, cur, t + RereadScalars(libc, ms)), cur))
    decreases |ms|
  {
    hide Document, Put, At, ScalarLine, ScalarLines, RereadScalars, Reread;
    ScalarsSplit(libc, ms, rest, t);
    if ms == [] {
      l' := l;
      PutSame(root, cur);
    } else {
      var m, tail := ms[0], ms[1..];
      if m.val.Table? {
        NotYetSkip(t, ms, false);
        l' := ScalarsRead(libc, tail, rest, l, root, cur, t);
      } else {
        var w := Reread(libc, m.val);
        var t1 := t + [Member(m.key, w)];
        assert AddAt(root, cur, m.key, w) == Some(Put(root, cur, t1));
        DocumentLine(libc, m, w, ScalarLines(libc, tail) + rest, l, Scope(root, cur));
        AtPut(root, cur, t1);
        NotYetNext(t, Member(m.key, w), ms, false);
        l' := ScalarsRead(libc, tail, rest, l + 1, Put(root, cur, t1), cur, t1);
        PutPut(root, cur, t1, t1 + RereadScalars(libc, tail));
      }
    }
  }

  /** Filling a table that has just been added empty. */
  lemma NewTableFilled(root: Members, path: Path, t: Members, key: string, x: Members)
    requires At(root, path) == Some(t) && Get(t, key).None?
    ensures var root1 := Put(root, path, t + [Member(key, Table([]))]);
            && Enter(root, path + [key]) == Some(root1)
            && At(root1, path + [key]) == Some([])
            && Put(root1, path + [key], x) == Put(root, path, t + [Member(key, Table(x))])
  {
    hide At, Put;
    var t1 := t + [Member(key, Table([]))];
    var root1 := Put(root, path, t1);
    EnterNew(root, path, key);
    AtPut(root, path, t1);
    GetAppend(t, Member(key, Table([])), key);
    PutDeeper(root1, path, key, x);
    SetValLast(t, key, Table([]), Table(x));
    PutPut(root, path, t1, t + [Member(key, Table(x))]);
  }

  lemma SubTablesNone(libc: Libc, path: Path, nl: bool, rest: string, t: Members)
    ensures SubTables(libc, [], path, nl) == Some([]) && [] + rest == rest && t + RereadTables(libc, []) == t
  {
  }

  lemma SubTablesSkip(libc: Libc, ms: Members, path: Path, nl: bool)
    requires ms != [] && !ms[0].val.Table?
    ensures SubTables(libc, ms, path, nl) == SubTables(libc, ms[1..], path, nl)
    ensures RereadTables(libc, ms) == RereadTables(libc, ms[1..])
  {
  }

  lemma SubTablesSplit(libc: Libc, ms: Members, path: Path, nl: bool, rest: string, t: Members)
    requires ms != [] && ms[0].val.Table? && SubTables(libc, ms, path, nl).Some?
    ensures var m, p := ms[0], path + [ms[0].key];
            var sub, more := TableText(libc, m.val.members, p), SubTables(libc, ms[1..], path, true);
            && sub.Some? && more.Some?
            && SubTables(libc, ms, path, nl).value + rest == Opening(p, nl) + (sub.value + (more.value + rest))
            && t + RereadTables(libc, ms) ==
               t + [Member(m.key, Table(RereadTree(libc, m.val.members)))] + RereadTables(libc, ms[1..])
  {
    hide *;
    var p := path + [ms[0].key];
    SubTablesHead(libc, ms, path, nl);
    RereadHead(libc, ms);
    var sub, more := TableText(libc, ms[0].val.members, p).value, SubTables(libc, ms[1..], path, true).value;
    Assoc(Opening(p, nl) + sub, more, rest);
    Assoc(Opening(p, nl), sub, more + rest);
    Assoc(t, [Member(ms[0].key, Table(RereadTree(libc, ms[0].val.members)))], RereadTables(libc, ms[1..]));
  }

  lemma SubTablesHead(libc: Libc, ms: Members, path: Path, nl: bool)
    requires ms != [] && ms[0].val.Table? && SubTables(libc, ms, path, nl).Some?
    ensures var p := path + [ms[0].key];
            var sub, more := TableText(libc, ms[0].val.members, p), SubTables(libc, ms[1..], path, true);
            && sub.Some? && more.Some?
            && SubTables(libc, ms, path, nl).value == Opening(p, nl) + sub.value + more.value
  {
    hide Opening;
  }

  lemma RereadHead(libc: Libc, ms: Members)
    requires ms != [] && ms[0].val.Table?
    ensures RereadTables(libc, ms) ==
            [Member(ms[0].key, Table(RereadTree(libc, ms[0].val.members)))] + RereadTables(libc, ms[1..])
  {
  }

  /** The sub-tables of a table add themselves in normal form. */
  lemma {:induction false} SubTablesRead(libc: Libc, ms: Members, path: Path, nl: bool, rest: string, l: nat,
                                         root: Members, cur: Path, t: Members) returns (l': nat, cur': Path)
    requires At(root, path) == Some(t) && NulFreePath(path)
    requires Unique(ms) && WritableMembers(libc, ms) && NotYet(t, ms, true)
    requires SubTables(libc, ms, path, nl).Some?
    ensures Document(libc, Pos(SubTables(libc, ms, path, nl).value + rest, l), Scope(root, cur)) ==
            Document(libc, Pos(rest, l'), Scope(Put(root, path, t + RereadTables(libc, ms)), cur'))
    decreases ms, 0
  {
    hide Document, Put, At, Enter, Opening, TableText, RereadTree, SubTables, RereadTables;
    if ms == [] {
      SubTablesNone(libc, path, nl, rest, t);
      l', cur' := l, cur;
      PutSame(root, path);
    } else {
      var key, v, tail := ms[0].key, ms[0].val, ms[1..];
      if v.Table? {
        SubTablesSplit(libc, ms, path, nl, rest, t);
        var sub := v.members;
        var body, more := TableText(libc, sub, path + [key]).value, SubTables(libc, tail, path, true).value;
        NewTableFilled(root, path, t, key, RereadTree(libc, sub));
        var root1 := Put(root, path, t + [Member(key, Table([]))]);
        var l1 := DocumentOpening(libc, path + [key], nl, body + (more + rest), l, Scope(root, cur));
        var l2, cur2 := TableRead(libc, sub, path + [key], more + rest, l1, root1);
        var m := Member(key, Table(RereadTree(libc, sub)));
        AtPut(root, path, t + [m]);
        NotYetNext(t, m, ms, true);
        l', cur' := SubTablesRead(libc, tail, path, true, rest, l2, Put(root, path, t + [m]), cur2, t + [m]);
        PutPut(root, path, t + [m], t + [m] + RereadTables(libc, tail));
      } else {
        SubTablesSkip(libc, ms, path, nl);
        NotYetSkip(t, ms, true);
        l', cur' := SubTablesRead(libc, tail, path, nl, rest, l, root, cur, t);
      }
    }
  }

  /** The text of a table, read under its header, fills the table with its normal form. */
  lemma {:induction false} TableRead(libc: Libc, ms: Members, path: Path, rest: string, l: nat, root: Members)
    returns (l': nat, cur': Path)
    requires At(root, path) == Some([]) && NulFreePath(path)
    requires WritableTable(libc, ms) && TableText(libc, ms, path).Some?
    ensures Document(libc, Pos(TableText(libc, ms, path).value + rest, l), Scope(root, path)) ==
            Document(libc, Pos(rest, l'), Scope(Put(root, path, RereadTree(libc, ms)), cur'))
    decreases ms, 1
  {
    hide Document, Put, At;
    var subs := SubTables(libc, ms, path, ScalarsOf(ms) != []).value;
    Assoc(ScalarLines(libc, ms), subs, rest);
    var l1 := ScalarsRead(libc, ms, subs + rest, l, root, path, []);
    var scalars := RereadScalars(libc, ms);
    assert [] + scalars == scalars;
    AtPut(root, path, scalars);
    ScalarsAndTablesApart(libc, ms);
    l', cur' := SubTablesRead(libc, ms, path, ScalarsOf(ms) != [], rest, l1, Put(root, path, scalars), path, scalars);
    PutPut(root, path, scalars, RereadTree(libc, ms));
  }

  /** Parsing what toml_dumps wrote succeeds, and gives the tree that the text stands for. */
  lemma DumpsRead(libc: Libc, ms: Members)
    requires WritableTable(libc, ms)
    requires Dumps(libc, Table(ms)).Some?
    ensures var o := Parse(libc, Dumps(libc, Table(ms)).value);
            o.Ok? && o.value == RereadTree(libc, ms)
  {
    hide Document, TableText, RereadTree;
    var text := TableText(libc, ms, []).value;
    var l, cur := TableRead(libc, ms, [], "", 1, []);
    assert text + "" == text;
    DocumentEnd(libc, l, Scope(RereadTree(libc, ms), cur));
  }

  /** Every float of the tree has an exact text. */
  predicate ExactTree(libc: Libc, ms: Members)
    decreases ms
  {
    ms == [] ||
    ((match ms[0].val
      case Float(d) => Exact(libc, d)
      case Table(sub) => ExactTree(libc, sub)
      case _ => true) &&
     ExactTree(libc, ms[1..]))
  }

  lemma ScalarReread(libc: Libc, v: Value)
    requires Writable(libc, v) && !v.Table?
    ensures Reread(libc, v) == v <==> (v.Float? ==> Exact(libc, v.d))
  {
  }

  lemma {:induction false} PartsReread(libc: Libc, ms: Members)
    requires WritableMembers(libc, ms)
    ensures |RereadScalars(libc, ms)| == |ScalarsOf(ms)|
    ensures RereadScalars(libc, ms) == ScalarsOf(ms) && RereadTables(libc, ms) == TablesOf(ms) <==>
            ExactTree(libc, ms)
    decreases ms, 0
  {
    hide RereadTree, Normal, Exact, Reread, FloatText;
    if ms != [] {
      var key, v, tail := ms[0].key, ms[0].val, ms[1..];
      PartsReread(libc, tail);
      if v.Table? {
        var sub := v.members;
        assert Writable(libc, v);
        TreeReread(libc, sub);
        assert RereadTables(libc, ms) == [Member(key, Table(RereadTree(libc, sub)))] + RereadTables(libc, tail);
        assert TablesOf(ms) == [Member(key, Table(Normal(sub)))] + TablesOf(tail);
        assert RereadTables(libc, ms)[1..] == RereadTables(libc, tail) && TablesOf(ms)[1..] == TablesOf(tail);
        assert RereadScalars(libc, ms) == RereadScalars(libc, tail) && ScalarsOf(ms) == ScalarsOf(tail);
      } else {
        ScalarReread(libc, v);
        assert RereadScalars(libc, ms) == [Member(key, Reread(libc, v))] + RereadScalars(libc, tail);
        assert ScalarsOf(ms) == [Member(key, v)] + ScalarsOf(tail);
        assert RereadScalars(libc, ms)[1..] == RereadScalars(libc, tail) && ScalarsOf(ms)[1..] == ScalarsOf(tail);
        assert RereadTables(libc, ms) == RereadTables(libc, tail) && TablesOf(ms) == TablesOf(tail);
      }
    }
  }

  lemma {:induction false} TreeReread(libc: Libc, ms: Members)
    requires WritableMembers(libc, ms)
    ensures RereadTree(libc, ms) == Normal(ms) <==> ExactTree(libc, ms)
    decreases ms, 1
  {
    PartsReread(libc, ms);
    var n := |ScalarsOf(ms)|;
    assert Normal(ms)[..n] == ScalarsOf(ms) && Normal(ms)[n..] == TablesOf(ms);
    assert RereadTree(libc, ms)[..n] == RereadScalars(libc, ms) && RereadTree(libc, ms)[n..] == RereadTables(libc, ms);
  }

  /** Parsing what toml_dumps wrote gives back the tree in normal form exactly when the 15-digit text
      of every float in it is exact. */
  lemma RoundTrip(libc: Libc, ms: Members)
    requires WritableTable(libc, ms)
    requires Dumps(libc, Table(ms)).Some?
    ensures var o := Parse(libc, Dumps(libc, Table(ms)).value);
            o.Ok? && (o.value == Normal(ms) <==> ExactTree(libc, ms))
  {
    hide Parse, Dumps, RereadTree, Normal;
    DumpsRead(libc, ms);
    TreeReread(libc, ms);
  }

  lemma DocumentEnd(libc: Libc, l: nat, scope: Scope)
    ensures Document(libc, Pos("", l), scope) == Ok(scope.root, Pos("", l))
  {
  }

  // ------------------------------------------------------------------
  // The normal form
  // ------------------------------------------------------------------

  lemma SplitStep(m: Member, ms: Members)
    ensures ScalarsOf([m] + ms) == (if m.val.Table? then [] else [m]) + ScalarsOf(ms)
    ensures TablesOf([m] + ms) ==
            (if m.val.Table? then [Member(m.key, Table(Normal(m.val.members)))] else []) + TablesOf(ms)
  {
    var all := [m] + ms;
    assert all[0] == m && all[1..] == ms;
  }

  lemma {:induction false} SplitAppend(a: Members, b: Members)
    ensures ScalarsOf(a + b) == ScalarsOf(a) + ScalarsOf(b)
    ensures TablesOf(a + b) == TablesOf(a) + TablesOf(b)
  {
    if a == [] {
      assert a + b == b;
      assert [] + ScalarsOf(b) == ScalarsOf(b) && [] + TablesOf(b) == TablesOf(b);
    } else {
      hide ScalarsOf, TablesOf, Normal;
      var m, tail := a[0], a[1..];
      assert a == [m] + tail && a + b == [m] + (tail + b);
      SplitAppend(tail, b);
      SplitStep(m, tail);
      SplitStep(m, tail + b);
    }
  }

  lemma {:induction false} SplitScalars(ms: Members)
    ensures ScalarsOf(ScalarsOf(ms)) == ScalarsOf(ms) && TablesOf(ScalarsOf(ms)) == []
  {
    if ms != [] {
      SplitScalars(ms[1..]);
      if !ms[0].val.Table? {
        assert ScalarsOf(ms)[1..] == ScalarsOf(ms[1..]);
      } else {
        assert ScalarsOf(ms) == ScalarsOf(ms[1..]);
      }
    }
  }

  lemma {:induction false} SplitTables(ms: Members)
    ensures ScalarsOf(TablesOf(ms)) == [] && TablesOf(TablesOf(ms)) == TablesOf(ms)
    decreases ms, 0
  {
    if ms != [] {
      SplitTables(ms[1..]);
      match ms[0].val
      case Table(sub) =>
        NormalTwice(sub);
        assert TablesOf(ms)[1..] == TablesOf(ms[1..]);
      case _ =>
    }
  }

  /** A second round trip changes nothing. */
  lemma {:induction false} NormalTwice(ms: Members)
    ensures Normal(Normal(ms)) == Normal(ms)
    decreases ms, 1
  {
    var s, t := ScalarsOf(ms), TablesOf(ms);
    SplitAppend(s, t);
    SplitScalars(ms);
    SplitTables(ms);
    assert s + [] == s && [] + t == t;
  }

  // ------------------------------------------------------------------
  // Lookups after a round trip
  // ------------------------------------------------------------------

  function RereadValue(libc: Libc, v: Value): Value {
    if v.Table? then Table(RereadTree(libc, v.members)) else Reread(libc, v)
  }

  lemma {:induction false} GetRereadParts(libc: Libc, ms: Members, key: string)
    requires Unique(ms)
    ensures var v := Get(ms, key);
            && Get(RereadScalars(libc, ms), key) ==
               (if v.Some? && !v.value.Table? then Some(RereadValue(libc, v.value)) else None)
            && Get(RereadTables(libc, ms), key) ==
               (if v.Some? && v.value.Table? then Some(RereadValue(libc, v.value)) else None)
    decreases |ms|
  {
    hide RereadTree, Reread, RereadScalars, RereadTables;
    RereadStep(libc, ms);
    if ms != [] {
      var m, tail := ms[0], ms[1..];
      assert forall i :: 0 <= i < |tail| ==> tail[i] == ms[i + 1];
      GetRereadParts(libc, tail, key);
      GetIndex(tail, m.key);
      var s, t := RereadScalars(libc, tail), RereadTables(libc, tail);
      var x := Member(m.key, RereadValue(libc, m.val));
      assert ([x] + s)[1..] == s && ([x] + t)[1..] == t;
    }
  }

  lemma RereadStep(libc: Libc, ms: Members)
    ensures ms == [] ==> RereadScalars(libc, ms) == [] && RereadTables(libc, ms) == []
    ensures ms != [] ==>
              var x, s, t := Member(ms[0].key, RereadValue(libc, ms[0].val)),
                             RereadScalars(libc, ms[1..]), RereadTables(libc, ms[1..]);
              && RereadScalars(libc, ms) == (if ms[0].val.Table? then s else [x] + s)
              && RereadTables(libc, ms) == (if ms[0].val.Table? then [x] + t else t)
  {
  }

  lemma {:induction false} GetConcat(a: Members, b: Members, key: string)
    ensures Get(a + b, key) == if Get(a, key).Some? then Get(a, key) else Get(b, key)
  {
    if a == [] {
      assert a + b == b;
    } else {
      assert (a + b)[1..] == a[1..] + b;
      GetConcat(a[1..], b, key);
    }
  }

  /** Reordering never shows in a lookup. */
  lemma GetReread(libc: Libc, ms: Members, key: string)
    requires Unique(ms)
    ensures Get(RereadTree(libc, ms), key) ==
            if Get(ms, key).Some? then Some(RereadValue(libc, Get(ms, key).value)) else None
  {
    GetRereadParts(libc, ms, key);
    GetConcat(RereadScalars(libc, ms), RereadTables(libc, ms), key);
  }

  lemma {:induction false} GetWritable(libc: Libc, ms: Members, key: string)
    requires WritableMembers(libc, ms) && Get(ms, key).Some?
    ensures Writable(libc, Get(ms, key).value)
  {
    if ms[0].key != key {
      GetWritable(libc, ms[1..], key);
    }
  }

  /** The table at a path is found again after a round trip. */
  lemma {:induction false} AtReread(libc: Libc, ms: Members, path: Path)
    requires WritableTable(libc, ms)
    ensures At(RereadTree(libc, ms), path) ==
            if At(ms, path).Some? then Some(RereadTree(libc, At(ms, path).value)) else None
    decreases |path|
  {
    hide RereadTree;
    if path != [] {
      GetReread(libc, ms, path[0]);
      match Get(ms, path[0])
      case Some(Table(sub)) =>
        GetWritable(libc, ms, path[0]);
        AtReread(libc, sub, path[1..]);
      case _ =>
    }
  }
}
