/**
 The language of the TOML reader (tools/src/toml.c): every way to spell a document, what each spelling
 stands for, and the proof that toml_parse accepts exactly these texts, as exactly that.
 */
module TomlGrammar {
  import opened Wrappers
  import opened Strings
  import opened TomlTree
  import opened TomlWriter
  import opened TomlReader

  // ------------------------------------------------------------------
  // Lines
  // ------------------------------------------------------------------

  function NewLines(s: string): nat {
    if s == "" then 0 else (if s[0] == '\n' then 1 else 0) + NewLines(s[1..])
  }

  lemma {:induction false} NewLinesSum(a: string, b: string)
    ensures NewLines(a + b) == NewLines(a) + NewLines(b)
  {
    if a == "" {
      assert a + b == b;
    } else {
      assert (a + b)[1..] == a[1..] + b;
      NewLinesSum(a[1..], b);
    }
  }

  lemma {:induction false} NoNewLines(s: string)
    ensures '\n' !in s <==> NewLines(s) == 0
  {
    if s != "" {
      NoNewLines(s[1..]);
      assert s == [s[0]] + s[1..];
    }
  }

  /** After reading `text` the line number has gone up by the newlines in it. */
  function Past(text: string, rest: string, l: nat): Pos { Pos(rest, l + NewLines(text)) }

  // ------------------------------------------------------------------
  // Gaps: blanks, newlines and comments
  // ------------------------------------------------------------------

  /** A comment is spelled with the newline that ends it. */
  datatype Piece = Blank(c: char) | NewLine | Comment(text: string)

  type Gap = seq<Piece>

  predicate IsPiece(p: Piece) {
    match p
    case Blank(c) => c == ' ' || c == '\t' || c == '\r'
    case NewLine => true
    case Comment(t) => '\n' !in t
  }

  predicate IsGap(g: Gap) { forall i :: 0 <= i < |g| ==> IsPiece(g[i]) }

  function PieceText(p: Piece): string {
    match p
    case Blank(c) => [c]
    case NewLine => "\n"
    case Comment(t) => "#" + t + "\n"
  }

  function GapText(g: Gap): string { if g == [] then "" else PieceText(g[0]) + GapText(g[1..]) }

  /** A comment that the end of the text ends. */
  function LastComment(c: Option<string>): string { if c.Some? then "#" + c.value else "" }

  predicate IsLastComment(c: Option<string>) { c.Some? ==> '\n' !in c.value }

  /** The text does not go on with white space or a comment. */
  predicate Solid(s: string) { s == "" || s[0] !in {' ', '\t', '\r', '\n', '#'} }

  lemma {:induction false} CommentSkipped(c: string, rest: string)
    requires '\n' !in c && (rest == "" || rest[0] == '\n')
    ensures SkipComment(c + rest) == rest
  {
    if c == "" {
      assert c + rest == rest;
    } else {
      assert (c + rest)[1..] == c[1..] + rest;
      CommentSkipped(c[1..], rest);
    }
  }

  /** Reading goes through blanks, newlines and comments; a comment ends before its newline. */
  lemma PieceSkipped(p: Piece, rest: string, l: nat)
    requires IsPiece(p)
    ensures SkipWs(Pos(PieceText(p) + rest, l)) == SkipWs(Past(PieceText(p), rest, l))
  {
    PieceLines(p);
    match p
    case Blank(c) => BlankSkipped(c, rest, l);
    case NewLine => NewLineSkipped(rest, l);
    case Comment(t) =>
      hide SkipWs, NewLines;
      CommentLineSkipped(t, rest, l);
      assert PieceText(p) + rest == "#" + t + "\n" + rest;
  }

  lemma NewLineSkipped(rest: string, l: nat)
    ensures SkipWs(Pos("\n" + rest, l)) == SkipWs(Pos(rest, l + 1))
  {
    assert ("\n" + rest)[1..] == rest;
  }

  lemma CommentLineSkipped(t: string, rest: string, l: nat)
    requires '\n' !in t
    ensures SkipWs(Pos("#" + t + "\n" + rest, l)) == SkipWs(Pos(rest, l + 1))
  {
    var s := "#" + t + "\n" + rest;
    assert s[1..] == t + ("\n" + rest);
    CommentSkipped(t, "\n" + rest);
    NewLineSkipped(rest, l);
    assert SkipBlanks(s) == s;
  }

  /** A comment, on a line of its own or behind a statement, ends before its newline. */
  lemma CommentEnds(c: string, rest: string, l: nat)
    requires '\n' !in c
    ensures SkipWs(Pos("#" + c + "\n" + rest, l)) == SkipWs(Pos("\n" + rest, l))
    ensures SkipLineEnd(Pos(" #" + c + "\n" + rest, l)) == Some(Pos("\n" + rest, l))
  {
    CommentLineSkipped(c, rest, l);
    NewLineSkipped(rest, l);
    var s := " #" + c + "\n" + rest;
    assert s[1..] == ("#" + c) + ("\n" + rest);
    CommentSkipped("#" + c, "\n" + rest);
    assert SkipBlanks(s) == SkipBlanks(s[1..]) == s[1..];
  }

  lemma BlankSkipped(c: char, rest: string, l: nat)
    requires c == ' ' || c == '\t' || c == '\r'
    ensures SkipWs(Pos([c] + rest, l)) == SkipWs(Pos(rest, l))
  {
    assert ([c] + rest)[1..] == rest;
    assert SkipBlanks([c] + rest) == SkipBlanks(rest);
  }

  lemma {:induction false} GapSkipped(g: Gap, rest: string, l: nat)
    requires IsGap(g)
    ensures SkipWs(Pos(GapText(g) + rest, l)) == SkipWs(Past(GapText(g), rest, l))
    decreases |g|
  {
    hide SkipWs, PieceText, IsPiece;
    if g == [] {
      assert "" + rest == rest;
    } else {
      var p, more := PieceText(g[0]), GapText(g[1..]);
      Assoc(p, more, rest);
      PieceSkipped(g[0], more + rest, l);
      GapSkipped(g[1..], rest, l + NewLines(p));
      NewLinesSum(p, more);
    }
  }

  lemma SolidStays(rest: string, l: nat)
    requires Solid(rest)
    ensures SkipWs(Pos(rest, l)) == Pos(rest, l)
  {
  }

  /** Up to the end of the text, where a comment needs no newline. */
  lemma LastGapSkipped(g: Gap, c: Option<string>, l: nat)
    requires IsGap(g) && IsLastComment(c)
    ensures SkipWs(Pos(GapText(g) + LastComment(c), l)).rest == ""
  {
    GapSkipped(g, LastComment(c), l);
    if c.Some? {
      LastCommentSkipped(c.value, l + NewLines(GapText(g)));
    }
  }

  lemma {:induction false} CommentOf(s: string) returns (c: string)
    ensures s == c + SkipComment(s) && '\n' !in c
  {
    if s == "" || s[0] == '\n' {
      c := "";
    } else {
      var more := CommentOf(s[1..]);
      c := [s[0]] + more;
      assert s == [s[0]] + s[1..];
    }
  }

  /** What SkipWs passes over is a gap, except that a last comment has no newline. */
  lemma {:induction false} GapOf(at: Pos) returns (g: Gap, c: Option<string>)
    ensures IsGap(g) && IsLastComment(c)
    ensures var r := SkipWs(at);
            && Solid(r.rest) && (c.Some? ==> r.rest == "")
            && at.rest == GapText(g) + LastComment(c) + r.rest
            && (c.None? ==> r == Past(GapText(g), r.rest, at.line))
    decreases |at.rest|
  {
    hide SkipWs, SkipComment, NewLines, GapText;
    var s := at.rest;
    if s == "" || s[0] !in {' ', '\t', '\r', '\n', '#'} {
      SolidStays(s, at.line);
      NoGap(s);
      g, c := [], None;
      return;
    }
    if s[0] == '#' && SkipComment(s[1..]) == "" {
      var text := CommentOf(s[1..]);
      LastCommentSkipped(text, at.line);
      NoGap("");
      assert s == "#" + text;
      g, c := [], Some(text);
      return;
    }
    var p, r := PieceOf(at);
    hide PieceText, IsPiece;
    var more;
    more, c := GapOf(Pos(r, if p.Blank? then at.line else at.line + 1));
    g := GapMore(p, more, c, SkipWs(at).rest, r, s);
  }

  lemma PieceOf(at: Pos) returns (p: Piece, r: string)
    requires at.rest != "" && at.rest[0] in {' ', '\t', '\r', '\n', '#'}
    requires at.rest[0] == '#' ==> SkipComment(at.rest[1..]) != ""
    ensures IsPiece(p) && at.rest == PieceText(p) + r && |r| < |at.rest|
    ensures SkipWs(at) == SkipWs(Pos(r, if p.Blank? then at.line else at.line + 1))
  {
    hide SkipWs, SkipComment;
    var s := at.rest;
    p, r := Blank(s[0]), s[1..];
    if s[0] == '\n' {
      NewLineSkipped(r, at.line);
      p := NewLine;
      assert s == "\n" + r;
    } else if s[0] == '#' {
      var text := CommentOf(r);
      r := SkipComment(r)[1..];
      CommentLineSkipped(text, r, at.line);
      p := Comment(text);
      assert s == "#" + text + "\n" + r;
    } else {
      BlankSkipped(s[0], r, at.line);
      assert s == [s[0]] + r;
    }
  }

  lemma NoGap(rest: string)
    ensures GapText([]) == "" && NewLines("") == 0 && GapText([]) + LastComment(None) + rest == rest
    ensures forall c :: GapText([]) + LastComment(Some(c)) + "" == "#" + c
  {
  }

  lemma LastCommentSkipped(c: string, l: nat)
    requires '\n' !in c
    ensures SkipWs(Pos("#" + c, l)).rest == ""
  {
    assert ("#" + c)[1..] == c + "";
    CommentSkipped(c, "");
  }

  lemma GapMore(p: Piece, more: Gap, c: Option<string>, rest: string, r: string, s: string) returns (g: Gap)
    requires IsPiece(p) && IsGap(more) && s == PieceText(p) + r && r == GapText(more) + LastComment(c) + rest
    ensures g == [p] + more && IsGap(g) && s == GapText(g) + LastComment(c) + rest
    ensures NewLines(GapText(g)) == (if p.Blank? then 0 else 1) + NewLines(GapText(more))
  {
    hide NewLines, IsPiece, PieceText, LastComment;
    g := [p] + more;
    assert GapText(g) == PieceText(p) + GapText(more);
    Assoc(PieceText(p), GapText(more), LastComment(c));
    Assoc(PieceText(p), GapText(more) + LastComment(c), rest);
    assert s == GapText(g) + LastComment(c) + rest;
    NewLinesSum(PieceText(p), GapText(more));
    PieceLines(p);
  }

  lemma PieceLines(p: Piece)
    requires IsPiece(p)
    ensures NewLines(PieceText(p)) == if p.Blank? then 0 else 1
  {
    match p
    case Blank(c) => NoNewLines([c]);
    case NewLine =>
    case Comment(t) =>
      NoNewLines(t);
      NewLinesSum("#" + t, "\n");
      NewLinesSum("#", t);
  }

  // ------------------------------------------------------------------
  // The end of a statement
  // ------------------------------------------------------------------

  /** Blanks and an optional comment. */
  datatype Tail = Tail(blanks: string, comment: Option<string>)

  predicate IsTail(t: Tail) {
    && (forall i :: 0 <= i < |t.blanks| ==> t.blanks[i] in {' ', '\t', '\r'})
    && IsLastComment(t.comment)
  }

  function TailText(t: Tail): string { t.blanks + LastComment(t.comment) }

  /** A line ends at its newline or with the text. */
  predicate AtLineEnd(s: string) { s == "" || s[0] == '\n' }

  lemma {:induction false} BlanksSkipped(b: string, rest: string)
    requires forall i :: 0 <= i < |b| ==> b[i] in {' ', '\t', '\r'}
    requires rest == "" || rest[0] !in {' ', '\t', '\r'}
    ensures SkipBlanks(b + rest) == rest
  {
    if b == "" {
      assert b + rest == rest;
    } else {
      assert (b + rest)[1..] == b[1..] + rest;
      BlanksSkipped(b[1..], rest);
    }
  }

  lemma TailSkipped(t: Tail, rest: string, l: nat)
    requires IsTail(t) && AtLineEnd(rest)
    ensures SkipLineEnd(Pos(TailText(t) + rest, l)) == Some(Pos(rest, l))
  {
    var after := LastComment(t.comment) + rest;
    Assoc(t.blanks, LastComment(t.comment), rest);
    BlanksSkipped(t.blanks, after);
    if t.comment.Some? {
      assert after == "#" + t.comment.value + rest;
      CommentSkipped("#" + t.comment.value, rest);
    } else {
      assert after == rest;
    }
  }

  lemma {:induction false} BlanksOf(s: string) returns (b: string)
    ensures s == b + SkipBlanks(s) && forall i :: 0 <= i < |b| ==> b[i] in {' ', '\t', '\r'}
    ensures SkipBlanks(s) == "" || SkipBlanks(s)[0] !in {' ', '\t', '\r'}
  {
    if s != "" && IsBlank(s[0]) {
      var more := BlanksOf(s[1..]);
      b := [s[0]] + more;
      assert s == [s[0]] + s[1..];
    } else {
      b := "";
    }
  }

  lemma TailOf(at: Pos) returns (t: Tail)
    requires SkipLineEnd(at).Some?
    ensures IsTail(t) && AtLineEnd(SkipLineEnd(at).value.rest) && SkipLineEnd(at).value.line == at.line
    ensures at.rest == TailText(t) + SkipLineEnd(at).value.rest
  {
    var b := BlanksOf(at.rest);
    var s := SkipBlanks(at.rest);
    if Peek(s, '#') {
      var c := CommentOf(s);
      assert c[0] == '#';
      t := Tail(b, Some(c[1..]));
      assert c == "#" + c[1..];
    } else {
      t := Tail(b, None);
    }
  }

  /** On anything else than a blank, a comment or the end of the line the statement does not end. */
  lemma NoTail(b: string, rest: string, l: nat)
    requires forall i :: 0 <= i < |b| ==> b[i] in {' ', '\t', '\r'}
    requires rest != "" && Solid(rest)
    ensures SkipLineEnd(Pos(b + rest, l)).None?
  {
    BlanksSkipped(b, rest);
  }

  // ------------------------------------------------------------------
  // Strings
  // ------------------------------------------------------------------

  /** A character as it is, a backslash with a letter, or a code point in four hexadecimal digits, each in
      either case. */
  datatype Item = Plain(c: char) | Short(c: char) | Unicode(digits: seq<nat>, upper: seq<bool>)

  const LOWER_HEX := "0123456789abcdef"
  const UPPER_HEX := "0123456789ABCDEF"

  predicate IsItem(i: Item, mark: char) {
    match i
    case Plain(c) =>
      c != mark && if mark == '\'' then c as int >= 0x20 else c != '\\' && (c as int >= 0x20 || c == '\t' || c == '\n')
    case Short(c) => mark == '"' && c in {'n', 't', 'r', 'b', 'f', '"', '\\'}
    case Unicode(d, u) => mark == '"' && |d| == |u| == 4 && forall k :: 0 <= k < 4 ==> d[k] < 16
  }

  function HexChar(d: nat, upper: bool): char
    requires d < 16
  {
    if upper then UPPER_HEX[d] else LOWER_HEX[d]
  }

  function ItemText(i: Item, mark: char): string
    requires IsItem(i, mark)
  {
    match i
    case Plain(c) => [c]
    case Short(c) => ['\\', c]
    case Unicode(d, u) =>
      ['\\', 'u', HexChar(d[0], u[0]), HexChar(d[1], u[1]), HexChar(d[2], u[2]), HexChar(d[3], u[3])]
  }

  /** The bytes that an item stands for. */
  function ItemBytes(i: Item, mark: char): string
    requires IsItem(i, mark)
  {
    match i
    case Plain(c) => [c]
    case Short(c) =>
      if c == 'n' then "\n"
      else if c == 't' then "\t"
      else if c == 'r' then "\r"
      else if c == 'b' then [8 as char]
      else if c == 'f' then [12 as char]
      else [c]
    case Unicode(d, _) => Utf8(0x1000 * d[0] + 0x100 * d[1] + 0x10 * d[2] + d[3])
  }

  /** The code point that bytes in UTF-8 stand for (section 3 of RFC 3629). */
  function CodePoint(b: string): int
    requires 1 <= |b| <= 3
  {
    if |b| == 1 then b[0] as int
    else if |b| == 2 then (b[0] as int - 0xC0) * 64 + (b[1] as int - 0x80)
    else (b[0] as int - 0xE0) * 4096 + (b[1] as int - 0x80) * 64 + (b[2] as int - 0x80)
  }

  predicate Continues(c: char) { 0x80 <= c as int < 0xC0 }

  /** Escaped code points are encoded in UTF-8, in as few bytes as possible. */
  lemma Utf8Decodes(v: nat)
    requires v < 0x1_0000
    ensures var b := Utf8(v);
            && |b| == (if v < 0x80 then 1 else if v < 0x800 then 2 else 3)
            && CodePoint(b) == v
            && (forall k :: 1 <= k < |b| ==> Continues(b[k]))
            && (|b| == 2 ==> 0xC0 <= b[0] as int < 0xE0) && (|b| == 3 ==> 0xE0 <= b[0] as int < 0xF0)
  {
    var low, mid, high := v % 0x40, v / 0x40 % 0x40, v / 0x1000 % 0x10;
    assert v < 0x800 ==> v == v / 0x40 * 0x40 + low;
    assert v == high * 0x1000 + mid * 0x40 + low by {
      assert v / 0x40 == v / 0x1000 * 0x40 + mid;
      assert v == v / 0x40 * 0x40 + low;
    }
  }

  predicate AreItems(items: seq<Item>, mark: char) { forall k :: 0 <= k < |items| ==> IsItem(items[k], mark) }

  function ItemsText(items: seq<Item>, mark: char): string
    requires AreItems(items, mark)
  {
    if items == [] then "" else ItemText(items[0], mark) + ItemsText(items[1..], mark)
  }

  function ItemsBytes(items: seq<Item>, mark: char): string
    requires AreItems(items, mark)
  {
    if items == [] then "" else ItemBytes(items[0], mark) + ItemsBytes(items[1..], mark)
  }

  /** A string between two quotation marks of its kind: basic or literal. */
  datatype Quote = Quote(mark: char, items: seq<Item>)

  predicate IsQuoted(q: Quote) { (q.mark == '"' || q.mark == '\'') && AreItems(q.items, q.mark) }

  function QuoteText(q: Quote): string
    requires IsQuoted(q)
  {
    [q.mark] + ItemsText(q.items, q.mark) + [q.mark]
  }

  /** The string: the bytes up to the first NUL. */
  function QuoteValue(q: Quote): string
    requires IsQuoted(q)
  {
    CString(ItemsBytes(q.items, q.mark))
  }

  lemma {:induction false} CStringIs(b: string)
    ensures var s := CString(b);
            s <= b && NulFree(s) && (|s| < |b| ==> b[|s|] == '\0')
  {
    if b != "" && b[0] != '\0' {
      CStringIs(b[1..]);
    }
  }

  lemma HexCharValue(d: nat, upper: bool)
    requires d < 16
    ensures HexValue(HexChar(d, upper)) == Some(d) && HexChar(d, upper) != '\n'
  {
  }

  lemma ValueHexChar(c: char) returns (d: nat, upper: bool)
    requires HexValue(c).Some?
    ensures d < 16 && HexChar(d, upper) == c
  {
    d, upper := HexValue(c).value, 'A' <= c <= 'F';
  }

  /** Four digits and the text after them. */
  ghost predicate FourDigits(text: string, d: seq<nat>, u: seq<bool>, s: string) {
    && |d| == |u| == 4 && (forall k :: 0 <= k < 4 ==> d[k] < 16)
    && text == [HexChar(d[0], u[0])] + ([HexChar(d[1], u[1])] + ([HexChar(d[2], u[2])] + ([HexChar(d[3], u[3])] + s)))
  }

  lemma UnicodeText(i: Item, s: string)
    requires i.Unicode? && IsItem(i, '"')
    ensures |ItemText(i, '"')| >= 2 && FourDigits(ItemText(i, '"')[2..] + s, i.digits, i.upper, s)
  {
    var d, u := i.digits, i.upper;
    hide HexChar;
    FourChars(ItemText(i, '"'), HexChar(d[0], u[0]), HexChar(d[1], u[1]), HexChar(d[2], u[2]), HexChar(d[3], u[3]), s);
  }

  lemma HexDigitsRead(text: string, d: seq<nat>, u: seq<bool>, s: string, l: nat)
    requires FourDigits(text, d, u, s)
    ensures |d| == 4
    ensures HexDigits(Pos(text, l), 4, 0) == Ok(0x1000 * d[0] + 0x100 * d[1] + 0x10 * d[2] + d[3], Pos(s, l))
  {
    hide HexChar, HexDigits;
    HexFour(text, d[0], d[1], d[2], d[3], u, s, l);
  }

  lemma HexFour(text: string, a: nat, b: nat, c: nat, d: nat, u: seq<bool>, s: string, l: nat)
    requires a < 16 && b < 16 && c < 16 && d < 16 && |u| == 4
    requires text == [HexChar(a, u[0])] + ([HexChar(b, u[1])] + ([HexChar(c, u[2])] + ([HexChar(d, u[3])] + s)))
    ensures HexDigits(Pos(text, l), 4, 0) == Ok(0x1000 * a + 0x100 * b + 0x10 * c + d, Pos(s, l))
  {
    hide HexChar, HexDigits;
    var s3 := [HexChar(d, u[3])] + s;
    var s2 := [HexChar(c, u[2])] + s3;
    HexDigitRead(a, u[0], [HexChar(b, u[1])] + s2, l, 4, 0);
    HexDigitRead(b, u[1], s2, l, 3, a);
    HexDigitRead(c, u[2], s3, l, 2, 0x10 * a + b);
    HexDigitRead(d, u[3], s, l, 1, 0x100 * a + 0x10 * b + c);
    HexEnd(Pos(s, l), 0x1000 * a + 0x100 * b + 0x10 * c + d);
  }

  lemma FourChars(t: string, a: char, b: char, c: char, d: char, s: string)
    requires t == ['\\', 'u', a, b, c, d]
    ensures t[2..] + s == [a] + ([b] + ([c] + ([d] + s)))
  {
  }

  lemma HexDigitRead(d: nat, upper: bool, s: string, l: nat, left: nat, v: nat)
    requires d < 16 && left > 0
    ensures HexDigits(Pos([HexChar(d, upper)] + s, l), left, v) == HexDigits(Pos(s, l), left - 1, 0x10 * v + d)
  {
    hide HexChar, HexDigits, HexValue;
    HexCharValue(d, upper);
    HexStep(Pos([HexChar(d, upper)] + s, l), left, v);
    assert ([HexChar(d, upper)] + s)[1..] == s;
  }

  /** An item is read as what it stands for. */
  lemma ItemRead(i: Item, mark: char, s: string, l: nat)
    requires (mark == '"' || mark == '\'') && IsItem(i, mark)
    ensures ItemText(i, mark)[0] != mark
    ensures StringItem(Pos(ItemText(i, mark) + s, l), mark) == Ok(ItemBytes(i, mark), Past(ItemText(i, mark), s, l))
  {
    hide HexDigits, Utf8, HexChar, NewLines;
    var t := ItemText(i, mark) + s;
    ItemLines(i, mark);
    match i
    case Plain(c) => assert t[1..] == s;
    case Short(c) => assert t[1..][0] == c && t[1..][1..] == s;
    case Unicode(_, _) => UnicodeItemRead(i, s, l);
  }

  lemma UnicodeItemRead(i: Item, s: string, l: nat)
    requires i.Unicode? && IsItem(i, '"')
    ensures StringItem(Pos(ItemText(i, '"') + s, l), '"') == Ok(ItemBytes(i, '"'), Pos(s, l))
  {
    hide HexDigits, Utf8, HexChar;
    var t := ItemText(i, '"') + s;
    assert t[1..][0] == 'u' && t[1..][1..] == ItemText(i, '"')[2..] + s;
    UnicodeText(i, s);
    HexDigitsRead(t[1..][1..], i.digits, i.upper, s, l);
  }

  lemma ItemLines(i: Item, mark: char)
    requires (mark == '"' || mark == '\'') && IsItem(i, mark)
    ensures NewLines(ItemText(i, mark)) == if i == Plain('\n') then 1 else 0
  {
    if i == Plain('\n') {
      assert NewLines("\n") == 1;
    } else {
      hide NewLines, HexChar;
      NoNewLines(ItemText(i, mark));
      if i.Unicode? {
        forall k | 0 <= k < 4 ensures HexChar(i.digits[k], i.upper[k]) != '\n' {
          HexCharValue(i.digits[k], i.upper[k]);
        }
      }
    }
  }

  /** Reading goes through the items of a string and collects what they stand for. */
  lemma {:induction false} ItemsPassed(items: seq<Item>, mark: char, s: string, l: nat, buf: string, start: nat)
    requires (mark == '"' || mark == '\'') && AreItems(items, mark)
    ensures StringBody(Pos(ItemsText(items, mark) + s, l), mark, buf, start) ==
            StringBody(Past(ItemsText(items, mark), s, l), mark, buf + ItemsBytes(items, mark), start)
    decreases |items|
  {
    hide ItemText, ItemBytes, StringItem, IsItem, NewLines;
    if items == [] {
      NoNewLines("");
      assert "" + s == s && buf + "" == buf;
    } else {
      var i, more := ItemText(items[0], mark), ItemsText(items[1..], mark);
      Assoc(i, more, s);
      ItemRead(items[0], mark, more + s, l);
      assert (i + (more + s))[0] == i[0];
      ItemsPassed(items[1..], mark, s, l + NewLines(i), buf + ItemBytes(items[0], mark), start);
      Assoc(buf, ItemBytes(items[0], mark), ItemsBytes(items[1..], mark));
      NewLinesSum(i, more);
    }
  }

  /** A string is read as what its spelling stands for. */
  lemma QuoteRead(q: Quote, s: string, l: nat)
    requires IsQuoted(q)
    ensures QuotedString(Pos(QuoteText(q) + s, l)) == Ok(QuoteValue(q), Past(QuoteText(q), s, l))
  {
    hide ItemsText, ItemsBytes, NewLines;
    var t, after := ItemsText(q.items, q.mark), [q.mark] + s;
    assert (QuoteText(q) + s)[1..] == t + after;
    ItemsPassed(q.items, q.mark, after, l, "", l);
    assert after[1..] == s && "" + ItemsBytes(q.items, q.mark) == ItemsBytes(q.items, q.mark);
    NewLinesSum([q.mark] + t, [q.mark]);
    NewLinesSum([q.mark], t);
    NoNewLines([q.mark]);
  }

  lemma ItemOf(at: Pos, mark: char) returns (i: Item)
    requires (mark == '"' || mark == '\'') && at.rest != "" && at.rest[0] != mark && StringItem(at, mark).Ok?
    ensures IsItem(i, mark)
    ensures var r := StringItem(at, mark);
            && at.rest == ItemText(i, mark) + r.at.rest
            && r == Ok(ItemBytes(i, mark), Past(ItemText(i, mark), r.at.rest, at.line))
  {
    var s := at.rest;
    if mark == '\'' || s[0] != '\\' {
      i := Plain(s[0]);
    } else if s[1] != 'u' {
      hide HexDigits;
      i := Short(s[1]);
      assert s[1..][1..] == s[2..];
    } else {
      i := UnicodeOf(Pos(s[2..], at.line));
      assert s[1..][1..] == s[2..];
    }
    ItemLines(i, mark);
    assert s == ItemText(i, mark) + s[|ItemText(i, mark)|..];
    ItemRead(i, mark, s[|ItemText(i, mark)|..], at.line);
  }

  /** The four digits that were read. */
  lemma UnicodeOf(at: Pos) returns (i: Item)
    requires HexDigits(at, 4, 0).Ok?
    ensures i.Unicode? && IsItem(i, '"') && |at.rest| >= 4 && ItemText(i, '"') == "\\u" + at.rest[..4]
  {
    hide HexDigits, HexValue, HexChar;
    var s := at.rest;
    HexStep(at, 4, 0);
    var d0, u0 := ValueHexChar(s[0]);
    HexStep(Pos(s[1..], at.line), 3, HexValue(s[0]).value);
    var d1, u1 := ValueHexChar(s[1]);
    HexStep(Pos(s[1..][1..], at.line), 2, HexValue(s[0]).value * 16 + HexValue(s[1]).value);
    var d2, u2 := ValueHexChar(s[2]);
    HexStep(Pos(s[1..][1..][1..], at.line), 1,
            (HexValue(s[0]).value * 16 + HexValue(s[1]).value) * 16 + HexValue(s[2]).value);
    var d3, u3 := ValueHexChar(s[3]);
    i := Unicode([d0, d1, d2, d3], [u0, u1, u2, u3]);
  }

  lemma {:induction false} ItemsOf(at: Pos, mark: char, buf: string, start: nat) returns (items: seq<Item>)
    requires (mark == '"' || mark == '\'') && StringBody(at, mark, buf, start).Ok?
    ensures AreItems(items, mark)
    ensures at.rest == ItemsText(items, mark) + ([mark] + StringBody(at, mark, buf, start).at.rest)
    decreases |at.rest|
  {
    hide StringItem, ItemText, ItemBytes, CString;
    if at.rest[0] == mark {
      items := [];
    } else {
      var i := ItemOf(at, mark);
      var r := StringItem(at, mark);
      var more := ItemsOf(r.at, mark, buf + r.value, start);
      items := [i] + more;
      Assoc(ItemText(i, mark), ItemsText(more, mark), [mark] + StringBody(at, mark, buf, start).at.rest);
    }
  }

  /** Whatever is read as a string is a spelling of it. */
  lemma QuoteOf(at: Pos) returns (q: Quote)
    requires at.rest != "" && IsQuote(at.rest[0]) && QuotedString(at).Ok?
    ensures IsQuoted(q)
    ensures var r := QuotedString(at);
            at.rest == QuoteText(q) + r.at.rest && r == Ok(QuoteValue(q), Past(QuoteText(q), r.at.rest, at.line))
  {
    hide ItemsText, StringBody;
    var mark := at.rest[0];
    var items := ItemsOf(Pos(at.rest[1..], at.line), mark, "", at.line);
    q := Quote(mark, items);
    var rest := QuotedString(at).at.rest;
    assert at.rest == [mark] + at.rest[1..];
    assert at.rest == QuoteText(q) + rest;
    QuoteRead(q, rest, at.line);
  }

  /** Which strings are refused, with which message at which line. */
  lemma StringStops(items: seq<Item>, mark: char, bad: string, l: nat, start: nat, buf: string)
    requires (mark == '"' || mark == '\'') && AreItems(items, mark)
    ensures var o, here := StringBody(Pos(ItemsText(items, mark) + bad, l), mark, buf, start),
                           l + NewLines(ItemsText(items, mark));
            && (bad == "" ==> o == Err(UnterminatedString, start))
            && (mark == '\'' && bad != "" && bad[0] == '\n' ==> o == Err(NewlineInLiteral, here + 1))
            && (mark == '\'' && bad != "" && bad[0] as int < 0x20 && bad[0] != '\n' ==>
                  o == Err(ControlInLiteral, here))
            && (mark == '"' && bad != "" && bad[0] as int < 0x20 && bad[0] !in {'\t', '\n'} ==>
                  o == Err(ControlInBasic, here))
            && (mark == '"' && bad == "\\" ==> o == Err(UnterminatedEscape, here))
            && (mark == '"' && |bad| > 1 && bad[0] == '\\' && bad[1] !in {'n', 't', 'r', 'b', 'f', '"', '\\', 'u'} ==>
                  o == Err(UnknownEscape, here))
  {
    hide ItemsText, ItemsBytes, NewLines, HexDigits;
    ItemsPassed(items, mark, bad, l, buf, start);
  }

  predicate IsHexChar(c: char) { c in LOWER_HEX || c in UPPER_HEX }

  /** An escaped code point needs four hexadecimal digits. */
  lemma UnicodeStops(h: string, bad: string, l: nat)
    requires |h| < 4 && (forall k :: 0 <= k < |h| ==> IsHexChar(h[k])) && (bad != "" ==> !IsHexChar(bad[0]))
    ensures StringItem(Pos("\\u" + h + bad, l), '"') == Err(if bad == "" then ShortUnicode else BadUnicode, l)
  {
    hide HexDigits, IsHexChar;
    var s := "\\u" + h + bad;
    assert s[1..][1..] == h + bad;
    HexStops(h, bad, l, 4, 0);
  }

  lemma {:induction false} HexStops(h: string, bad: string, l: nat, left: nat, v: nat)
    requires |h| < left && (forall k :: 0 <= k < |h| ==> IsHexChar(h[k])) && (bad != "" ==> !IsHexChar(bad[0]))
    ensures HexDigits(Pos(h + bad, l), left, v) == Err(if bad == "" then ShortUnicode else BadUnicode, l)
    decreases |h|
  {
    hide HexDigits, HexValue, IsHexChar;
    var s := h + bad;
    HexStep(Pos(s, l), left, v);
    if h == "" {
      assert s == bad;
      if bad != "" {
        HexChars(bad[0]);
      }
    } else {
      HexChars(h[0]);
      assert s[1..] == h[1..] + bad;
      HexStops(h[1..], bad, l, left - 1, v * 16 + HexValue(h[0]).value);
    }
  }

  lemma HexChars(c: char)
    ensures IsHexChar(c) <==> HexValue(c).Some?
  {
    if HexValue(c).Some? {
      var d, upper := ValueHexChar(c);
    }
    if c in LOWER_HEX {
      var d :| 0 <= d < 16 && LOWER_HEX[d] == c;
      HexCharValue(d, false);
    }
    if c in UPPER_HEX {
      var d :| 0 <= d < 16 && UPPER_HEX[d] == c;
      HexCharValue(d, true);
    }
  }

  // ------------------------------------------------------------------
  // Keys
  // ------------------------------------------------------------------

  datatype Segment = Bare(name: string) | Quoted(q: Quote)

  predicate BareChar(c: char) { '0' <= c <= '9' || 'a' <= c <= 'z' || 'A' <= c <= 'Z' || c == '_' || c == '-' }

  predicate IsSegment(k: Segment) {
    match k
    case Bare(name) => name != "" && forall i :: 0 <= i < |name| ==> BareChar(name[i])
    case Quoted(q) => IsQuoted(q)
  }

  function SegmentText(k: Segment): string
    requires IsSegment(k)
  {
    match k case Bare(name) => name case Quoted(q) => QuoteText(q)
  }

  function SegmentName(k: Segment): string
    requires IsSegment(k)
  {
    match k case Bare(name) => name case Quoted(q) => QuoteValue(q)
  }

  predicate AreKeys(ks: seq<Segment>) { ks != [] && forall i :: 0 <= i < |ks| ==> IsSegment(ks[i]) }

  /** The segments with dots between them. */
  function KeysText(ks: seq<Segment>): string
    requires AreKeys(ks)
  {
    SegmentText(ks[0]) + if |ks| == 1 then "" else "." + KeysText(ks[1..])
  }

  function KeyNames(ks: seq<Segment>): (p: Path)
    requires AreKeys(ks)
    ensures |p| == |ks|
  {
    [SegmentName(ks[0])] + if |ks| == 1 then [] else KeyNames(ks[1..])
  }

  predicate EndsKeys(s: string) { s == "" || (!BareChar(s[0]) && s[0] != '.') }

  lemma {:induction false} BareRun(name: string, s: string)
    requires (forall i :: 0 <= i < |name| ==> BareChar(name[i])) && (s == "" || !BareChar(s[0]))
    ensures BareLength(name + s) == |name|
  {
    if name == "" {
      assert name + s == s;
    } else {
      assert (name + s)[1..] == name[1..] + s;
      BareRun(name[1..], s);
    }
  }

  lemma {:induction false} BareOf(s: string)
    ensures forall i :: 0 <= i < BareLength(s) ==> BareChar(s[i])
  {
    if s != "" && IsBare(s[0]) {
      BareOf(s[1..]);
    }
  }

  lemma SegmentRead(k: Segment, s: string, l: nat)
    requires IsSegment(k) && (s == "" || !BareChar(s[0]))
    ensures KeySegment(Pos(SegmentText(k) + s, l)) == Ok(SegmentName(k), Past(SegmentText(k), s, l))
  {
    hide QuotedString, NewLines, AreItems;
    var t := SegmentText(k) + s;
    match k
    case Bare(name) =>
      assert t[0] == name[0];
      BareRun(name, s);
      assert t[..|name|] == name && t[|name|..] == s;
      NoNewLines(name);
    case Quoted(q) =>
      assert t[0] == q.mark;
      QuoteRead(q, s, l);
  }

  lemma {:induction false} KeysRead(ks: seq<Segment>, s: string, l: nat)
    requires AreKeys(ks) && EndsKeys(s)
    ensures KeyPath(Pos(KeysText(ks) + s, l)) == Ok(KeyNames(ks), Past(KeysText(ks), s, l))
    decreases |ks|
  {
    hide SegmentText, SegmentName, KeySegment, NewLines, IsSegment;
    var first := SegmentText(ks[0]);
    if |ks| == 1 {
      assert first + "" == first && [SegmentName(ks[0])] + [] == [SegmentName(ks[0])];
      SegmentRead(ks[0], s, l);
    } else {
      var more := KeysText(ks[1..]);
      assert first + ("." + more) + s == first + ("." + more + s);
      SegmentRead(ks[0], "." + more + s, l);
      assert ("." + more + s)[1..] == more + s;
      KeysRead(ks[1..], s, l + NewLines(first));
      NewLinesSum(first, "." + more);
      NewLinesSum(".", more);
      NoNewLines(".");
    }
  }

  lemma SegmentOf(at: Pos) returns (k: Segment)
    requires KeySegment(at).Ok?
    ensures IsSegment(k)
    ensures var r := KeySegment(at);
            at.rest == SegmentText(k) + r.at.rest && r == Ok(SegmentName(k), Past(SegmentText(k), r.at.rest, at.line))
  {
    hide QuotedString, NewLines, AreItems;
    if IsQuote(at.rest[0]) {
      var q := QuoteOf(at);
      k := Quoted(q);
    } else {
      BareOf(at.rest);
      k := Bare(at.rest[..BareLength(at.rest)]);
      NoNewLines(k.name);
    }
  }

  lemma {:induction false} KeysOf(at: Pos) returns (ks: seq<Segment>)
    requires KeyPath(at).Ok?
    ensures AreKeys(ks)
    ensures var r := KeyPath(at);
            at.rest == KeysText(ks) + r.at.rest && r == Ok(KeyNames(ks), Past(KeysText(ks), r.at.rest, at.line))
    decreases |at.rest|
  {
    hide SegmentText, SegmentName, KeySegment, NewLines, IsSegment;
    var k := SegmentOf(at);
    var next, text := KeySegment(at).at, SegmentText(k);
    if Peek(next.rest, '.') {
      var more := KeysOf(Pos(next.rest[1..], next.line));
      ks := [k] + more;
      assert ks[1..] == more;
      var rest := KeyPath(at).at.rest;
      assert next.rest == "." + (KeysText(more) + rest);
      assert text + ("." + (KeysText(more) + rest)) == text + ("." + KeysText(more)) + rest;
      NewLinesSum(text, "." + KeysText(more));
      NewLinesSum(".", KeysText(more));
      NoNewLines(".");
    } else {
      ks := [k];
      assert text + "" == text && [SegmentName(k)] + [] == [SegmentName(k)];
    }
  }

  // ------------------------------------------------------------------
  // Numbers
  // ------------------------------------------------------------------

  datatype Part = Digit(c: char) | Separator | Dot | Exponent(e: char, sign: Option<char>)

  datatype Numeral = Numeral(sign: Option<char>, parts: seq<Part>)

  predicate IsSign(c: Option<char>) { c.Some? ==> c.value == '+' || c.value == '-' }

  predicate IsPart(p: Part) {
    match p
    case Digit(c) => '0' <= c <= '9'
    case Exponent(e, sign) => (e == 'e' || e == 'E') && IsSign(sign)
    case _ => true
  }

  /** Separators stand between a digit, possibly further in front, and a digit; exponents after a digit. */
  predicate AreParts(ps: seq<Part>, digits: bool) {
    ps != [] ==>
      && IsPart(ps[0])
      && (ps[0].Separator? ==> digits && |ps| > 1 && ps[1].Digit?)
      && (ps[0].Exponent? ==> digits)
      && AreParts(ps[1..], digits || ps[0].Digit?)
  }

  predicate HasDigit(ps: seq<Part>) { exists i :: 0 <= i < |ps| && ps[i].Digit? }

  predicate HasMark(ps: seq<Part>) { exists i :: 0 <= i < |ps| && (ps[i].Dot? || ps[i].Exponent?) }

  predicate IsNumeral(n: Numeral) { IsSign(n.sign) && AreParts(n.parts, false) && HasDigit(n.parts) }

  function SignText(c: Option<char>): string { if c.Some? then [c.value] else "" }

  function PartText(p: Part): string {
    match p
    case Digit(c) => [c]
    case Separator => "_"
    case Dot => "."
    case Exponent(e, sign) => [e] + SignText(sign)
  }

  function PartsText(ps: seq<Part>): string { if ps == [] then "" else PartText(ps[0]) + PartsText(ps[1..]) }

  /** The text without its separators. */
  function Cleaned(ps: seq<Part>): string {
    if ps == [] then "" else (if ps[0].Separator? then "" else PartText(ps[0])) + Cleaned(ps[1..])
  }

  function NumeralText(n: Numeral): string { SignText(n.sign) + PartsText(n.parts) }

  /** What is classified: sign and cleaned text, cut to 63 characters. */
  function NumeralToken(n: Numeral): string {
    var t := SignText(n.sign) + Cleaned(n.parts);
    if |t| <= 63 then t else t[..63]
  }

  /** The number that decimal digits stand for, by place value. */
  function Decimal(s: string): int {
    if s == "" then 0 else (s[0] as int - '0' as int) * Power10(|s| - 1) + Decimal(s[1..])
  }

  /** The integer that a sign and digits stand for. */
  function Signed(token: string): int {
    if token != "" && token[0] == '-' then -Decimal(token[1..])
    else if token != "" && token[0] == '+' then Decimal(token[1..])
    else Decimal(token)
  }

  /** A numeral with a dot or an exponent is a float, if strtod takes all of it; another one is an integer, if
      it is one of 64 bits. */
  function NumeralValue(libc: Libc, n: Numeral): Option<Value> {
    var t := NumeralToken(n);
    if HasMark(n.parts) then (match libc.strtod(t) case Some(d) => Some(Float(d)) case None => None)
    else if -0x8000_0000_0000_0000 <= Signed(t) < 0x8000_0000_0000_0000 then Some(Int(Signed(t)))
    else None
  }

  /** What may follow a number or a word on its line. */
  predicate AfterValue(s: string) { s == "" || s[0] in {' ', '\t', '\r', '\n', '#'} }

  lemma {:induction false} DecimalAppend(s: string, c: char)
    ensures Decimal(s + [c]) == 10 * Decimal(s) + (c as int - '0' as int)
  {
    var t := s + [c];
    if s == "" {
      assert t[1..] == "" && Power10(0) == 1;
    } else {
      assert t[1..] == s[1..] + [c];
      DecimalAppend(s[1..], c);
      PlaceUp(s[0] as int - '0' as int, Power10(|s| - 1));
    }
  }

  lemma PlaceUp(d: int, p: int)
    ensures d * (10 * p) == 10 * (d * p)
  {
  }

  lemma {:induction false} DecimalIs(s: string)
    ensures DigitsValue(s) == Decimal(s)
    decreases |s|
  {
    if s != "" {
      var init := s[..|s| - 1];
      DecimalIs(init);
      DecimalAppend(init, s[|s| - 1]);
      assert s == init + [s[|s| - 1]];
    }
  }

  /** The first 63 characters. */
  function Cut(t: string): string { if |t| <= 63 then t else t[..63] }

  lemma PushCut(t: string, c: char)
    ensures Push(Cut(t), c) == Cut(t + [c])
  {
  }

  lemma PartScanned(p: Part, s: string, t: string, digits: bool, isFloat: bool)
    requires IsPart(p) && (p.Exponent? ==> digits && (p.sign.None? ==> s == "" || (s[0] != '+' && s[0] != '-')))
    requires p.Separator? ==> digits && s != "" && '0' <= s[0] <= '9'
    ensures Scan(PartText(p) + s, Cut(t), digits, isFloat) ==
            Scan(s, Cut(t + if p.Separator? then "" else PartText(p)), digits || p.Digit?,
                 isFloat || p.Dot? || p.Exponent?)
  {
    hide Cut;
    var all := PartText(p) + s;
    match p
    case Digit(c) =>
      assert all[1..] == s;
      PushCut(t, c);
    case Separator =>
      assert all[1..] == s && t + "" == t;
    case Dot =>
      assert all[1..] == s;
      PushCut(t, '.');
    case Exponent(e, sign) =>
      PushCut(t, e);
      if sign.Some? {
        PushCut(t + [e], sign.value);
        assert all[2..] == s && t + [e] + [sign.value] == t + PartText(p);
      } else {
        assert all[1..] == s && t + [e] == t + PartText(p);
      }
  }

  lemma PartsFirst(ps: seq<Part>, s: string)
    requires AreParts(ps, true) && AfterValue(s)
    ensures PartsText(ps) + s == "" || (PartsText(ps) + s)[0] !in {'+', '-'}
    ensures ps != [] && ps[0].Digit? ==> '0' <= (PartsText(ps) + s)[0] <= '9'
  {
    if ps != [] {
      assert (PartsText(ps) + s)[0] == PartText(ps[0])[0];
    }
  }

  lemma AreMoreParts(ps: seq<Part>)
    requires ps != []
    ensures HasDigit(ps) <==> ps[0].Digit? || HasDigit(ps[1..])
    ensures HasMark(ps) <==> ps[0].Dot? || ps[0].Exponent? || HasMark(ps[1..])
  {
    if HasDigit(ps[1..]) {
      var i :| 0 <= i < |ps[1..]| && ps[1..][i].Digit?;
      assert ps[i + 1].Digit?;
    }
    if HasMark(ps[1..]) {
      var i :| 0 <= i < |ps[1..]| && (ps[1..][i].Dot? || ps[1..][i].Exponent?);
      assert ps[i + 1] == ps[1..][i];
    }
    assert forall i :: 0 < i < |ps| ==> ps[i] == ps[1..][i - 1];
  }

  /** The longest run that can belong to a number is taken, and cleaned. */
  lemma {:induction false} PartsScanned(ps: seq<Part>, s: string, t: string, digits: bool, isFloat: bool)
    requires AreParts(ps, digits) && AfterValue(s)
    ensures Scan(PartsText(ps) + s, Cut(t), digits, isFloat) ==
            Scanned(s, Cut(t + Cleaned(ps)), digits || HasDigit(ps), isFloat || HasMark(ps))
    decreases |ps|
  {
    hide Cut, HasDigit, HasMark, PartText;
    if ps == [] {
      assert PartsText(ps) + s == s && t + "" == t;
      NoParts();
    } else {
      var p, more := ps[0], ps[1..];
      PartsMore(p, more, digits, s);
      PartScanned(p, PartsText(more) + s, t, digits, isFloat);
      Assoc(PartText(p), PartsText(more), s);
      var q := if p.Separator? then "" else PartText(p);
      PartsScanned(more, s, t + q, digits || p.Digit?, isFloat || p.Dot? || p.Exponent?);
      Assoc(t, q, Cleaned(more));
      AreMoreParts(ps);
    }
  }

  lemma NoParts()
    ensures !HasDigit([]) && !HasMark([])
  {
  }

  lemma PartsMore(p: Part, more: seq<Part>, digits: bool, s: string)
    requires AreParts([p] + more, digits) && AfterValue(s)
    ensures IsPart(p) && AreParts(more, digits || p.Digit?)
    ensures p.Exponent? ==> digits && (PartsText(more) + s == "" || (PartsText(more) + s)[0] !in {'+', '-'})
    ensures p.Separator? ==> digits && PartsText(more) + s != "" && '0' <= (PartsText(more) + s)[0] <= '9'
  {
    assert ([p] + more)[1..] == more;
    if p.Exponent? || p.Separator? {
      PartsFirst(more, s);
    }
  }

  /** The token of a numeral without dot or exponent is an optional sign and digits. */
  lemma {:induction false} CleanedDigits(ps: seq<Part>, digits: bool)
    requires AreParts(ps, digits) && !HasMark(ps)
    ensures AllDigits(Cleaned(ps)) && (HasDigit(ps) ==> Cleaned(ps) != "")
    decreases |ps|
  {
    hide HasDigit, HasMark;
    if ps == [] {
      NoParts();
    } else {
      AreMoreParts(ps);
      CleanedDigits(ps[1..], digits || ps[0].Digit?);
    }
  }

  lemma TokenRead(n: Numeral)
    requires IsNumeral(n) && !HasMark(n.parts)
    ensures var i, t := Signed(NumeralToken(n)), NumeralToken(n);
            Strtoll(t) == if -0x8000_0000_0000_0000 <= i < 0x8000_0000_0000_0000 then Some(i) else None
  {
    hide HasDigit, HasMark, AreParts;
    CleanedDigits(n.parts, false);
    var t := NumeralToken(n);
    var m := if n.sign.Some? then t[1..] else t;
    assert m != "" && forall i :: 0 <= i < |m| ==> IsDigit(m[i]) by {
      TokenDigits(n);
    }
    DecimalIs(m);
    if n.sign.None? {
      assert IsDigit(t[0]);
    }
  }

  lemma TokenDigits(n: Numeral)
    requires AllDigits(Cleaned(n.parts)) && Cleaned(n.parts) != ""
    ensures var t := NumeralToken(n);
            if n.sign.Some? then |t| > 1 && t[0] == n.sign.value && AllDigits(t[1..]) else t != "" && AllDigits(t)
  {
  }

  /** A numeral is read as what it stands for, or refused. */
  lemma NumeralRead(libc: Libc, n: Numeral, s: string, l: nat)
    requires IsNumeral(n) && AfterValue(s)
    ensures Number(libc, Pos(NumeralText(n) + s, l)) ==
            match NumeralValue(libc, n)
            case Some(v) => Ok(v, Pos(s, l))
            case None => Err(if HasMark(n.parts) then InvalidFloat else InvalidInteger, l)
  {
    hide Scan, HasDigit, HasMark, AreParts, Strtoll, Signed;
    var ps := n.parts;
    var text := NumeralText(n) + s;
    PartsScanned(ps, s, SignText(n.sign), false, false);
    assert Cut(SignText(n.sign)) == SignText(n.sign);
    if n.sign.Some? {
      assert text[0] == n.sign.value && text[1..] == PartsText(ps) + s;
    } else {
      assert text == PartsText(ps) + s;
      PartsUnsigned(ps, s);
    }
    if !HasMark(ps) {
      TokenRead(n);
    }
  }

  lemma PartsUnsigned(ps: seq<Part>, s: string)
    requires AreParts(ps, false) && HasDigit(ps)
    ensures PartsText(ps) != "" && ((PartsText(ps) + s)[0] == '.' || '0' <= (PartsText(ps) + s)[0] <= '9')
  {
    assert (PartsText(ps) + s)[0] == PartText(ps[0])[0];
  }

  /** Another part follows. */
  predicate GoesOn(s: string, digits: bool) {
    && s != ""
    && (|| IsDigit(s[0])
        || s[0] == '.'
        || (s[0] == '_' && digits && |s| > 1 && IsDigit(s[1]))
        || ((s[0] == 'e' || s[0] == 'E') && digits))
  }

  /** What has been scanned is made of parts. */
  lemma {:induction false} PartsOf(s: string, token: string, digits: bool, isFloat: bool) returns (ps: seq<Part>)
    ensures AreParts(ps, digits) && s == PartsText(ps) + Scan(s, token, digits, isFloat).rest
    ensures Scan(s, token, digits, isFloat).digits <==> digits || HasDigit(ps)
    decreases |s|
  {
    hide Scan, HasDigit, AreParts, IsPart;
    NoParts();
    if !GoesOn(s, digits) {
      ps := [];
      NothingScanned(s, token, digits, isFloat);
      return;
    }
    var p, r := FirstPart(s, token, digits, isFloat);
    var t := if p.Separator? then token else Push(token, s[0]);
    var t' := if p.Exponent? && p.sign.Some? then Push(t, s[1]) else t;
    var more := PartsOf(r, t', digits || p.Digit?, isFloat || p.Dot? || p.Exponent?);
    if p.Separator? {
      ScanStops(r, t', digits, isFloat);
      DigitFirst(more, r, Scan(s, token, digits, isFloat).rest);
    }
    ps := PartsJoin(p, more, digits, s, r, Scan(s, token, digits, isFloat).rest);
  }

  lemma NothingScanned(s: string, token: string, digits: bool, isFloat: bool)
    requires !GoesOn(s, digits)
    ensures Scan(s, token, digits, isFloat) == Scanned(s, token, digits, isFloat)
    ensures AreParts([], digits) && s == PartsText([]) + s
  {
  }

  /** The first step of the scan. */
  lemma FirstPart(s: string, token: string, digits: bool, isFloat: bool) returns (p: Part, r: string)
    requires GoesOn(s, digits)
    ensures IsPart(p) && |r| < |s| && s == PartText(p) + r && (p.Exponent? ==> digits)
    ensures p.Separator? ==> digits && r != "" && IsDigit(r[0])
    ensures p.Exponent? && p.sign.Some? ==> |s| > 1
    ensures var t := if p.Separator? then token else Push(token, s[0]);
            Scan(s, token, digits, isFloat) ==
            Scan(r, if p.Exponent? && p.sign.Some? then Push(t, s[1]) else t, digits || p.Digit?,
                 isFloat || p.Dot? || p.Exponent?)
  {
    hide Push;
    r := s[1..];
    if IsDigit(s[0]) {
      p := Digit(s[0]);
    } else if s[0] == '_' {
      p := Separator;
    } else if s[0] == '.' {
      p := Dot;
    } else if |s| > 1 && (s[1] == '+' || s[1] == '-') {
      p, r := Exponent(s[0], Some(s[1])), s[2..];
    } else {
      p := Exponent(s[0], None);
    }
    assert s == PartText(p) + r;
  }

  /** A scan does not stop before a digit. */
  lemma {:induction false} ScanStops(s: string, token: string, digits: bool, isFloat: bool)
    ensures var r := Scan(s, token, digits, isFloat).rest; r == "" || !IsDigit(r[0])
    decreases |s|
  {
    if GoesOn(s, digits) {
      hide Scan, Push;
      var p, r := FirstPart(s, token, digits, isFloat);
      var t := if p.Separator? then token else Push(token, s[0]);
      ScanStops(r, if p.Exponent? && p.sign.Some? then Push(t, s[1]) else t, digits || p.Digit?,
                isFloat || p.Dot? || p.Exponent?);
    }
  }

  lemma PartsJoin(p: Part, more: seq<Part>, digits: bool, s: string, r: string, rest: string)
    returns (ps: seq<Part>)
    requires IsPart(p) && AreParts(more, digits || p.Digit?) && s == PartText(p) + r && r == PartsText(more) + rest
    requires (p.Separator? ==> digits && more != [] && more[0].Digit?) && (p.Exponent? ==> digits)
    ensures ps == [p] + more && AreParts(ps, digits) && s == PartsText(ps) + rest
    ensures HasDigit(ps) <==> p.Digit? || HasDigit(more)
  {
    ps := [p] + more;
    assert ps[1..] == more;
    Assoc(PartText(p), PartsText(more), rest);
    AreMoreParts(ps);
  }

  /** A run that begins with a digit has it as its first part. */
  lemma DigitFirst(ps: seq<Part>, s: string, rest: string)
    requires AreParts(ps, true) && s == PartsText(ps) + rest && s != "" && IsDigit(s[0])
    requires rest == "" || !IsDigit(rest[0])
    ensures ps != [] && ps[0].Digit?
  {
    if ps != [] {
      assert s[0] == PartText(ps[0])[0];
    }
  }

  /** Whatever is read as a number is a numeral. */
  lemma NumeralOf(libc: Libc, at: Pos) returns (n: Numeral)
    requires Number(libc, at).Ok?
    ensures IsNumeral(n) && at.rest == NumeralText(n) + Number(libc, at).at.rest
  {
    hide Scan, HasDigit, AreParts;
    if Peek(at.rest, '+') || Peek(at.rest, '-') {
      var ps := PartsOf(at.rest[1..], [at.rest[0]], false, false);
      n := Numeral(Some(at.rest[0]), ps);
    } else {
      var ps := PartsOf(at.rest, "", false, false);
      n := Numeral(None, ps);
    }
  }

  // ------------------------------------------------------------------
  // Values
  // ------------------------------------------------------------------

  /** The inside of an array with its closing bracket.  A comma may follow the last string. */
  datatype Elements =
    | NoMore(gap: Gap)
    | Last(before: Gap, q: Quote, after: Gap)
    | More(before: Gap, q: Quote, after: Gap, rest: Elements)

  predicate AreElements(es: Elements) {
    match es
    case NoMore(gap) => IsGap(gap)
    case Last(before, q, after) => IsGap(before) && IsQuoted(q) && IsGap(after)
    case More(before, q, after, rest) => IsGap(before) && IsQuoted(q) && IsGap(after) && AreElements(rest)
  }

  function ElementsText(es: Elements): string
    requires AreElements(es)
  {
    match es
    case NoMore(gap) => GapText(gap) + "]"
    case Last(before, q, after) => GapText(before) + (QuoteText(q) + (GapText(after) + "]"))
    case More(before, q, after, rest) =>
      GapText(before) + (QuoteText(q) + (GapText(after) + ("," + ElementsText(rest))))
  }

  function ElementValues(es: Elements): seq<Value>
    requires AreElements(es)
  {
    match es
    case NoMore(_) => []
    case Last(_, q, _) => [Str(QuoteValue(q))]
    case More(_, q, _, rest) => [Str(QuoteValue(q))] + ElementValues(rest)
  }

  datatype Spelling = OfString(q: Quote) | OfArray(es: Elements) | OfBool(b: bool) | OfNumber(n: Numeral)

  predicate IsSpelling(v: Spelling) {
    match v
    case OfString(q) => IsQuoted(q)
    case OfArray(es) => AreElements(es)
    case OfBool(_) => true
    case OfNumber(n) => IsNumeral(n)
  }

  function SpellingText(v: Spelling): string
    requires IsSpelling(v)
  {
    match v
    case OfString(q) => QuoteText(q)
    case OfArray(es) => "[" + ElementsText(es)
    case OfBool(b) => if b then "true" else "false"
    case OfNumber(n) => NumeralText(n)
  }

  /** None for numerals out of range and tokens that strtod does not take. */
  function SpellingValue(libc: Libc, v: Spelling): Option<Value>
    requires IsSpelling(v)
  {
    match v
    case OfString(q) => Some(Str(QuoteValue(q)))
    case OfArray(es) => Some(Arr(ElementValues(es)))
    case OfBool(b) => Some(Bool(b))
    case OfNumber(n) => NumeralValue(libc, n)
  }

  /** Two texts one after the other. */
  lemma PastTwice(a: string, b: string, rest: string, l: nat)
    ensures Past(b, rest, l + NewLines(a)) == Past(a + b, rest, l)
  {
    hide NewLines;
    NewLinesSum(a, b);
  }

  lemma GapRead(g: Gap, s: string, l: nat)
    requires IsGap(g) && Solid(s)
    ensures SkipWs(Pos(GapText(g) + s, l)) == Past(GapText(g), s, l)
  {
    GapSkipped(g, s, l);
    SolidStays(s, l + NewLines(GapText(g)));
  }

  lemma QuoteSolid(q: Quote, s: string)
    requires IsQuoted(q)
    ensures QuoteText(q) != "" && Solid(QuoteText(q) + s) && (QuoteText(q) + s)[0] == q.mark
  {
    assert (QuoteText(q) + s)[0] == q.mark;
  }

  /** A gap, a string and a gap inside an array. */
  lemma ElementRead(before: Gap, q: Quote, after: Gap, s: string, l: nat)
    requires IsGap(before) && IsQuoted(q) && IsGap(after) && Solid(s)
    ensures var text := GapText(before) + (QuoteText(q) + (GapText(after) + s));
            var here := SkipWs(Pos(text, l));
            && here.rest != "" && here.rest[0] != ']' && ArrayItem(here).Ok? && ArrayItem(here).value == QuoteValue(q)
            && SkipWs(ArrayItem(here).at) == Past(GapText(before) + (QuoteText(q) + GapText(after)), s, l)
  {
    hide QuoteText, QuotedString, QuoteValue, SkipWs, NewLines, GapText, AreItems;
    var tail := GapText(after) + s;
    QuoteSolid(q, tail);
    GapRead(before, QuoteText(q) + tail, l);
    var l1 := l + NewLines(GapText(before));
    QuoteRead(q, tail, l1);
    var l2 := l1 + NewLines(QuoteText(q));
    GapRead(after, s, l2);
    PastTwice(QuoteText(q), GapText(after), s, l1);
    PastTwice(GapText(before), QuoteText(q) + GapText(after), s, l);
  }

  lemma {:induction false} ElementsRead(es: Elements, s: string, l: nat)
    requires AreElements(es)
    ensures ArrayItems(Pos(ElementsText(es) + s, l)) == Ok(ElementValues(es), Past(ElementsText(es), s, l))
    decreases es
  {
    hide QuoteText, QuoteValue, ArrayItem, SkipWs, NewLines, GapText, IsQuoted;
    match es
    case NoMore(gap) =>
      Assoc(GapText(gap), "]", s);
      GapRead(gap, "]" + s, l);
      assert ("]" + s)[1..] == s;
      PastBracket(GapText(gap), s, l);
    case Last(before, q, after) =>
      Assoc4(GapText(before), QuoteText(q), GapText(after), "]", s);
      ElementRead(before, q, after, "]" + s, l);
      assert ("]" + s)[1..] == s;
      Inner(GapText(before), QuoteText(q), GapText(after), "]");
      assert ElementsText(es) == GapText(before) + (QuoteText(q) + GapText(after)) + "]";
      PastBracket(GapText(before) + (QuoteText(q) + GapText(after)), s, l);
    case More(before, q, after, rest) =>
      var inner, more := GapText(before) + (QuoteText(q) + GapText(after)), ElementsText(rest);
      Assoc4(GapText(before), QuoteText(q), GapText(after), "," + more, s);
      assert ("," + more) + s == "," + (more + s) && ("," + (more + s))[1..] == more + s;
      ElementRead(before, q, after, "," + (more + s), l);
      ElementsRead(rest, s, l + NewLines(inner));
      Inner(GapText(before), QuoteText(q), GapText(after), "," + more);
      NewLinesSum(inner, "," + more);
      NewLinesSum(",", more);
      NoNewLines(",");
  }

  lemma PastBracket(a: string, s: string, l: nat)
    ensures Pos(s, l + NewLines(a)) == Past(a + "]", s, l)
  {
    NewLinesSum(a, "]");
    NoNewLines("]");
  }

  lemma Assoc4(a: string, b: string, c: string, d: string, s: string)
    ensures a + (b + (c + d)) + s == a + (b + (c + (d + s)))
  {
  }

  lemma Inner(a: string, b: string, c: string, d: string)
    ensures a + (b + (c + d)) == a + (b + c) + d
  {
  }

  /** A value is read as what its spelling stands for, or refused. */
  lemma ValueIsRead(libc: Libc, v: Spelling, s: string, l: nat)
    requires IsSpelling(v) && AfterValue(s)
    ensures var o := ReadValue(libc, Pos(SpellingText(v) + s, l));
            match SpellingValue(libc, v)
            case Some(w) => o == Ok(w, Past(SpellingText(v), s, l))
            case None => v.OfNumber? && o == Err(if HasMark(v.n.parts) then InvalidFloat else InvalidInteger, l)
  {
    match v
    case OfString(q) => StringIsRead(libc, q, s, l);
    case OfArray(es) => ArrayIsRead(libc, es, s, l);
    case OfBool(b) => WordIsRead(libc, b, s, l);
    case OfNumber(n) => NumberIsRead(libc, n, s, l);
  }

  lemma StringIsRead(libc: Libc, q: Quote, s: string, l: nat)
    requires IsQuoted(q)
    ensures ReadValue(libc, Pos(QuoteText(q) + s, l)) == Ok(Str(QuoteValue(q)), Past(QuoteText(q), s, l))
  {
    hide QuoteText, QuoteValue, QuotedString, NewLines, IsQuoted;
    QuoteMark(q);
    QuoteSolid(q, s);
    QuoteRead(q, s, l);
  }

  lemma ArrayIsRead(libc: Libc, es: Elements, s: string, l: nat)
    requires AreElements(es)
    ensures ReadValue(libc, Pos("[" + ElementsText(es) + s, l)) ==
            Ok(Arr(ElementValues(es)), Past("[" + ElementsText(es), s, l))
  {
    hide ArrayItems, ElementsText, ElementValues, NewLines, AreElements;
    var t := "[" + ElementsText(es) + s;
    assert t == "[" + (ElementsText(es) + s) && t[1..] == ElementsText(es) + s;
    ElementsRead(es, s, l);
    NewLinesSum("[", ElementsText(es));
    NoNewLines("[");
  }

  lemma WordIsRead(libc: Libc, b: bool, s: string, l: nat)
    requires AfterValue(s)
    ensures var w := if b then "true" else "false";
            ReadValue(libc, Pos(w + s, l)) == Ok(Bool(b), Past(w, s, l))
  {
    hide NewLines, Number;
    var w := if b then "true" else "false";
    var t := w + s;
    assert t[|w|..] == s;
    NoNewLines(w);
    if !b {
      assert !("true" <= t) by {
        assert t[0] == 'f';
      }
    }
  }

  lemma NumberIsRead(libc: Libc, n: Numeral, s: string, l: nat)
    requires IsNumeral(n) && AfterValue(s)
    ensures ReadValue(libc, Pos(NumeralText(n) + s, l)) ==
            match NumeralValue(libc, n)
            case Some(w) => Ok(w, Past(NumeralText(n), s, l))
            case None => Err(if HasMark(n.parts) then InvalidFloat else InvalidInteger, l)
  {
    hide NewLines, Number, NumeralValue, NumeralText, IsNumeral, HasMark;
    var t := NumeralText(n) + s;
    NumeralFirst(n, s);
    assert !("true" <= t) && !("false" <= t);
    NumeralRead(libc, n, s, l);
    NumeralLines(n);
  }

  lemma QuoteMark(q: Quote)
    requires IsQuoted(q)
    ensures IsQuote(q.mark)
  {
  }

  lemma NumeralFirst(n: Numeral, s: string)
    requires IsNumeral(n)
    ensures NumeralText(n) != ""
    ensures var c := (NumeralText(n) + s)[0]; '0' <= c <= '9' || c in {'+', '-', '.'}
  {
    PartsUnsigned(n.parts, s);
    assert n.sign.None? ==> NumeralText(n) == PartsText(n.parts);
  }

  lemma NumeralLines(n: Numeral)
    requires IsNumeral(n)
    ensures NewLines(NumeralText(n)) == 0
  {
    PartsLines(n.parts, false);
    NoNewLines(NumeralText(n));
  }

  lemma {:induction false} PartsLines(ps: seq<Part>, digits: bool)
    requires AreParts(ps, digits)
    ensures '\n' !in PartsText(ps)
    decreases |ps|
  {
    if ps != [] {
      PartsLines(ps[1..], digits || ps[0].Digit?);
    }
  }

  lemma {:induction false} ElementsOf(at: Pos) returns (es: Elements)
    requires ArrayItems(at).Ok?
    ensures AreElements(es) && at.rest == ElementsText(es) + ArrayItems(at).at.rest
    decreases |at.rest|
  {
    hide QuoteText, QuotedString, SkipWs, NewLines, GapText, IsQuoted;
    var g, c := GapOf(at);
    var here := SkipWs(at);
    LastGap(g, c, at.rest, here.rest);
    if Peek(here.rest, ']') {
      es := NoMore(g);
      Assoc(GapText(g), "]", here.rest[1..]);
    } else {
      var q := QuoteOf(here);
      var next := ArrayItem(here).at;
      var g', c' := GapOf(next);
      var after := SkipWs(next);
      LastGap(g', c', next.rest, after.rest);
      var rest := ArrayItems(at).at.rest;
      if Peek(after.rest, ',') {
        var more := ElementsOf(Pos(after.rest[1..], after.line));
        es := More(g, q, g', more);
        assert after.rest == ("," + ElementsText(more)) + rest;
        Assoc4(GapText(g), QuoteText(q), GapText(g'), "," + ElementsText(more), rest);
      } else {
        es := Last(g, q, g');
        assert after.rest == "]" + rest;
        Assoc4(GapText(g), QuoteText(q), GapText(g'), "]", rest);
      }
    }
  }

  /** A gap that something follows needs no last comment. */
  lemma LastGap(g: Gap, c: Option<string>, s: string, rest: string)
    requires s == GapText(g) + LastComment(c) + rest && (c.Some? ==> rest == "")
    ensures rest != "" ==> c.None? && s == GapText(g) + rest
  {
    assert c.None? ==> GapText(g) + LastComment(c) == GapText(g);
  }

  /** Whatever is read as a value is a spelling. */
  lemma SpellingOf(libc: Libc, at: Pos) returns (v: Spelling)
    requires ReadValue(libc, at).Ok?
    ensures IsSpelling(v) && at.rest == SpellingText(v) + ReadValue(libc, at).at.rest
  {
    hide QuoteText, QuotedString, ArrayItems, ElementsText, Number, NumeralText, IsQuoted, AreElements, IsNumeral;
    var s := at.rest;
    if IsQuote(s[0]) {
      var q := QuoteOf(at);
      v := OfString(q);
    } else if s[0] == '[' {
      var es := ElementsOf(Pos(s[1..], at.line));
      v := OfArray(es);
      assert s == "[" + s[1..];
    } else if StartsWord(s, "true") {
      v := OfBool(true);
    } else if StartsWord(s, "false") {
      v := OfBool(false);
    } else {
      var n := NumeralOf(libc, at);
      v := OfNumber(n);
    }
  }

  // ------------------------------------------------------------------
  // Statements
  // ------------------------------------------------------------------

  datatype Phrase = Opens(keys: seq<Segment>) | Sets(keys: seq<Segment>, before: Gap, after: Gap, v: Spelling)

  predicate IsPhrase(st: Phrase) {
    AreKeys(st.keys) && (st.Sets? ==> IsGap(st.before) && IsGap(st.after) && IsSpelling(st.v))
  }

  function PhraseText(st: Phrase): string
    requires IsPhrase(st)
  {
    match st
    case Opens(ks) => "[" + (KeysText(ks) + "]")
    case Sets(ks, before, after, v) => KeysText(ks) + (GapText(before) + ("=" + (GapText(after) + SpellingText(v))))
  }

  /** The table that a new member goes to. */
  function ParentOf(names: Path, cur: Path): Path
    requires names != []
  {
    cur + names[..|names| - 1]
  }

  /** A header enters its table from the root; a key with its value adds one member below the current table.
      None when a value is in the way, the key is there already, or the value is refused. */
  function Effect(libc: Libc, st: Phrase, scope: Scope): Option<Scope>
    requires IsPhrase(st)
  {
    var names := KeyNames(st.keys);
    match st
    case Opens(_) => (match Enter(scope.root, names) case None => None case Some(root) => Some(Scope(root, names)))
    case Sets(_, _, _, v) =>
      match Enter(scope.root, ParentOf(names, scope.cur))
      case None => None
      case Some(root) =>
        match SpellingValue(libc, v)
        case None => None
        case Some(w) =>
          match AddAt(root, ParentOf(names, scope.cur), names[|names| - 1], w)
          case None => None
          case Some(root') => Some(Scope(root', scope.cur))
  }

  lemma TailFirst(t: Tail, rest: string)
    requires IsTail(t) && AtLineEnd(rest)
    ensures AfterValue(TailText(t) + rest)
  {
    if t.blanks != "" {
      assert (TailText(t) + rest)[0] == t.blanks[0];
    } else if t.comment.Some? {
      assert (TailText(t) + rest)[0] == '#';
    } else {
      assert TailText(t) + rest == rest;
    }
  }

  lemma TailLines(t: Tail)
    requires IsTail(t)
    ensures NewLines(TailText(t)) == 0
  {
    NoNewLines(TailText(t));
  }

  lemma GapFirst(g: Gap, s: string)
    requires IsGap(g) && s != "" && !BareChar(s[0]) && s[0] != '.'
    ensures EndsKeys(GapText(g) + s)
  {
    if g != [] {
      assert (GapText(g) + s)[0] == PieceText(g[0])[0];
    } else {
      assert GapText(g) + s == s;
    }
  }

  lemma KeysFirst(ks: seq<Segment>, s: string)
    requires AreKeys(ks)
    ensures KeysText(ks) != ""
    ensures var c := (KeysText(ks) + s)[0]; BareChar(c) || c == '"' || c == '\''
  {
    var k := SegmentText(ks[0]);
    assert (KeysText(ks) + s)[0] == k[0];
  }

  lemma SpellingFirst(v: Spelling, s: string)
    requires IsSpelling(v)
    ensures SpellingText(v) != "" && Solid(SpellingText(v) + s)
  {
    hide QuoteText, ElementsText, NumeralText, IsNumeral, AreElements;
    match v
    case OfString(q) => QuoteSolid(q, s);
    case OfArray(es) => assert (SpellingText(v) + s)[0] == '[';
    case OfBool(b) => assert (SpellingText(v) + s)[0] == SpellingText(v)[0];
    case OfNumber(n) => NumeralFirst(n, s);
  }

  /** A header is read as what it does, or refused. */
  lemma HeaderRead(st: Phrase, tail: Tail, rest: string, l: nat, scope: Scope)
    requires st.Opens? && IsPhrase(st) && IsTail(tail) && AtLineEnd(rest)
    ensures var names := KeyNames(st.keys);
            HeaderLine(Pos(KeysText(st.keys) + ("]" + (TailText(tail) + rest)), l), scope) ==
            match Enter(scope.root, names)
            case None => Err(CrossesValue, l + NewLines(KeysText(st.keys)))
            case Some(root) => Ok(Scope(root, names), Past(KeysText(st.keys), rest, l))
  {
    hide KeysText, KeyNames, KeyPath, NewLines, SkipLineEnd, Enter, AreKeys;
    var ks, after := st.keys, TailText(tail) + rest;
    KeysRead(ks, "]" + after, l);
    assert ("]" + after)[1..] == after;
    TailSkipped(tail, rest, l + NewLines(KeysText(ks)));
  }

  /** The key, the equals sign and the gaps around it. */
  lemma KeyRead(libc: Libc, st: Phrase, more: string, l: nat, scope: Scope)
    requires st.Sets? && IsPhrase(st) && Solid(more)
    ensures var text := KeysText(st.keys) + (GapText(st.before) + ("=" + GapText(st.after)));
            var all := KeysText(st.keys) + (GapText(st.before) + ("=" + (GapText(st.after) + more)));
            KeyLine(libc, Pos(all, l), scope) == Assignment(libc, Past(text, more, l), scope, KeyNames(st.keys))
  {
    hide KeysText, KeyNames, KeyPath, NewLines, SkipWs, Assignment, AreKeys, GapText, IsSpelling;
    var ks, eq := st.keys, "=" + (GapText(st.after) + more);
    var l1 := l + NewLines(KeysText(ks));
    var l2 := l1 + NewLines(GapText(st.before));
    GapFirst(st.before, eq);
    KeysRead(ks, GapText(st.before) + eq, l);
    GapRead(st.before, eq, l1);
    assert eq[1..] == GapText(st.after) + more;
    GapRead(st.after, more, l2);
    NoNewLines("=");
    NewLinesSum("=", GapText(st.after));
    NewLinesSum(GapText(st.before), "=" + GapText(st.after));
    NewLinesSum(KeysText(ks), GapText(st.before) + ("=" + GapText(st.after)));
  }

  /** The value and the rest of its line. */
  lemma AssignmentRead(libc: Libc, st: Phrase, tail: Tail, rest: string, l: nat, scope: Scope)
    requires st.Sets? && IsPhrase(st) && IsTail(tail) && AtLineEnd(rest)
    ensures var o := Assignment(libc, Pos(SpellingText(st.v) + (TailText(tail) + rest), l), scope, KeyNames(st.keys));
            if Enter(scope.root, ParentOf(KeyNames(st.keys), scope.cur)).None? then o == Err(CrossesValue, l)
            else if SpellingValue(libc, st.v).None? then
              st.v.OfNumber? && o == Err(if HasMark(st.v.n.parts) then InvalidFloat else InvalidInteger, l)
            else
              match Effect(libc, st, scope)
              case Some(scope') => o == Ok(scope', Past(SpellingText(st.v), rest, l))
              case None => o == Err(DuplicateKey, l + NewLines(SpellingText(st.v)))
  {
    hide KeyNames, SpellingText, SpellingValue, ReadValue, SkipLineEnd, Enter, AddAt, IsSpelling, NewLines, HasMark;
    var after := TailText(tail) + rest;
    TailFirst(tail, rest);
    ValueIsRead(libc, st.v, after, l);
    TailSkipped(tail, rest, l + NewLines(SpellingText(st.v)));
  }

  /** A statement with what ends it is read as what it does, or refused. */
  lemma PhraseRead(libc: Libc, st: Phrase, tail: Tail, rest: string, l: nat, scope: Scope)
    requires IsPhrase(st) && IsTail(tail) && AtLineEnd(rest)
    ensures PhraseText(st) != "" && Solid(PhraseText(st) + (TailText(tail) + rest))
    ensures var o := Statement(libc, Pos(PhraseText(st) + (TailText(tail) + rest), l), scope);
            match Effect(libc, st, scope)
            case Some(scope') => o == Ok(scope', Past(PhraseText(st), rest, l))
            case None => o.Err?
  {
    hide KeysText, KeyNames, HeaderLine, KeyLine, Assignment, NewLines, GapText, SpellingText, AreKeys, IsSpelling;
    hide Enter, AddAt, SpellingValue;
    var end := TailText(tail) + rest;
    match st
    case Opens(ks) =>
      var t := "[" + (KeysText(ks) + "]") + end;
      assert t[1..] == KeysText(ks) + ("]" + end);
      HeaderRead(st, tail, rest, l, scope);
      NewLinesSum("[", KeysText(ks) + "]");
      NewLinesSum(KeysText(ks), "]");
      NoNewLines("[");
      NoNewLines("]");
    case Sets(ks, before, after, v) =>
      var inner := GapText(before) + ("=" + (GapText(after) + (SpellingText(v) + end)));
      assert PhraseText(st) + end == KeysText(ks) + inner;
      KeysFirst(ks, inner);
      SpellingFirst(v, end);
      KeyRead(libc, st, SpellingText(v) + end, l, scope);
      var head := KeysText(ks) + (GapText(before) + ("=" + GapText(after)));
      AssignmentRead(libc, st, tail, rest, l + NewLines(head), scope);
      assert PhraseText(st) == head + SpellingText(v);
      PastTwice(head, SpellingText(v), rest, l);
  }

  /** Whatever is read as a statement is spelled as one. */
  lemma PhraseOf(libc: Libc, at: Pos, scope: Scope) returns (st: Phrase, tail: Tail)
    requires at.rest != "" && Statement(libc, at, scope).Ok?
    ensures IsPhrase(st) && IsTail(tail)
    ensures var o := Statement(libc, at, scope);
            && AtLineEnd(o.at.rest) && at.rest == PhraseText(st) + (TailText(tail) + o.at.rest)
            && Effect(libc, st, scope) == Some(o.value) && o.at == Past(PhraseText(st), o.at.rest, at.line)
  {
    hide HeaderLine, KeyLine, PhraseText, IsPhrase, TailText, IsTail, AtLineEnd, Effect, NewLines;
    var rest := Statement(libc, at, scope).at.rest;
    if at.rest[0] == '[' {
      st, tail := HeaderOf(Pos(at.rest[1..], at.line), scope);
      assert at.rest == "[" + at.rest[1..];
    } else {
      st, tail := SettingOf(libc, at, scope);
    }
    hide Statement;
    PhraseRead(libc, st, tail, rest, at.line, scope);
  }

  lemma HeaderOf(at: Pos, scope: Scope) returns (st: Phrase, tail: Tail)
    requires HeaderLine(at, scope).Ok?
    ensures st.Opens? && IsPhrase(st) && IsTail(tail) && AtLineEnd(HeaderLine(at, scope).at.rest)
    ensures "[" + at.rest == PhraseText(st) + (TailText(tail) + HeaderLine(at, scope).at.rest)
  {
    hide KeysText, KeyNames, KeyPath, NewLines, SkipLineEnd, Enter, AreKeys, TailText;
    var ks := KeysOf(at);
    st := Opens(ks);
    var next := KeyPath(at).at;
    tail := TailOf(Pos(next.rest[1..], next.line));
    assert next.rest == "]" + next.rest[1..];
    Assoc3("[", KeysText(ks), "]", next.rest[1..]);
  }

  lemma Assoc3(a: string, b: string, c: string, d: string)
    ensures a + (b + (c + d)) == (a + (b + c)) + d
  {
  }

  lemma SettingOf(libc: Libc, at: Pos, scope: Scope) returns (st: Phrase, tail: Tail)
    requires KeyLine(libc, at, scope).Ok?
    ensures st.Sets? && IsPhrase(st) && IsTail(tail) && AtLineEnd(KeyLine(libc, at, scope).at.rest)
    ensures at.rest == PhraseText(st) + (TailText(tail) + KeyLine(libc, at, scope).at.rest)
  {
    hide KeysText, KeyNames, KeyPath, NewLines, SkipLineEnd, SkipWs, Enter, AreKeys, TailText, GapText, ReadValue;
    hide AddAt, SpellingText, IsSpelling;
    var ks := KeysOf(at);
    var next := KeyPath(at).at;
    var before, c := GapOf(next);
    var eq := SkipWs(next);
    LastGap(before, c, next.rest, eq.rest);
    var after, c' := GapOf(Pos(eq.rest[1..], eq.line));
    var start := SkipWs(Pos(eq.rest[1..], eq.line));
    LastGap(after, c', eq.rest[1..], start.rest);
    var v := SpellingOf(libc, start);
    var end := ReadValue(libc, start).at;
    tail := TailOf(end);
    st := Sets(ks, before, after, v);
    var rest := KeyLine(libc, at, scope).at.rest;
    SettingText(KeysText(ks), GapText(before), GapText(after), SpellingText(v), TailText(tail) + rest);
    assert start.rest == SpellingText(v) + (TailText(tail) + rest) && start.rest != "";
    assert eq.rest == "=" + eq.rest[1..];
  }

  lemma SettingText(k: string, b: string, a: string, v: string, end: string)
    ensures k + (b + ("=" + (a + v))) + end == k + (b + ("=" + (a + (v + end))))
  {
  }

  // ------------------------------------------------------------------
  // Documents
  // ------------------------------------------------------------------

  /** A statement with the gap before it and what ends it. */
  datatype Line = Line(gap: Gap, st: Phrase, tail: Tail)

  predicate IsLine(n: Line) { IsGap(n.gap) && IsPhrase(n.st) && IsTail(n.tail) }

  predicate OnNewLine(g: Gap) { g != [] && g[0].NewLine? }

  /** Every statement but the first is on a new line. */
  predicate AreLines(ls: seq<Line>) {
    (forall i :: 0 <= i < |ls| ==> IsLine(ls[i])) && forall i :: 0 < i < |ls| ==> OnNewLine(ls[i].gap)
  }

  function LineText(n: Line): string
    requires IsLine(n)
  {
    GapText(n.gap) + (PhraseText(n.st) + TailText(n.tail))
  }

  function LinesText(ls: seq<Line>): string
    requires AreLines(ls)
  {
    if ls == [] then "" else LineText(ls[0]) + LinesText(ls[1..])
  }

  /** What the statements do, one after the other. */
  function Effects(libc: Libc, ls: seq<Line>, scope: Scope): Option<Scope>
    requires AreLines(ls)
  {
    if ls == [] then Some(scope)
    else
      match Effect(libc, ls[0].st, scope)
      case None => None
      case Some(scope') => Effects(libc, ls[1..], scope')
  }

  datatype Doc = Doc(lines: seq<Line>, gap: Gap, comment: Option<string>)

  predicate IsDoc(d: Doc) {
    && AreLines(d.lines) && IsGap(d.gap) && IsLastComment(d.comment)
    && (d.lines != [] ==> OnNewLine(d.gap) || (d.gap == [] && d.comment.None?))
  }

  function DocText(d: Doc): string
    requires IsDoc(d)
  {
    LinesText(d.lines) + (GapText(d.gap) + LastComment(d.comment))
  }

  /** The tree that the statements build from nothing. */
  function Meaning(libc: Libc, d: Doc): Option<Members>
    requires IsDoc(d)
  {
    match Effects(libc, d.lines, Scope([], [])) case None => None case Some(scope) => Some(scope.root)
  }

  lemma LineSplit(n: Line, more: string)
    requires IsLine(n)
    ensures LineText(n) + more == GapText(n.gap) + (PhraseText(n.st) + (TailText(n.tail) + more))
  {
    Assoc(GapText(n.gap), PhraseText(n.st) + TailText(n.tail), more);
    Assoc(PhraseText(n.st), TailText(n.tail), more);
  }

  /** Reading one line. */
  lemma LineRead(libc: Libc, n: Line, more: string, l: nat, scope: Scope)
    requires IsLine(n) && AtLineEnd(more)
    ensures var o := Document(libc, Pos(LineText(n) + more, l), scope);
            match Effect(libc, n.st, scope)
            case Some(scope') => o == Document(libc, Past(LineText(n), more, l), scope')
            case None => o.Err?
  {
    hide GapText, PhraseText, TailText, SkipWs, Statement, Effect, NewLines, IsPhrase;
    var end := TailText(n.tail) + more;
    LineSplit(n, more);
    PhraseRead(libc, n.st, n.tail, more, l + NewLines(GapText(n.gap)), scope);
    GapRead(n.gap, PhraseText(n.st) + end, l);
    assert PhraseText(n.st) + end != "";
    TailLines(n.tail);
    NewLinesSum(PhraseText(n.st), TailText(n.tail));
    NewLinesSum(GapText(n.gap), PhraseText(n.st) + TailText(n.tail));
  }

  lemma NewLineFirst(g: Gap, s: string)
    requires OnNewLine(g)
    ensures AtLineEnd(GapText(g) + s)
  {
    assert (GapText(g) + s)[0] == '\n';
  }

  /** Reading goes through any lines and does what they say; it fails when one of them does. */
  lemma {:induction false} LinesRead(libc: Libc, ls: seq<Line>, rest: string, l: nat, scope: Scope)
    requires AreLines(ls) && (ls != [] ==> AtLineEnd(rest))
    ensures var o := Document(libc, Pos(LinesText(ls) + rest, l), scope);
            match Effects(libc, ls, scope)
            case Some(scope') => o == Document(libc, Past(LinesText(ls), rest, l), scope')
            case None => o.Err?
    decreases |ls|
  {
    hide LineText, Document, Effect, NewLines, IsGap, IsPhrase, IsTail;
    if ls == [] {
      assert "" + rest == rest;
      NoNewLines("");
    } else {
      var n, more := LineText(ls[0]), LinesText(ls[1..]);
      Assoc(n, more, rest);
      MoreLines(ls, rest);
      LineRead(libc, ls[0], more + rest, l, scope);
      if Effect(libc, ls[0].st, scope).Some? {
        LinesRead(libc, ls[1..], rest, l + NewLines(n), Effect(libc, ls[0].st, scope).value);
        PastTwice(n, more, rest, l);
      }
    }
  }

  lemma MoreLines(ls: seq<Line>, rest: string)
    requires AreLines(ls) && ls != [] && AtLineEnd(rest)
    ensures AreLines(ls[1..]) && AtLineEnd(LinesText(ls[1..]) + rest)
  {
    hide GapText, PhraseText, TailText, IsLine;
    if |ls| > 1 {
      var n, more := ls[1], LinesText(ls[1..][1..]);
      Assoc(LineText(n), more, rest);
      LineSplitFirst(n, more + rest);
    } else {
      assert LinesText([]) + rest == rest;
    }
  }

  lemma LineSplitFirst(n: Line, s: string)
    requires IsLine(n) && OnNewLine(n.gap)
    ensures AtLineEnd(LineText(n) + s)
  {
    Assoc(GapText(n.gap), PhraseText(n.st) + TailText(n.tail), s);
    NewLineFirst(n.gap, PhraseText(n.st) + TailText(n.tail) + s);
  }

  lemma DocEnd(d: Doc)
    requires IsDoc(d) && d.lines != []
    ensures AtLineEnd(GapText(d.gap) + LastComment(d.comment))
  {
    if d.gap != [] {
      NewLineFirst(d.gap, LastComment(d.comment));
    }
  }

  /** Every spelling of a document is accepted as what its statements build, and refused when they do not go
      together. */
  lemma Accepted(libc: Libc, d: Doc)
    requires IsDoc(d)
    ensures var o := Parse(libc, DocText(d));
            match Meaning(libc, d)
            case Some(t) => o.Ok? && o.value == t
            case None => o.Err?
  {
    hide LinesText, GapText, Effects, LastComment, NewLines, SkipWs, AreLines;
    var end := GapText(d.gap) + LastComment(d.comment);
    if d.lines != [] {
      DocEnd(d);
    }
    LinesRead(libc, d.lines, end, 1, Scope([], []));
    LastGapSkipped(d.gap, d.comment, 1 + NewLines(LinesText(d.lines)));
  }

  /** What reading accepts is spelled as lines that do what was read. */
  lemma {:induction false} LinesOf(libc: Libc, at: Pos, scope: Scope, first: bool) returns (d: Doc)
    requires Document(libc, at, scope).Ok? && (!first ==> AtLineEnd(at.rest))
    ensures IsDoc(d) && at.rest == DocText(d)
    ensures !first ==> if d.lines != [] then OnNewLine(d.lines[0].gap)
                       else OnNewLine(d.gap) || (d.gap == [] && d.comment.None?)
    ensures var o := Effects(libc, d.lines, scope); o.Some? && o.value.root == Document(libc, at, scope).value
    decreases |at.rest|
  {
    hide GapText, LastComment, SkipWs, Statement, NewLines, PhraseText, TailText, Effect, IsPhrase, IsTail;
    var g, c := GapOf(at);
    var here := SkipWs(at);
    if !first {
      FirstPiece(g, c, here.rest, at.rest);
    }
    if here.rest == "" {
      d := Doc([], g, c);
      assert GapText(g) + LastComment(c) + "" == GapText(g) + LastComment(c);
      assert "" + (GapText(g) + LastComment(c)) == GapText(g) + LastComment(c);
    } else {
      LastGap(g, c, at.rest, here.rest);
      var st, tail := PhraseOf(libc, here, scope);
      var o := Statement(libc, here, scope);
      var more := LinesOf(libc, o.at, o.value, false);
      d := FirstLine(Line(g, st, tail), more, at.rest);
    }
  }

  lemma FirstLine(n: Line, more: Doc, s: string) returns (d: Doc)
    requires IsLine(n) && IsDoc(more) && s == GapText(n.gap) + (PhraseText(n.st) + (TailText(n.tail) + DocText(more)))
    requires if more.lines != [] then OnNewLine(more.lines[0].gap)
             else OnNewLine(more.gap) || (more.gap == [] && more.comment.None?)
    ensures d == more.(lines := [n] + more.lines) && IsDoc(d) && s == DocText(d)
    ensures d.lines[1..] == more.lines
  {
    hide GapText, LastComment, PhraseText, TailText, IsLine;
    d := more.(lines := [n] + more.lines);
    assert d.lines[1..] == more.lines;
    LineSplit(n, DocText(more));
    Assoc(LineText(n), LinesText(more.lines), GapText(more.gap) + LastComment(more.comment));
  }

  /** A text that begins with a newline has it as the first piece of its gap. */
  lemma FirstPiece(g: Gap, c: Option<string>, rest: string, s: string)
    requires IsGap(g) && s == GapText(g) + LastComment(c) + rest && Solid(rest) && (c.Some? ==> rest == "")
    requires AtLineEnd(s)
    ensures OnNewLine(g) || (g == [] && c.None? && rest == "")
  {
    if g != [] {
      assert s[0] == PieceText(g[0])[0];
    } else {
      assert s == LastComment(c) + rest;
      HashFirst(c, rest);
    }
  }

  lemma HashFirst(c: Option<string>, rest: string)
    ensures c.Some? ==> LastComment(c) + rest != "" && (LastComment(c) + rest)[0] == '#'
    ensures c.None? ==> LastComment(c) + rest == rest
  {
  }

  /** toml_parse accepts exactly the spellings of documents whose statements go together, and gives the tree
      that they build. */
  lemma ParseIff(libc: Libc, text: string, t: Members)
    ensures (Parse(libc, text).Ok? && Parse(libc, text).value == t) <==>
            exists d :: IsDoc(d) && DocText(d) == text && Meaning(libc, d) == Some(t)
  {
    hide DocText, Meaning, Document;
    if Parse(libc, text).Ok? {
      var d := DocOf(libc, text);
    }
    forall d | IsDoc(d) && DocText(d) == text && Meaning(libc, d) == Some(t)
      ensures Parse(libc, text).Ok? && Parse(libc, text).value == t
    {
      Accepted(libc, d);
    }
  }

  lemma DocOf(libc: Libc, text: string) returns (d: Doc)
    requires Parse(libc, text).Ok?
    ensures IsDoc(d) && DocText(d) == text && Meaning(libc, d) == Some(Parse(libc, text).value)
  {
    hide DocText, Effects, Document;
    d := LinesOf(libc, Pos(text, 1), Scope([], []), true);
  }

  /** Gaps and comments make no difference: documents with the same statements have the same tree. */
  lemma {:induction false} SameStatements(libc: Libc, a: seq<Line>, b: seq<Line>, scope: Scope)
    requires AreLines(a) && AreLines(b) && |a| == |b| && forall i :: 0 <= i < |a| ==> a[i].st == b[i].st
    ensures Effects(libc, a, scope) == Effects(libc, b, scope)
    decreases |a|
  {
    hide Effect, IsGap, IsPhrase, IsTail;
    if a != [] && Effect(libc, a[0].st, scope).Some? {
      SameStatements(libc, a[1..], b[1..], Effect(libc, a[0].st, scope).value);
    }
  }

  /** So do the whole texts: gaps and comments change neither whether a document is read nor its tree. */
  lemma SameTree(libc: Libc, a: Doc, b: Doc)
    requires IsDoc(a) && IsDoc(b) && |a.lines| == |b.lines|
    requires forall i :: 0 <= i < |a.lines| ==> a.lines[i].st == b.lines[i].st
    ensures var x, y := Parse(libc, DocText(a)), Parse(libc, DocText(b));
            (x.Ok? <==> y.Ok?) && (x.Ok? ==> x.value == y.value)
  {
    Accepted(libc, a);
    Accepted(libc, b);
    hide DocText, Effects;
    SameStatements(libc, a.lines, b.lines, Scope([], []));
  }

  /** A comment on a line of its own before statement k, and one behind it, make no difference. */
  lemma CommentIgnored(libc: Libc, d: Doc, k: nat, c: string)
    requires IsDoc(d) && k < |d.lines| && '\n' !in c
    ensures var n := d.lines[k];
            var before := d.(lines := d.lines[k := n.(gap := n.gap + [Comment(c)])]);
            var behind := d.(lines := d.lines[k := n.(tail := n.tail.(comment := Some(c)))]);
            && IsDoc(before) && IsDoc(behind)
            && LineText(before.lines[k]) == GapText(n.gap) + ("#" + c + "\n") + (PhraseText(n.st) + TailText(n.tail))
            && LineText(behind.lines[k]) == GapText(n.gap) + (PhraseText(n.st) + (n.tail.blanks + ("#" + c)))
            && forall e :: e in {before, behind} ==>
                 && (Parse(libc, DocText(e)).Ok? <==> Parse(libc, DocText(d)).Ok?)
                 && (Parse(libc, DocText(e)).Ok? ==> Parse(libc, DocText(e)).value == Parse(libc, DocText(d)).value)
  {
    var n := d.lines[k];
    var before := d.(lines := d.lines[k := n.(gap := n.gap + [Comment(c)])]);
    var behind := d.(lines := d.lines[k := n.(tail := n.tail.(comment := Some(c)))]);
    GapGrows(n.gap, Comment(c));
    LinesChanged(d, k, n.(gap := n.gap + [Comment(c)]));
    LinesChanged(d, k, n.(tail := n.tail.(comment := Some(c))));
    hide DocText, Effects, Parse, PhraseText, IsPhrase, GapText, IsDoc;
    SameTree(libc, before, d);
    SameTree(libc, behind, d);
  }

  lemma LinesChanged(d: Doc, k: nat, n: Line)
    requires IsDoc(d) && k < |d.lines| && IsLine(n) && (OnNewLine(d.lines[k].gap) ==> OnNewLine(n.gap))
    ensures IsDoc(d.(lines := d.lines[k := n]))
  {
    hide IsGap, IsPhrase, IsTail;
  }

  lemma {:induction false} GapGrows(g: Gap, p: Piece)
    ensures GapText(g + [p]) == GapText(g) + PieceText(p)
  {
    if g == [] {
      assert g + [p] == [p];
      assert PieceText(p) + "" == PieceText(p) && "" + PieceText(p) == PieceText(p);
    } else {
      assert (g + [p])[1..] == g[1..] + [p];
      GapGrows(g[1..], p);
      Assoc(PieceText(g[0]), GapText(g[1..]), PieceText(p));
    }
  }

  // ------------------------------------------------------------------
  // What is refused, and how
  // ------------------------------------------------------------------

  /** Nothing that a key could begin with. */
  predicate NoKey(s: string) { s == "" || !(BareChar(s[0]) || s[0] == '"' || s[0] == '\'') }

  /** The first bad statement decides: lines that go together, a gap, and a text that is refused. */
  lemma FirstError(libc: Libc, ls: seq<Line>, g: Gap, bad: string, m: Message, l: nat)
    requires AreLines(ls) && IsGap(g) && (ls != [] ==> OnNewLine(g)) && bad != "" && Solid(bad)
    requires var text := LinesText(ls) + GapText(g);
             Effects(libc, ls, Scope([], [])).Some? &&
             Statement(libc, Past(text, bad, 1), Effects(libc, ls, Scope([], [])).value) == Err(m, l)
    ensures Parse(libc, LinesText(ls) + GapText(g) + bad) == Err(m, l)
  {
    hide LinesText, GapText, Effects, Statement, NewLines, SkipWs, AreLines;
    Assoc(LinesText(ls), GapText(g), bad);
    if ls != [] {
      NewLineFirst(g, bad);
    }
    LinesRead(libc, ls, GapText(g) + bad, 1, Scope([], []));
    GapRead(g, bad, 1 + NewLines(LinesText(ls)));
    NewLinesSum(LinesText(ls), GapText(g));
  }

  /** Headers that are refused before they are entered. */
  lemma NoHeader(libc: Libc, bad: string, l: nat, scope: Scope)
    requires NoKey(bad)
    ensures Statement(libc, Pos("[" + bad, l), scope) == Err(InvalidHeader, l)
  {
    assert ("[" + bad)[1..] == bad;
    NoKeyRead(bad, l);
  }

  lemma OpenHeader(libc: Libc, ks: seq<Segment>, bad: string, l: nat, scope: Scope)
    requires AreKeys(ks) && EndsKeys(bad) && (bad == "" || bad[0] != ']')
    ensures Statement(libc, Pos("[" + (KeysText(ks) + bad), l), scope) ==
            Err(HeaderBracket, l + NewLines(KeysText(ks)))
  {
    hide KeysText, KeyNames, KeyPath, NewLines, SkipLineEnd, AreKeys;
    assert ("[" + (KeysText(ks) + bad))[1..] == KeysText(ks) + bad;
    KeysRead(ks, bad, l);
  }

  lemma LongHeader(libc: Libc, ks: seq<Segment>, b: string, bad: string, l: nat, scope: Scope)
    requires AreKeys(ks) && (forall i :: 0 <= i < |b| ==> b[i] in {' ', '\t', '\r'}) && bad != "" && Solid(bad)
    ensures Statement(libc, Pos("[" + (KeysText(ks) + ("]" + (b + bad))), l), scope) ==
            Err(TrailingHeader, l + NewLines(KeysText(ks)))
  {
    hide KeysText, KeyNames, KeyPath, NewLines, SkipLineEnd, AreKeys;
    var closed := "]" + (b + bad);
    KeysRead(ks, closed, l);
    assert ("[" + (KeysText(ks) + closed))[1..] == KeysText(ks) + closed && closed[1..] == b + bad;
    NoTail(b, bad, l + NewLines(KeysText(ks)));
  }

  /** Statements that are no header and have no key, or no equals sign after it. */
  lemma NoStatement(libc: Libc, bad: string, l: nat, scope: Scope)
    requires NoKey(bad) && bad != "" && bad[0] != '['
    ensures Statement(libc, Pos(bad, l), scope) == Err(ExpectedKey, l)
  {
    NoKeyRead(bad, l);
  }

  lemma NoEquals(libc: Libc, ks: seq<Segment>, g: Gap, bad: string, l: nat, scope: Scope)
    requires AreKeys(ks) && IsGap(g) && Solid(bad) && EndsKeys(bad) && (bad == "" || bad[0] != '=')
    ensures Statement(libc, Pos(KeysText(ks) + (GapText(g) + bad), l), scope) ==
            Err(ExpectedEquals, l + NewLines(KeysText(ks) + GapText(g)))
  {
    hide KeysText, KeyNames, KeyPath, NewLines, SkipWs, AreKeys, GapText;
    var after := GapText(g) + bad;
    if bad != "" {
      GapFirst(g, bad);
    } else {
      GapAlone(g);
    }
    KeysFirst(ks, after);
    KeysRead(ks, after, l);
    GapRead(g, bad, l + NewLines(KeysText(ks)));
    NewLinesSum(KeysText(ks), GapText(g));
  }

  lemma GapAlone(g: Gap)
    requires IsGap(g)
    ensures EndsKeys(GapText(g) + "")
  {
    if g != [] {
      assert (GapText(g) + "")[0] == PieceText(g[0])[0];
    }
  }

  /** What follows the value on its line, when it is no comment. */
  lemma LongSetting(libc: Libc, st: Phrase, b: string, bad: string, l: nat, scope: Scope)
    requires st.Sets? && IsPhrase(st) && Effect(libc, st, scope).Some?
    requires (forall i :: 0 <= i < |b| ==> b[i] in {' ', '\t', '\r'}) && b != "" && bad != "" && Solid(bad)
    ensures Assignment(libc, Pos(SpellingText(st.v) + (b + bad), l), scope, KeyNames(st.keys)) ==
            Err(TrailingValue, l + NewLines(SpellingText(st.v)))
  {
    hide KeyNames, SpellingText, SpellingValue, ReadValue, SkipLineEnd, Enter, AddAt, IsSpelling, NewLines;
    var after := b + bad;
    assert after[0] == b[0];
    ValueIsRead(libc, st.v, after, l);
    NoTail(b, bad, l + NewLines(SpellingText(st.v)));
  }

  /** Where there is no value. */
  lemma NoValue(libc: Libc, bad: string, l: nat)
    ensures ReadValue(libc, Pos("", l)) == Err(MissingValue, l)
    ensures bad != "" && !(bad[0] in {'"', '\'', '[', '+', '-', '.', 't', 'f'} || '0' <= bad[0] <= '9') ==>
              ReadValue(libc, Pos(bad, l)) == Err(InvalidValue, l)
  {
  }

  predicate WordChar(c: char) { '0' <= c <= '9' || 'a' <= c <= 'z' || 'A' <= c <= 'Z' || c == '_' }

  /** A text that goes on with t or f must go on with the whole word, and end there. */
  lemma NoWord(libc: Libc, bad: string, l: nat)
    requires bad != "" && (bad[0] == 't' || bad[0] == 'f')
    requires "true" <= bad ==> |bad| > 4 && WordChar(bad[4])
    requires "false" <= bad ==> |bad| > 5 && WordChar(bad[5])
    ensures ReadValue(libc, Pos(bad, l)) == Err(InvalidValue, l)
  {
  }

  /** Arrays that are cut short, hold something else than strings, or lack a separator. */
  lemma BadArrays(before: Gap, q: Quote, after: Gap, bad: string, l: nat)
    requires IsGap(before) && IsQuoted(q) && IsGap(after) && Solid(bad)
    ensures bad == "" ==> ArrayItems(Pos(GapText(before) + bad, l)) ==
                          Err(UnterminatedArray, l + NewLines(GapText(before)))
    ensures bad != "" && bad[0] !in {']', '"', '\''} ==>
              ArrayItems(Pos(GapText(before) + bad, l)) == Err(NotAString, l + NewLines(GapText(before)))
    ensures bad == "" || bad[0] !in {']', ','} ==>
              ArrayItems(Pos(GapText(before) + (QuoteText(q) + (GapText(after) + bad)), l)) ==
              Err(ArraySeparator, l + NewLines(GapText(before) + (QuoteText(q) + GapText(after))))
  {
    hide QuoteText, QuoteValue, SkipWs, NewLines, GapText, IsQuoted, QuotedString;
    GapRead(before, bad, l);
    ElementRead(before, q, after, bad, l);
  }

  lemma NoKeyRead(bad: string, l: nat)
    requires NoKey(bad)
    ensures KeyPath(Pos(bad, l)) == Err(NoMessage, l)
  {
  }
}
