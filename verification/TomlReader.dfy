/**
 The TOML reader (tools/src/toml.c, `toml_parse` and below): what each parsing step makes of the text
 that is left, and the cursor parser that does it.
 */
module TomlReader {
  import opened Wrappers
  import opened Strings
  import opened TomlTree
  import opened TomlWriter

  /** The messages of parse_error; `NoMessage` is a failure that leaves the message to the caller. */
  datatype Message =
    | NoMessage
    | UnterminatedString | NewlineInLiteral | ControlInLiteral | ControlInBasic
    | UnterminatedEscape | UnknownEscape | ShortUnicode | BadUnicode
    | CrossesValue | MissingValue | UnterminatedArray | NotAString | ArraySeparator
    | InvalidValue | InvalidFloat | InvalidInteger
    | InvalidHeader | HeaderBracket | TrailingHeader
    | ExpectedKey | ExpectedEquals | DuplicateKey | TrailingValue

  /** What is left to read, and the number of the current line. */
  datatype Pos = Pos(rest: string, line: nat)

  datatype Outcome<+T> = Ok(value: T, at: Pos) | Err(msg: Message, line: nat)

  predicate Peek(s: string, c: char) { s != "" && s[0] == c }

  predicate IsBlank(c: char) { c == ' ' || c == '\t' || c == '\r' }

  predicate IsQuote(c: char) { c == '"' || c == '\'' }

  predicate IsControl(c: char) { c as int < 0x20 }

  // ------------------------------------------------------------------
  // White space and comments
  // ------------------------------------------------------------------

  function SkipBlanks(s: string): (r: string)
    ensures |r| <= |s|
  {
    if s != "" && IsBlank(s[0]) then SkipBlanks(s[1..]) else s
  }

  /** A comment runs up to its newline, which stays. */
  function SkipComment(s: string): (r: string)
    ensures |r| <= |s|
    ensures r == "" || r[0] == '\n'
  {
    if s == "" || s[0] == '\n' then s else SkipComment(s[1..])
  }

  /** skip_ws: blanks, comments and newlines. */
  function SkipWs(at: Pos): (r: Pos)
    ensures |r.rest| <= |at.rest|
    decreases |at.rest|
  {
    var s := SkipBlanks(at.rest);
    if Peek(s, '#') then SkipWs(Pos(SkipComment(s[1..]), at.line))
    else if Peek(s, '\n') then SkipWs(Pos(s[1..], at.line + 1))
    else Pos(s, at.line)
  }

  /** skip_line_end: up to the newline or the end of the text; None on anything else. */
  function SkipLineEnd(at: Pos): (r: Option<Pos>)
    ensures r.Some? ==> |r.value.rest| <= |at.rest|
  {
    var s := SkipBlanks(at.rest);
    var t := if Peek(s, '#') then SkipComment(s) else s;
    if t == "" || t[0] == '\n' then Some(Pos(t, at.line)) else None
  }

  // ------------------------------------------------------------------
  // Strings
  // ------------------------------------------------------------------

  /** A buffer used as a C string ends at its first NUL. */
  function CString(buf: string): string {
    if buf == "" || buf[0] == '\0' then "" else [buf[0]] + CString(buf[1..])
  }

  function HexValue(c: char): Option<nat> {
    if '0' <= c <= '9' then Some((c - '0') as nat)
    else if 'a' <= c <= 'f' then Some((c - 'a') as nat + 10)
    else if 'A' <= c <= 'F' then Some((c - 'A') as nat + 10)
    else None
  }

  /** `left` more hexadecimal digits after those read as v. */
  function HexDigits(at: Pos, left: nat, v: nat): (r: Outcome<nat>)
    ensures r.Err? ==> !r.msg.NoMessage?
    ensures r.Ok? ==> |r.at.rest| <= |at.rest|
    decreases left
  {
    if left == 0 then Ok(v, at)
    else if at.rest == "" then Err(ShortUnicode, at.line)
    else
      match HexValue(at.rest[0])
      case None => Err(BadUnicode, at.line)
      case Some(h) => HexDigits(Pos(at.rest[1..], at.line), left - 1, v * 16 + h)
  }

  lemma HexEnd(at: Pos, v: nat)
    ensures HexDigits(at, 0, v) == Ok(v, at)
  {
  }

  lemma HexStep(at: Pos, left: nat, v: nat)
    requires left > 0
    ensures at.rest == "" ==> HexDigits(at, left, v) == Err(ShortUnicode, at.line)
    ensures at.rest != "" && HexValue(at.rest[0]).None? ==> HexDigits(at, left, v) == Err(BadUnicode, at.line)
    ensures at.rest != "" && HexValue(at.rest[0]).Some? ==>
              HexDigits(at, left, v) ==
              HexDigits(Pos(at.rest[1..], at.line), left - 1, v * 16 + HexValue(at.rest[0]).value)
  {
    hide HexValue;
  }

  function Utf8(v: nat): string {
    if v < 0x80 then [v as char]
    else if v < 0x800 then [(0xC0 + v / 0x40) as char, (0x80 + v % 0x40) as char]
    else [(0xE0 + v / 0x1000 % 0x10) as char, (0x80 + v / 0x40 % 0x40) as char, (0x80 + v % 0x40) as char]
  }

  /** The bytes an escape stands for; the backslash has been read. */
  function Escape(at: Pos): (r: Outcome<string>)
    ensures r.Err? ==> !r.msg.NoMessage?
    ensures r.Ok? ==> |r.at.rest| < |at.rest|
  {
    if at.rest == "" then Err(UnterminatedEscape, at.line)
    else
      var c, next := at.rest[0], Pos(at.rest[1..], at.line);
      if c == 'n' then Ok("\n", next)
      else if c == 't' then Ok("\t", next)
      else if c == 'r' then Ok("\r", next)
      else if c == 'b' then Ok([8 as char], next)
      else if c == 'f' then Ok([12 as char], next)
      else if c == '"' || c == '\\' then Ok([c], next)
      else if c == 'u' then
        match HexDigits(next, 4, 0)
        case Ok(v, after) => Ok(Utf8(v), after)
        case Err(m, l) => Err(m, l)
      else Err(UnknownEscape, at.line)
  }

  /** One character or escape inside a string; its closing quote has been ruled out. */
  function StringItem(at: Pos, quote: char): (r: Outcome<string>)
    requires at.rest != ""
    ensures r.Err? ==> !r.msg.NoMessage?
    ensures r.Ok? ==> |r.at.rest| < |at.rest|
  {
    var c := at.rest[0];
    var next := Pos(at.rest[1..], if c == '\n' then at.line + 1 else at.line);
    if quote == '\'' then
      if c == '\n' then Err(NewlineInLiteral, next.line)
      else if IsControl(c) then Err(ControlInLiteral, next.line)
      else Ok([c], next)
    else if c == '\\' then Escape(next)
    else if c != '\t' && c != '\n' && IsControl(c) then Err(ControlInBasic, next.line)
    else Ok([c], next)
  }

  /** parse_string: the rest of a string whose first part is in buf and whose opening quote stood on
      line `start`. */
  function StringBody(at: Pos, quote: char, buf: string, start: nat): (r: Outcome<string>)
    ensures r.Err? ==> !r.msg.NoMessage?
    ensures r.Ok? ==> |r.at.rest| < |at.rest|
    decreases |at.rest|
  {
    if at.rest == "" then Err(UnterminatedString, start)
    else if at.rest[0] == quote then Ok(CString(buf), Pos(at.rest[1..], at.line))
    else
      match StringItem(at, quote)
      case Ok(bytes, next) => StringBody(next, quote, buf + bytes, start)
      case Err(m, l) => Err(m, l)
  }

  function QuotedString(at: Pos): (r: Outcome<string>)
    requires at.rest != ""
    ensures r.Err? ==> !r.msg.NoMessage?
    ensures r.Ok? ==> |r.at.rest| < |at.rest|
  {
    StringBody(Pos(at.rest[1..], at.line), at.rest[0], "", at.line)
  }

  // ------------------------------------------------------------------
  // Keys
  // ------------------------------------------------------------------

  function BareLength(s: string): (n: nat)
    ensures n <= |s|
    ensures s != "" && IsBare(s[0]) ==> n > 0
  {
    if s != "" && IsBare(s[0]) then 1 + BareLength(s[1..]) else 0
  }

  function KeySegment(at: Pos): (r: Outcome<string>)
    ensures r.Ok? ==> |r.at.rest| < |at.rest|
  {
    if at.rest == "" then Err(NoMessage, at.line)
    else if IsQuote(at.rest[0]) then QuotedString(at)
    else if IsBare(at.rest[0]) then
      var n := BareLength(at.rest);
      Ok(at.rest[..n], Pos(at.rest[n..], at.line))
    else Err(NoMessage, at.line)
  }

  /** parse_key_path: segments separated by single dots. */
  function KeyPath(at: Pos): (r: Outcome<Path>)
    ensures r.Ok? ==> |r.at.rest| < |at.rest| && r.value != []
    decreases |at.rest|
  {
    match KeySegment(at)
    case Err(m, l) => Err(m, l)
    case Ok(seg, next) =>
      if !Peek(next.rest, '.') then Ok([seg], next)
      else
        match KeyPath(Pos(next.rest[1..], next.line))
        case Err(m, l) => Err(m, l)
        case Ok(more, after) => Ok([seg] + more, after)
  }

  // ------------------------------------------------------------------
  // Numbers
  // ------------------------------------------------------------------

  const TOKEN_MAX: nat := 63

  /** The token buffer silently drops what does not fit. */
  function Push(token: string, c: char): string {
    if |token| < TOKEN_MAX then token + [c] else token
  }

  datatype Scanned = Scanned(rest: string, token: string, digits: bool, isFloat: bool)

  /** The longest run of digits, separators, dots and exponent markers. */
  function Scan(s: string, token: string, digits: bool, isFloat: bool): (r: Scanned)
    ensures |r.rest| <= |s|
    ensures r.digits && !digits ==> |r.rest| < |s|
    decreases |s|
  {
    if s == "" then Scanned(s, token, digits, isFloat)
    else if IsDigit(s[0]) then Scan(s[1..], Push(token, s[0]), true, isFloat)
    else if s[0] == '_' && digits && |s| > 1 && IsDigit(s[1]) then Scan(s[1..], token, digits, isFloat)
    else if s[0] == '.' then Scan(s[1..], Push(token, s[0]), digits, true)
    else if (s[0] == 'e' || s[0] == 'E') && digits then
      if |s| > 1 && (s[1] == '+' || s[1] == '-') then Scan(s[2..], Push(Push(token, s[0]), s[1]), digits, true)
      else Scan(s[1..], Push(token, s[0]), digits, true)
    else Scanned(s, token, digits, isFloat)
  }

  /** strtoll on the whole token: None unless it is an integer in the 64-bit range. */
  function Strtoll(token: string): Option<int> {
    var negative := Peek(token, '-');
    var t := if negative || Peek(token, '+') then token[1..] else token;
    if t == "" || exists i :: 0 <= i < |t| && !IsDigit(t[i]) then None
    else
      var i := if negative then -DigitsValue(t) else DigitsValue(t);
      if InRange(i) then Some(i) else None
  }

  function Number(libc: Libc, at: Pos): (r: Outcome<Value>)
    ensures r.Err? ==> !r.msg.NoMessage?
    ensures r.Ok? ==> |r.at.rest| < |at.rest|
  {
    var signed := Peek(at.rest, '+') || Peek(at.rest, '-');
    var n := if signed then Scan(at.rest[1..], [at.rest[0]], false, false) else Scan(at.rest, "", false, false);
    if !n.digits then Err(InvalidValue, at.line)
    else if n.isFloat then
      match libc.strtod(n.token)
      case Some(d) => Ok(Float(d), Pos(n.rest, at.line))
      case None => Err(InvalidFloat, at.line)
    else
      match Strtoll(n.token)
      case Some(i) => Ok(Int(i), Pos(n.rest, at.line))
      case None => Err(InvalidInteger, at.line)
  }

  // ------------------------------------------------------------------
  // Values
  // ------------------------------------------------------------------

  predicate StartsWord(s: string, word: string) {
    word <= s && (|s| == |word| || (!IsAlnum(s[|word|]) && s[|word|] != '_'))
  }

  /** An item that is no closing bracket. */
  function ArrayItem(at: Pos): (r: Outcome<string>)
    ensures r.Err? ==> !r.msg.NoMessage?
    ensures r.Ok? ==> |r.at.rest| < |at.rest|
  {
    if at.rest == "" then Err(UnterminatedArray, at.line)
    else if !IsQuote(at.rest[0]) then Err(NotAString, at.line)
    else QuotedString(at)
  }

  /** The items of an array whose '[' or last comma has been read. */
  function ArrayItems(at: Pos): (r: Outcome<seq<Value>>)
    ensures r.Err? ==> !r.msg.NoMessage?
    ensures r.Ok? ==> |r.at.rest| < |at.rest|
    decreases |at.rest|
  {
    var here := SkipWs(at);
    if Peek(here.rest, ']') then Ok([], Pos(here.rest[1..], here.line))
    else
      match ArrayItem(here)
      case Err(m, l) => Err(m, l)
      case Ok(s, next) =>
        var after := SkipWs(next);
        if Peek(after.rest, ',') then
          match ArrayItems(Pos(after.rest[1..], after.line))
          case Err(m, l) => Err(m, l)
          case Ok(more, end) => Ok([Str(s)] + more, end)
        else if Peek(after.rest, ']') then Ok([Str(s)], Pos(after.rest[1..], after.line))
        else Err(ArraySeparator, after.line)
  }

  /** parse_value. */
  function ReadValue(libc: Libc, at: Pos): (r: Outcome<Value>)
    ensures r.Err? ==> !r.msg.NoMessage?
    ensures r.Ok? ==> |r.at.rest| < |at.rest|
  {
    if at.rest == "" then Err(MissingValue, at.line)
    else if IsQuote(at.rest[0]) then
      match QuotedString(at)
      case Ok(s, next) => Ok(Str(s), next)
      case Err(m, l) => Err(m, l)
    else if at.rest[0] == '[' then
      match ArrayItems(Pos(at.rest[1..], at.line))
      case Ok(items, next) => Ok(Arr(items), next)
      case Err(m, l) => Err(m, l)
    else if StartsWord(at.rest, "true") then Ok(Bool(true), Pos(at.rest[4..], at.line))
    else if StartsWord(at.rest, "false") then Ok(Bool(false), Pos(at.rest[5..], at.line))
    else Number(libc, at)
  }

  // ------------------------------------------------------------------
  // Documents
  // ------------------------------------------------------------------

  /** The tree so far and the path of the table the next keys belong to. */
  datatype Scope = Scope(root: Members, cur: Path)

  function Because(m: Message, default_: Message): Message { if m.NoMessage? then default_ else m }

  /** A table header; the '[' has been read. */
  function HeaderLine(at: Pos, scope: Scope): (r: Outcome<Scope>)
    ensures r.Err? ==> !r.msg.NoMessage?
    ensures r.Ok? ==> |r.at.rest| < |at.rest|
  {
    match KeyPath(at)
    case Err(m, l) => Err(Because(m, InvalidHeader), l)
    case Ok(path, next) =>
      if !Peek(next.rest, ']') then Err(HeaderBracket, next.line)
      else
        match SkipLineEnd(Pos(next.rest[1..], next.line))
        case None => Err(TrailingHeader, next.line)
        case Some(end) =>
          match Enter(scope.root, path)
          case None => Err(CrossesValue, next.line)
          case Some(root) => Ok(Scope(root, path), end)
  }

  /** A key, an equals sign and a value.  Keys with dots address sub-tables of the current one. */
  function KeyLine(libc: Libc, at: Pos, scope: Scope): (r: Outcome<Scope>)
    ensures r.Err? ==> !r.msg.NoMessage?
    ensures r.Ok? ==> |r.at.rest| < |at.rest|
  {
    match KeyPath(at)
    case Err(m, l) => Err(Because(m, ExpectedKey), l)
    case Ok(path, next) =>
      var eq := SkipWs(next);
      if !Peek(eq.rest, '=') then Err(ExpectedEquals, eq.line)
      else Assignment(libc, SkipWs(Pos(eq.rest[1..], eq.line)), scope, path)
  }

  /** The value after the equals sign, which becomes a new member of the table that the path names. */
  function Assignment(libc: Libc, start: Pos, scope: Scope, path: Path): (r: Outcome<Scope>)
    requires path != []
    ensures r.Err? ==> !r.msg.NoMessage?
    ensures r.Ok? ==> |r.at.rest| <= |start.rest|
  {
    var parent := scope.cur + path[..|path| - 1];
    match Enter(scope.root, parent)
    case None => Err(CrossesValue, start.line)
    case Some(root) =>
      match ReadValue(libc, start)
      case Err(m, l) => Err(m, l)
      case Ok(v, after) =>
        match AddAt(root, parent, path[|path| - 1], v)
        case None => Err(DuplicateKey, after.line)
        case Some(root') =>
          match SkipLineEnd(after)
          case None => Err(TrailingValue, after.line)
          case Some(end) => Ok(Scope(root', scope.cur), end)
  }

  function Statement(libc: Libc, at: Pos, scope: Scope): (r: Outcome<Scope>)
    requires at.rest != ""
    ensures r.Err? ==> !r.msg.NoMessage?
    ensures r.Ok? ==> |r.at.rest| < |at.rest|
  {
    if at.rest[0] == '[' then HeaderLine(Pos(at.rest[1..], at.line), scope) else KeyLine(libc, at, scope)
  }

  function Document(libc: Libc, at: Pos, scope: Scope): (r: Outcome<Members>)
    ensures r.Err? ==> !r.msg.NoMessage?
    decreases |at.rest|
  {
    var here := SkipWs(at);
    if here.rest == "" then Ok(scope.root, here)
    else
      match Statement(libc, here, scope)
      case Err(m, l) => Err(m, l)
      case Ok(scope', next) => Document(libc, next, scope')
  }

  /** toml_parse: the tree, or the first error and its line. */
  function Parse(libc: Libc, text: string): Outcome<Members> {
    Document(libc, Pos(text, 1), Scope([], []))
  }

  // ------------------------------------------------------------------
  // The parser
  // ------------------------------------------------------------------

  datatype Failure = Failure(msg: Message, line: nat)

  /** parse_error: only the first message is kept. */
  function First(err: Option<Failure>, msg: Message, line: nat): Option<Failure> {
    if err.Some? || msg.NoMessage? then err else Some(Failure(msg, line))
  }

  /** An outcome with items already read put in front. */
  function Prefixed<T>(items: seq<T>, o: Outcome<seq<T>>): Outcome<seq<T>> {
    match o
    case Ok(more, at) => Ok(items + more, at)
    case Err(m, l) => Err(m, l)
  }

  lemma PrefixedByNone<T>(o: Outcome<seq<T>>)
    ensures Prefixed([], o) == o
  {
    if o.Ok? {
      assert [] + o.value == o.value;
    }
  }

  lemma PrefixedMore(segs: Path, seg: string, at: Pos)
    requires KeySegment(at).Ok? && KeySegment(at).value == seg
    ensures var next := KeySegment(at).at;
            Prefixed(segs, KeyPath(at)) ==
            if Peek(next.rest, '.') then Prefixed(segs + [seg], KeyPath(Pos(next.rest[1..], next.line)))
            else Ok(segs + [seg], next)
  {
    var next := KeySegment(at).at;
    if Peek(next.rest, '.') && KeyPath(Pos(next.rest[1..], next.line)).Ok? {
      var more := KeyPath(Pos(next.rest[1..], next.line)).value;
      assert segs + ([seg] + more) == segs + [seg] + more;
    }
  }

  lemma KeyPathFails(at: Pos)
    requires KeySegment(at).Err?
    ensures KeyPath(at) == Err(KeySegment(at).msg, KeySegment(at).line)
  {
  }

  lemma ArrayEnds(items: seq<Value>, at: Pos)
    ensures var here := SkipWs(at);
            if Peek(here.rest, ']') then Prefixed(items, ArrayItems(at)) == Ok(items, Pos(here.rest[1..], here.line))
            else ArrayItem(here).Err? ==>
              Prefixed(items, ArrayItems(at)) == Err(ArrayItem(here).msg, ArrayItem(here).line)
  {
    assert items + [] == items;
  }

  lemma PrefixedItem(items: seq<Value>, v: Value, at: Pos)
    requires var here := SkipWs(at);
             !Peek(here.rest, ']') && ArrayItem(here).Ok? && Str(ArrayItem(here).value) == v
    ensures var after := SkipWs(ArrayItem(SkipWs(at)).at);
            Prefixed(items, ArrayItems(at)) ==
            if Peek(after.rest, ',') then Prefixed(items + [v], ArrayItems(Pos(after.rest[1..], after.line)))
            else if Peek(after.rest, ']') then Ok(items + [v], Pos(after.rest[1..], after.line))
            else Err(ArraySeparator, after.line)
  {
    hide SkipWs, ArrayItem, Prefixed;
    var after := SkipWs(ArrayItem(SkipWs(at)).at);
    if Peek(after.rest, ',') {
      PrefixedTwice(items, [v], ArrayItems(Pos(after.rest[1..], after.line)));
    } else {
      PrefixedEnd(items, [v]);
    }
  }

  lemma PrefixedTwice<T>(a: seq<T>, b: seq<T>, o: Outcome<seq<T>>)
    ensures Prefixed(a, Prefixed(b, o)) == Prefixed(a + b, o)
    ensures Prefixed(b, o) == match o case Ok(more, at) => Ok(b + more, at) case Err(m, l) => Err(m, l)
  {
    if o.Ok? {
      assert a + (b + o.value) == a + b + o.value;
    }
  }

  lemma PrefixedEnd<T>(a: seq<T>, b: seq<T>)
    ensures forall at :: Prefixed(a, Ok(b, at)) == Ok(a + b, at)
    ensures forall m, l :: Prefixed(a, Err(m, l)) == Err(m, l)
  {
  }

  lemma DocumentStep(libc: Libc, at: Pos, scope: Scope)
    requires SkipWs(at).rest != ""
    ensures var here := SkipWs(at);
            var o := if here.rest[0] == '[' then HeaderLine(Pos(here.rest[1..], here.line), scope)
                     else KeyLine(libc, here, scope);
            Document(libc, at, scope) == if o.Ok? then Document(libc, o.at, o.value) else Err(o.msg, o.line)
  {
  }

  lemma WhiteStep(at: Pos)
    ensures var s := SkipBlanks(at.rest);
            && (Peek(s, '#') ==> SkipWs(at) == SkipWs(Pos(SkipComment(s), at.line)))
            && (Peek(s, '\n') ==> SkipWs(at) == SkipWs(Pos(s[1..], at.line + 1)))
            && (!Peek(s, '#') && !Peek(s, '\n') ==> SkipWs(at) == Pos(s, at.line))
  {
  }

  lemma DocumentEnd(libc: Libc, at: Pos, scope: Scope)
    requires SkipWs(at).rest == ""
    ensures Document(libc, at, scope) == Ok(scope.root, SkipWs(at))
  {
  }

  /** struct parser: a cursor into the text, the line counter, the first error, and the tree with the
      path of its current table. */
  class Parser {
    const text: string
    var p: nat
    var line: nat
    var err: Option<Failure>
    var root: Members
    var cur: Path

    constructor (text: string)
      ensures this.text == text && p == 0 && line == 1 && err == None && root == [] && cur == []
    {
      this.text := text;
      p, line, err, root, cur := 0, 1, None, [], [];
    }

    predicate Valid() reads this { p <= |text| }

    function Here(): Pos
      requires Valid()
      reads this
    {
      Pos(text[p..], line)
    }

    /** A step that should read `o` did so, or recorded its error and returned nothing. */
    twostate predicate Read<T>(o: Outcome<T>, new r: Option<T>)
      reads this
    {
      Valid() && root == old(root) && cur == old(cur) &&
      match o
      case Ok(v, at) => r == Some(v) && Here() == at && err == old(err)
      case Err(m, l) => r == None && err == First(old(err), m, l) && (m.NoMessage? ==> line == l)
    }

    /** A step that should turn the tree into that of `o` did so, or recorded its error, unless an
        error had been recorded before. */
    twostate predicate Did(o: Outcome<Scope>)
      requires Valid()
      reads this
    {
      if old(err).Some? then err == old(err)
      else
        match o
        case Ok(scope, at) => Here() == at && err == None && Scope(root, cur) == scope
        case Err(m, l) => err == Some(Failure(m, l))
    }

    predicate AtChar(c: char)
      requires Valid()
      reads this
      ensures AtChar(c) <==> Peek(text[p..], c)
    {
      p < |text| && text[p] == c
    }

    method ParseError(msg: Message, at: nat)
      modifies this`err
      ensures err == First(old(err), msg, at)
    {
      if !err.Some? && !msg.NoMessage? {
        err := Some(Failure(msg, at));
      }
    }

    method SkipBlankChars()
      requires Valid()
      modifies this`p
      ensures Valid() && text[p..] == SkipBlanks(old(text[p..])) && p >= old(p)
    {
      while p < |text| && IsBlank(text[p])
        invariant old(p) <= p <= |text|
        invariant SkipBlanks(text[p..]) == SkipBlanks(old(text[p..]))
      {
        assert text[p..][1..] == text[p + 1..];
        p := p + 1;
      }
    }

    method SkipToNewline()
      requires Valid()
      modifies this`p
      ensures Valid() && text[p..] == SkipComment(old(text[p..]))
      ensures p >= old(p) && (old(p) < |text| && text[old(p)] != '\n' ==> p > old(p))
    {
      while p < |text| && text[p] != '\n'
        invariant old(p) <= p <= |text|
        invariant SkipComment(text[p..]) == SkipComment(old(text[p..]))
      {
        assert text[p..][1..] == text[p + 1..];
        p := p + 1;
      }
    }

    method SkipWhite()
      requires Valid()
      modifies this`p, this`line
      ensures Valid() && Here() == SkipWs(old(Here()))
    {
      while true
        invariant Valid() && SkipWs(Here()) == SkipWs(old(Here()))
        decreases |text| - p
      {
        ghost var here := Here();
        WhiteStep(here);
        hide SkipWs, SkipBlanks, SkipComment;
        SkipBlankChars();
        ghost var s := text[p..];
        if AtChar('#') {
          SkipToNewline();
        } else if AtChar('\n') {
          assert s[1..] == text[p + 1..];
          p := p + 1;
          line := line + 1;
        } else {
          return;
        }
      }
    }

    method SkipToLineEnd() returns (ok: bool)
      requires Valid()
      modifies this`p
      ensures Valid()
      ensures ok <==> SkipLineEnd(old(Here())).Some?
      ensures ok ==> Here() == SkipLineEnd(old(Here())).value
    {
      SkipBlankChars();
      if AtChar('#') {
        SkipToNewline();
      }
      return p >= |text| || AtChar('\n');
    }

    /** Reads one character. */
    method Next() returns (c: char)
      requires Valid() && p < |text|
      modifies this`p
      ensures Valid() && p == old(p) + 1 && c == text[old(p)]
      ensures text[p..] == old(text[p..])[1..]
    {
      c := text[p];
      p := p + 1;
    }

    method ParseHexDigits(count: nat) returns (r: Option<nat>)
      requires Valid()
      modifies this`p, this`line, this`err
      ensures Read(HexDigits(old(Here()), count, 0), r)
    {
      hide HexDigits, HexValue;
      ghost var want := HexDigits(Here(), count, 0);
      var v: nat := 0;
      var k := 0;
      while k < count
        invariant 0 <= k <= count
        invariant Valid() && line == old(line) && err == old(err)
        invariant HexDigits(Here(), count - k, v) == want
      {
        HexStep(Here(), count - k, v);
        if p >= |text| {
          ParseError(ShortUnicode, line);
          return None;
        }
        var c := Next();
        var h := HexValue(c);
        if h.None? {
          ParseError(BadUnicode, line);
          return None;
        }
        v := v * 16 + h.value;
        k := k + 1;
      }
      HexEnd(Here(), v);
      return Some(v);
    }

    method ParseEscape() returns (r: Option<string>)
      requires Valid()
      modifies this`p, this`line, this`err
      ensures Read(Escape(old(Here())), r)
    {
      if p >= |text| {
        ParseError(UnterminatedEscape, line);
        return None;
      }
      var c := Next();
      match c
      case 'n' => return Some("\n");
      case 't' => return Some("\t");
      case 'r' => return Some("\r");
      case 'b' => return Some([8 as char]);
      case 'f' => return Some([12 as char]);
      case '"' => return Some([c]);
      case '\\' => return Some([c]);
      case 'u' =>
        var v := ParseHexDigits(4);
        if v.None? {
          return None;
        }
        return Some(Utf8(v.value));
      case _ =>
        ParseError(UnknownEscape, line);
        return None;
    }

    method ParseStringItem(quote: char) returns (r: Option<string>)
      requires Valid() && p < |text|
      modifies this`p, this`line, this`err
      ensures Read(StringItem(old(Here()), quote), r)
    {
      var c := Next();
      if c == '\n' {
        line := line + 1;
        if quote == '\'' {
          ParseError(NewlineInLiteral, line);
          return None;
        }
      }
      if quote == '\'' {
        if c != '\n' && IsControl(c) {
          ParseError(ControlInLiteral, line);
          return None;
        }
        return Some([c]);
      }
      if c == '\\' {
        r := ParseEscape();
        return;
      }
      if c != '\t' && c != '\n' && IsControl(c) {
        ParseError(ControlInBasic, line);
        return None;
      }
      return Some([c]);
    }

    /** parse_string: the opening quote is under the cursor. */
    method ParseString() returns (r: Option<string>)
      requires Valid() && p < |text|
      modifies this`p, this`line, this`err
      ensures Read(QuotedString(old(Here())), r)
    {
      var start := line;
      var quote := Next();
      var buf := "";
      while true
        invariant Valid() && err == old(err)
        invariant StringBody(Here(), quote, buf, start) == QuotedString(old(Here()))
        decreases |text| - p
      {
        if p >= |text| {
          ParseError(UnterminatedString, start);
          return None;
        }
        if text[p] == quote {
          p := p + 1;
          return Some(CString(buf));
        }
        ghost var here := Here();
        var bytes := ParseStringItem(quote);
        if bytes.None? {
          return None;
        }
        assert |Here().rest| < |here.rest|;
        buf := buf + bytes.value;
      }
    }

    method ParseBareKey() returns (s: string)
      requires Valid() && p < |text| && IsBare(text[p])
      modifies this`p
      ensures Valid()
      ensures s == old(text[p..])[..BareLength(old(text[p..]))]
      ensures text[p..] == old(text[p..])[BareLength(old(text[p..]))..]
    {
      var start := p;
      while p < |text| && IsBare(text[p])
        invariant start <= p <= |text|
        invariant p - start + BareLength(text[p..]) == BareLength(text[start..])
      {
        assert text[p..][1..] == text[p + 1..];
        p := p + 1;
      }
      return text[start..p];
    }

    method ParseKeySegment() returns (r: Option<string>)
      requires Valid()
      modifies this`p, this`line, this`err
      ensures Read(KeySegment(old(Here())), r)
    {
      if p >= |text| {
        return None;
      }
      if IsQuote(text[p]) {
        r := ParseString();
        return;
      }
      if IsBare(text[p]) {
        var key := ParseBareKey();
        return Some(key);
      }
      return None;
    }

    /** parse_key_path. */
    method ParseKeyPath() returns (r: Option<Path>)
      requires Valid()
      modifies this`p, this`line, this`err
      ensures Read(KeyPath(old(Here())), r)
    {
      hide KeySegment, KeyPath;
      var segs: Path := [];
      PrefixedByNone(KeyPath(Here()));
      while true
        invariant Valid() && err == old(err)
        invariant KeyPath(old(Here())) == Prefixed(segs, KeyPath(Here()))
        decreases |text| - p
      {
        ghost var here := Here();
        var seg := ParseKeySegment();
        if seg.None? {
          KeyPathFails(here);
          return None;
        }
        assert |Here().rest| < |here.rest|;
        PrefixedMore(segs, seg.value, here);
        segs := segs + [seg.value];
        if !AtChar('.') {
          return Some(segs);
        }
        p := p + 1;
      }
    }

    /** enter, from the root. */
    method EnterTable(path: Path) returns (ok: bool)
      modifies this`root, this`err
      ensures ok <==> Enter(old(root), path).Some?
      ensures ok ==> root == Enter(old(root), path).value && err == old(err)
      ensures !ok ==> err == First(old(err), CrossesValue, line)
    {
      var e := Enter(root, path);
      if e.None? {
        ParseError(CrossesValue, line);
        return false;
      }
      root := e.value;
      return true;
    }

    method ParseArrayItem() returns (r: Option<string>)
      requires Valid()
      modifies this`p, this`line, this`err
      ensures Read(ArrayItem(old(Here())), r)
    {
      if p >= |text| {
        ParseError(UnterminatedArray, line);
        return None;
      }
      if !IsQuote(text[p]) {
        ParseError(NotAString, line);
        return None;
      }
      r := ParseString();
    }

    method ParseArrayItems() returns (r: Option<seq<Value>>)
      requires Valid()
      modifies this`p, this`line, this`err
      ensures Read(ArrayItems(old(Here())), r)
    {
      hide SkipWs, ArrayItem, ArrayItems, Prefixed;
      var items: seq<Value> := [];
      ghost var want := ArrayItems(Here());
      PrefixedByNone(want);
      while true
        invariant Valid() && err == old(err)
        invariant want == Prefixed(items, ArrayItems(Here()))
        decreases |text| - p
      {
        ghost var here := Here();
        ArrayEnds(items, here);
        SkipWhite();
        if AtChar(']') {
          p := p + 1;
          return Some(items);
        }
        var s := ParseArrayItem();
        if s.None? {
          return None;
        }
        SkipWhite();
        assert |Here().rest| < |here.rest|;
        PrefixedItem(items, Str(s.value), here);
        items := items + [Str(s.value)];
        if AtChar(',') {
          p := p + 1;
        } else if AtChar(']') {
          p := p + 1;
          return Some(items);
        } else {
          ParseError(ArraySeparator, line);
          return None;
        }
      }
    }

    /** Collects a number token. */
    method ScanNumber(token0: string) returns (n: Scanned)
      requires Valid()
      modifies this`p
      ensures Valid() && n == Scan(old(text[p..]), token0, false, false) && text[p..] == n.rest
    {
      var token, digits, isFloat := token0, false, false;
      while true
        invariant Valid()
        invariant Scan(text[p..], token, digits, isFloat) == Scan(old(text[p..]), token0, false, false)
        decreases |text| - p
      {
        var c := if p < |text| then text[p] else '\0';
        assert p < |text| ==> text[p..][1..] == text[p + 1..];
        if IsDigit(c) {
          digits := true;
          token := Push(token, c);
          p := p + 1;
        } else if c == '_' && digits && p + 1 < |text| && IsDigit(text[p + 1]) {
          p := p + 1;
        } else if c == '.' {
          token := Push(token, c);
          isFloat := true;
          p := p + 1;
        } else if (c == 'e' || c == 'E') && digits {
          token := Push(token, c);
          isFloat := true;
          p := p + 1;
          if p < |text| && (text[p] == '+' || text[p] == '-') {
            assert text[p - 1..][2..] == text[p + 1..];
            token := Push(token, text[p]);
            p := p + 1;
          }
        } else {
          return Scanned(text[p..], token, digits, isFloat);
        }
      }
    }

    method ParseNumber(libc: Libc) returns (r: Option<Value>)
      requires Valid()
      modifies this`p, this`line, this`err
      ensures Read(Number(libc, old(Here())), r)
    {
      var token := "";
      if AtChar('+') || AtChar('-') {
        var sign := Next();
        token := [sign];
      }
      var n := ScanNumber(token);
      if !n.digits {
        ParseError(InvalidValue, line);
        return None;
      }
      if n.isFloat {
        var d := libc.strtod(n.token);
        if d.None? {
          ParseError(InvalidFloat, line);
          return None;
        }
        return Some(Float(d.value));
      }
      var i := Strtoll(n.token);
      if i.None? {
        ParseError(InvalidInteger, line);
        return None;
      }
      return Some(Int(i.value));
    }

    /** parse_value. */
    method ParseValue(libc: Libc) returns (r: Option<Value>)
      requires Valid()
      modifies this`p, this`line, this`err
      ensures Read(ReadValue(libc, old(Here())), r)
    {
      if p >= |text| {
        ParseError(MissingValue, line);
        return None;
      }
      if IsQuote(text[p]) {
        var s := ParseString();
        return if s.Some? then Some(Str(s.value)) else None;
      }
      if text[p] == '[' {
        var _ := Next();
        var items := ParseArrayItems();
        return if items.Some? then Some(Arr(items.value)) else None;
      }
      if StartsWord(text[p..], "true") {
        p := p + 4;
        return Some(Bool(true));
      }
      if StartsWord(text[p..], "false") {
        p := p + 5;
        return Some(Bool(false));
      }
      r := ParseNumber(libc);
    }

    /** A table header line; the '[' has been read. */
    method ParseHeader() returns (ok: bool)
      requires Valid()
      modifies this`p, this`line, this`err, this`root, this`cur
      ensures Valid()
      ensures Did(HeaderLine(old(Here()), Scope(old(root), old(cur))))
      ensures if ok then p > old(p) else err.Some?
    {
      hide KeyPath, Enter, SkipLineEnd;
      var path := ParseKeyPath();
      if path.None? {
        ParseError(InvalidHeader, line);
        return false;
      }
      if !AtChar(']') {
        ParseError(HeaderBracket, line);
        return false;
      }
      p := p + 1;
      var end := SkipToLineEnd();
      if !end {
        ParseError(TrailingHeader, line);
        return false;
      }
      ok := EnterTable(path.value);
      if ok {
        cur := path.value;
      }
    }

    /** A line of the form key = value.  A duplicate key is an error that does not stop the parser. */
    method ParseKeyLine(libc: Libc) returns (ok: bool)
      requires Valid() && p < |text|
      modifies this`p, this`line, this`err, this`root
      ensures Valid()
      ensures Did(KeyLine(libc, old(Here()), Scope(old(root), old(cur))))
      ensures if ok then p > old(p) else err.Some?
    {
      hide KeyPath, SkipWs, Assignment;
      var path := ParseKeyPath();
      if path.None? {
        ParseError(ExpectedKey, line);
        return false;
      }
      SkipWhite();
      if !AtChar('=') {
        ParseError(ExpectedEquals, line);
        return false;
      }
      p := p + 1;
      SkipWhite();
      ok := ParseAssignment(libc, path.value);
    }

    /** What follows the equals sign. */
    method ParseAssignment(libc: Libc, path: Path) returns (ok: bool)
      requires Valid() && path != []
      modifies this`p, this`line, this`err, this`root
      ensures Valid()
      ensures Did(Assignment(libc, old(Here()), Scope(old(root), old(cur)), path))
      ensures if ok then p >= old(p) else err.Some?
    {
      hide ReadValue, Enter, AddAt, SkipLineEnd;
      var n := |path| - 1;
      var parent := cur + path[..n];
      ok := EnterTable(parent);
      if !ok {
        return false;
      }
      var v := ParseValue(libc);
      if v.None? {
        return false;
      }
      var added := AddAt(root, parent, path[n], v.value);
      if added.None? {
        ParseError(DuplicateKey, line);
      } else {
        root := added.value;
      }
      var end := SkipToLineEnd();
      if !end {
        ParseError(TrailingValue, line);
        return false;
      }
      return true;
    }

    /** One round of toml_parse's loop; false at the end of the text or after an error that stops it. */
    method ParseLine(libc: Libc) returns (go: bool)
      requires Valid()
      modifies this`p, this`line, this`err, this`root, this`cur
      ensures Valid() && (go ==> p > old(p)) && (old(err).Some? ==> err == old(err))
      ensures var was := Document(libc, old(Here()), Scope(old(root), old(cur)));
              old(err).None? ==>
                match err
                case Some(f) => was == Err(f.msg, f.line)
                case None => was == if go then Document(libc, Here(), Scope(root, cur)) else Ok(root, Here())
    {
      hide HeaderLine, KeyLine, SkipWs;
      ghost var here := Here();
      SkipWhite();
      assert |Here().rest| <= |here.rest|;
      if p >= |text| {
        DocumentEnd(libc, here, Scope(root, cur));
        return false;
      }
      DocumentStep(libc, here, Scope(root, cur));
      hide Document;
      if AtChar('[') {
        var _ := Next();
        go := ParseHeader();
      } else {
        go := ParseKeyLine(libc);
      }
    }
  }

  /** toml_parse. */
  method TomlParse(libc: Libc, text: string) returns (r: Option<Members>, err: Option<Failure>)
    ensures match Parse(libc, text)
            case Ok(ms, _) => r == Some(ms) && err == None
            case Err(m, l) => r == None && err == Some(Failure(m, l))
  {
    var ps := new Parser(text);
    assert text[0..] == text;
    var go := true;
    while go
      invariant ps.Valid() && ps.text == text
      invariant match ps.err
                case None =>
                  if go then Parse(libc, text) == Document(libc, ps.Here(), Scope(ps.root, ps.cur))
                  else Parse(libc, text) == Ok(ps.root, ps.Here())
                case Some(f) => Parse(libc, text) == Err(f.msg, f.line)
      decreases go, |text| - ps.p
    {
      hide Parse, Document;
      go := ps.ParseLine(libc);
    }
    return if ps.err.Some? then None else Some(ps.root), ps.err;
  }
}
