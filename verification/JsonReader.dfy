/**
 The JSON reader (tools/src/json.c, `json_parse` and below).  Failures are not told apart.
 */
module JsonReader {
  import opened Wrappers
  import opened Strings
  import opened JsonWriter

  const MAX_DEPTH: nat := 32

  /** What was read, and the text after it. */
  datatype Got<+T> = Got(value: T, rest: string)

  predicate Peek(s: string, c: char) { s != "" && s[0] == c }

  predicate IsSpace(c: char) { c == ' ' || c == '\t' || c == '\n' || c == '\r' }

  /** skip_ws. */
  function Skip(s: string): (r: string)
    ensures |r| <= |s| && (r == "" || !IsSpace(r[0]))
  {
    if s != "" && IsSpace(s[0]) then Skip(s[1..]) else s
  }

  /** The character an escape stands for; there is no \u. */
  function Unescaped(c: char): Option<char> {
    if c == '"' || c == '\\' || c == '/' then Some(c)
    else if c == 'b' then Some(8 as char)
    else if c == 'f' then Some(12 as char)
    else if c == 'n' then Some('\n')
    else if c == 'r' then Some('\r')
    else if c == 't' then Some('\t')
    else None
  }

  /** The rest of a string whose first characters are in buf. */
  function ReadChars(s: string, buf: string): (r: Option<Got<string>>)
    ensures r.Some? ==> |r.value.rest| < |s|
    decreases |s|
  {
    if s == "" then None
    else if s[0] == '"' then Some(Got(buf, s[1..]))
    else if s[0] as int < 0x20 then None
    else if s[0] == '\\' then
      if |s| < 2 then None
      else
        match Unescaped(s[1])
        case None => None
        case Some(c) => ReadChars(s[2..], buf + [c])
    else ReadChars(s[1..], buf + [s[0]])
  }

  function ReadString(s: string): (r: Option<Got<string>>)
    ensures r.Some? ==> |r.value.rest| < |s|
  {
    if Peek(s, '"') then ReadChars(s[1..], "") else None
  }

  predicate IsNumberChar(c: char) { IsDigit(c) || c == '-' || c == '+' || c == '.' || c == 'e' || c == 'E' }

  function TokenLength(s: string): (n: nat)
    ensures n <= |s|
    ensures s != "" && IsNumberChar(s[0]) ==> n > 0
  {
    if s != "" && IsNumberChar(s[0]) then 1 + TokenLength(s[1..]) else 0
  }

  predicate HasDigit(s: string) { exists i :: 0 <= i < |s| && IsDigit(s[i]) }

  function ReadNumber(libc: Libc, s: string): (r: Option<Got<Json>>)
    requires s != "" && IsNumberChar(s[0])
    ensures r.Some? ==> |r.value.rest| < |s|
  {
    var n := TokenLength(s);
    if !HasDigit(s[..n]) then None
    else
      match libc.strtod(s[..n])
      case None => None
      case Some(d) => Some(Got(Num(d), s[n..]))
  }

  /** A value inside d containers. */
  function ReadValue(libc: Libc, s: string, d: nat): (r: Option<Got<Json>>)
    ensures r.Some? ==> |r.value.rest| < |s|
    decreases |s|, 3
  {
    var t := Skip(s);
    if t == "" then None
    else if t[0] == '{' then
      match ReadObject(libc, t[1..], d)
      case None => None
      case Some(Got(ms, rest)) => Some(Got(Object(ms), rest))
    else if t[0] == '[' then
      match ReadList(libc, t[1..], d)
      case None => None
      case Some(Got(items, rest)) => Some(Got(List(items), rest))
    else if t[0] == '"' then
      match ReadString(t)
      case None => None
      case Some(Got(text, rest)) => Some(Got(Text(text), rest))
    else if "true" <= t then Some(Got(Boolean(true), t[4..]))
    else if "false" <= t then Some(Got(Boolean(false), t[5..]))
    else if "null" <= t then Some(Got(Null, t[4..]))
    else if t[0] == '-' || IsDigit(t[0]) then ReadNumber(libc, t)
    else None
  }

  /** An array whose '[' has been read. */
  function ReadList(libc: Libc, s: string, d: nat): (r: Option<Got<seq<Json>>>)
    ensures r.Some? ==> |r.value.rest| < |s|
    decreases |s|, 5
  {
    var t := Skip(s);
    if d + 1 > MAX_DEPTH then None
    else if Peek(t, ']') then Some(Got([], t[1..]))
    else ReadItems(libc, t, d + 1)
  }

  function ReadItems(libc: Libc, s: string, d: nat): (r: Option<Got<seq<Json>>>)
    ensures r.Some? ==> |r.value.rest| < |s|
    decreases |s|, 4
  {
    match ReadValue(libc, s, d)
    case None => None
    case Some(Got(v, rest)) =>
      var t := Skip(rest);
      if Peek(t, ',') then
        match ReadItems(libc, Skip(t[1..]), d)
        case None => None
        case Some(Got(more, end)) => Some(Got([v] + more, end))
      else if Peek(t, ']') then Some(Got([v], t[1..]))
      else None
  }

  /** An object whose '{' has been read. */
  function ReadObject(libc: Libc, s: string, d: nat): (r: Option<Got<seq<Pair>>>)
    ensures r.Some? ==> |r.value.rest| < |s|
    decreases |s|, 5
  {
    var t := Skip(s);
    if d + 1 > MAX_DEPTH then None
    else if Peek(t, '}') then Some(Got([], t[1..]))
    else ReadMembers(libc, t, d + 1)
  }

  /** A key, a colon and a value. */
  function ReadPair(libc: Libc, s: string, d: nat): (r: Option<Got<Pair>>)
    ensures r.Some? ==> |r.value.rest| < |s|
    decreases |s|, 1
  {
    match ReadString(s)
    case None => None
    case Some(Got(key, rest)) =>
      var t := Skip(rest);
      if !Peek(t, ':') then None
      else
        match ReadValue(libc, Skip(t[1..]), d)
        case None => None
        case Some(Got(v, end)) => Some(Got(Pair(key, v), end))
  }

  function ReadMembers(libc: Libc, s: string, d: nat): (r: Option<Got<seq<Pair>>>)
    ensures r.Some? ==> |r.value.rest| < |s|
    decreases |s|, 4
  {
    match ReadPair(libc, s, d)
    case None => None
    case Some(Got(m, rest)) =>
      var t := Skip(rest);
      if Peek(t, ',') then
        match ReadMembers(libc, Skip(t[1..]), d)
        case None => None
        case Some(Got(more, end)) => Some(Got([m] + more, end))
      else if Peek(t, '}') then Some(Got([m], t[1..]))
      else None
  }

  /** json_parse. */
  function Parse(libc: Libc, text: string): Option<Json> {
    match ReadValue(libc, text, 0)
    case None => None
    case Some(Got(v, rest)) => if Skip(rest) == "" then Some(v) else None
  }

  // ------------------------------------------------------------------
  // Depth
  // ------------------------------------------------------------------

  function Depth(v: Json): nat
    decreases v, 1
  {
    match v
    case List(items) => 1 + Deepest(items)
    case Object(ms) => 1 + DeepestMember(ms)
    case _ => 0
  }

  function Deepest(items: seq<Json>): nat
    decreases items, 0
  {
    if items == [] then 0
    else var a, b := Depth(items[0]), Deepest(items[1..]); if a > b then a else b
  }

  function DeepestMember(ms: seq<Pair>): nat
    decreases ms, 0
  {
    if ms == [] then 0
    else var a, b := Depth(ms[0].val), DeepestMember(ms[1..]); if a > b then a else b
  }

  lemma {:induction false} ValueShallow(libc: Libc, s: string, d: nat)
    requires d <= MAX_DEPTH && ReadValue(libc, s, d).Some?
    ensures d + Depth(ReadValue(libc, s, d).value.value) <= MAX_DEPTH
    decreases |s|, 3
  {
    hide ReadString, ReadNumber;
    var t := Skip(s);
    if t[0] == '{' {
      var u := Skip(t[1..]);
      if !Peek(u, '}') {
        MembersShallow(libc, u, d + 1);
      }
    } else if t[0] == '[' {
      var u := Skip(t[1..]);
      if !Peek(u, ']') {
        ItemsShallow(libc, u, d + 1);
      }
    } else if t[0] == '"' {
    } else if t[0] == '-' || IsDigit(t[0]) {
      NumberIsNum(libc, t);
    }
  }

  lemma NumberIsNum(libc: Libc, t: string)
    requires t != "" && IsNumberChar(t[0])
    ensures ReadNumber(libc, t).Some? ==> ReadNumber(libc, t).value.value.Num?
  {
  }

  lemma {:induction false} ItemsShallow(libc: Libc, s: string, d: nat)
    requires d <= MAX_DEPTH && ReadItems(libc, s, d).Some?
    ensures d + Deepest(ReadItems(libc, s, d).value.value) <= MAX_DEPTH
    decreases |s|, 4
  {
    hide ReadValue, Depth;
    ValueShallow(libc, s, d);
    var t := Skip(ReadValue(libc, s, d).value.rest);
    if Peek(t, ',') {
      ItemsShallow(libc, Skip(t[1..]), d);
    }
  }

  lemma {:induction false} MembersShallow(libc: Libc, s: string, d: nat)
    requires d <= MAX_DEPTH && ReadMembers(libc, s, d).Some?
    ensures d + DeepestMember(ReadMembers(libc, s, d).value.value) <= MAX_DEPTH
    decreases |s|, 4
  {
    hide ReadValue, Depth;
    var u := Skip(ReadString(s).value.rest);
    ValueShallow(libc, Skip(u[1..]), d);
    var t := Skip(ReadPair(libc, s, d).value.rest);
    if Peek(t, ',') {
      MembersShallow(libc, Skip(t[1..]), d);
    }
  }

  /** Whatever the text, a tree that is accepted nests at most 32 deep. */
  lemma ParsedIsShallow(libc: Libc, text: string)
    requires Parse(libc, text).Some?
    ensures Depth(Parse(libc, text).value) <= 32
  {
    ValueShallow(libc, text, 0);
  }

  // ------------------------------------------------------------------
  // The parser
  // ------------------------------------------------------------------

  class Parser {
    const text: string
    var pos: nat
    var depth: nat

    constructor (text: string)
      ensures this.text == text && pos == 0 && depth == 0
    {
      this.text := text;
      pos, depth := 0, 0;
    }

    predicate Valid() reads this { pos <= |text| }

    function Rest(): string
      requires Valid()
      reads this
    {
      text[pos..]
    }

    /** A step read what `o` says and left the cursor after it, or failed when `o` did. */
    ghost predicate Did<T>(o: Option<Got<T>>, r: Option<T>)
      reads this
    {
      match o
      case None => r == None
      case Some(Got(v, rest)) => Valid() && r == Some(v) && Rest() == rest
    }

    predicate AtChar(c: char)
      requires Valid()
      reads this
      ensures AtChar(c) <==> Peek(Rest(), c)
    {
      pos < |text| && text[pos] == c
    }

    method Next()
      requires Valid() && pos < |text|
      modifies this`pos
      ensures Valid() && Rest() == old(Rest())[1..]
    {
      pos := pos + 1;
    }

    method SkipWs()
      requires Valid()
      modifies this`pos
      ensures Valid() && Rest() == Skip(old(Rest()))
    {
      while pos < |text| && IsSpace(text[pos])
        invariant Valid() && Skip(Rest()) == Skip(old(Rest()))
      {
        assert text[pos..][1..] == text[pos + 1..];
        pos := pos + 1;
      }
    }

    /** parse_string. */
    method ParseString() returns (r: Option<string>)
      requires Valid()
      modifies this`pos
      ensures Did(ReadString(old(Rest())), r)
    {
      if !AtChar('"') {
        return None;
      }
      Next();
      var buf := "";
      while pos < |text|
        invariant Valid() && ReadChars(Rest(), buf) == ReadString(old(Rest()))
        decreases |text| - pos
      {
        assert text[pos..][1..] == text[pos + 1..];
        var c := text[pos];
        if c == '"' {
          Next();
          return Some(buf);
        }
        if c as int < 0x20 {
          return None;
        }
        Next();
        if c == '\\' {
          if pos >= |text| {
            return None;
          }
          var e := Unescaped(text[pos]);
          if e.None? {
            return None;
          }
          c := e.value;
          assert text[pos - 1..][2..] == text[pos + 1..];
          Next();
        }
        buf := buf + [c];
      }
      return None;
    }

    /** parse_number. */
    method ParseNumber(libc: Libc) returns (r: Option<Json>)
      requires Valid() && pos < |text| && IsNumberChar(text[pos])
      modifies this`pos
      ensures Did(ReadNumber(libc, old(Rest())), r)
    {
      var start := pos;
      var hasDigit := false;
      while pos < |text| && IsNumberChar(text[pos])
        invariant start <= pos <= |text|
        invariant pos - start + TokenLength(text[pos..]) == TokenLength(text[start..])
        invariant hasDigit <==> HasDigit(text[start..pos])
      {
        assert text[pos..][1..] == text[pos + 1..];
        assert text[start..pos + 1] == text[start..pos] + [text[pos]];
        DigitMore(text[start..pos], text[pos]);
        hasDigit := hasDigit || IsDigit(text[pos]);
        pos := pos + 1;
      }
      assert text[start..][..pos - start] == text[start..pos];
      if !hasDigit {
        return None;
      }
      var d := libc.strtod(text[start..pos]);
      if d.None? {
        return None;
      }
      return Some(Num(d.value));
    }

    method ParseWord(word: string) returns (ok: bool)
      requires Valid()
      modifies this`pos
      ensures Valid() && (ok <==> word <= old(Rest()))
      ensures Rest() == if ok then old(Rest())[|word|..] else old(Rest())
    {
      if word <= text[pos..] {
        pos := pos + |word|;
        return true;
      }
      return false;
    }

    /** parse_value. */
    method ParseValue(libc: Libc) returns (r: Option<Json>)
      requires Valid()
      modifies this`pos, this`depth
      ensures Did(ReadValue(libc, old(Rest()), old(depth)), r) && (r.Some? ==> depth == old(depth))
      decreases |text| - pos, 3
    {
      hide ReadString, ReadNumber, ReadList, ReadObject;
      SkipWs();
      ghost var t := Rest();
      assert |t| <= |old(Rest())|;
      if pos >= |text| {
        return None;
      }
      if AtChar('{') {
        Next();
        var ms := ParseObject(libc);
        return if ms.Some? then Some(Object(ms.value)) else None;
      }
      if AtChar('[') {
        Next();
        var items := ParseArray(libc);
        return if items.Some? then Some(List(items.value)) else None;
      }
      if AtChar('"') {
        var s := ParseString();
        return if s.Some? then Some(Text(s.value)) else None;
      }
      r := ParsePlain(libc);
    }

    /** The words and numbers of parse_value. */
    method ParsePlain(libc: Libc) returns (r: Option<Json>)
      requires Valid() && pos < |text| && !IsSpace(text[pos])
      requires text[pos] != '{' && text[pos] != '[' && text[pos] != '"'
      modifies this`pos
      ensures Did(ReadValue(libc, old(Rest()), depth), r)
    {
      hide ReadNumber;
      var ok := ParseWord("true");
      if ok {
        return Some(Boolean(true));
      }
      ok := ParseWord("false");
      if ok {
        return Some(Boolean(false));
      }
      ok := ParseWord("null");
      if ok {
        return Some(Null);
      }
      assert Rest() == old(Rest());
      if Rest()[0] == '-' || IsDigit(Rest()[0]) {
        r := ParseNumber(libc);
        return;
      }
      return None;
    }

    /** parse_array; the '[' has been read. */
    method ParseArray(libc: Libc) returns (r: Option<seq<Json>>)
      requires Valid()
      modifies this`pos, this`depth
      ensures Did(ReadList(libc, old(Rest()), old(depth)), r) && (r.Some? ==> depth == old(depth))
      decreases |text| - pos, 5
    {
      hide ReadItems;
      depth := depth + 1;
      if depth > MAX_DEPTH {
        return None;
      }
      ghost var s := Rest();
      SkipWs();
      assert |Rest()| <= |s|;
      if AtChar(']') {
        Next();
        depth := depth - 1;
        return Some([]);
      }
      r := ParseItems(libc);
      if r.Some? {
        depth := depth - 1;
      }
    }

    method ParseItems(libc: Libc) returns (r: Option<seq<Json>>)
      requires Valid()
      modifies this`pos, this`depth
      ensures Did(ReadItems(libc, old(Rest()), old(depth)), r) && (r.Some? ==> depth == old(depth))
      decreases |text| - pos, 4
    {
      hide ReadValue, ReadItems;
      var items: seq<Json> := [];
      ghost var all := ReadItems(libc, Rest(), depth);
      WithNone(all);
      while true
        invariant Valid() && old(pos) <= pos && depth == old(depth)
        invariant all == With(items, ReadItems(libc, Rest(), depth))
        decreases |text| - pos
      {
        ghost var s := Rest();
        var v := ParseValue(libc);
        ItemsFollow(libc, s, old(depth));
        if v.None? {
          return None;
        }
        ghost var after := Rest();
        SkipWs();
        assert |Rest()| <= |after| < |s|;
        if AtChar(',') {
          ghost var t := Rest();
          Next();
          SkipWs();
          assert |Rest()| < |t|;
          WithMore(items, v.value, ReadItems(libc, Rest(), depth));
          items := items + [v.value];
        } else if AtChar(']') {
          Next();
          return Some(items + [v.value]);
        } else {
          return None;
        }
      }
    }

    /** parse_object; the '{' has been read. */
    method ParseObject(libc: Libc) returns (r: Option<seq<Pair>>)
      requires Valid()
      modifies this`pos, this`depth
      ensures Did(ReadObject(libc, old(Rest()), old(depth)), r) && (r.Some? ==> depth == old(depth))
      decreases |text| - pos, 5
    {
      hide ReadMembers;
      depth := depth + 1;
      if depth > MAX_DEPTH {
        return None;
      }
      ghost var s := Rest();
      SkipWs();
      assert |Rest()| <= |s|;
      if AtChar('}') {
        Next();
        depth := depth - 1;
        return Some([]);
      }
      r := ParseMembers(libc);
      if r.Some? {
        depth := depth - 1;
      }
    }

    method ParsePair(libc: Libc) returns (r: Option<Pair>)
      requires Valid()
      modifies this`pos, this`depth
      ensures Did(ReadPair(libc, old(Rest()), old(depth)), r) && (r.Some? ==> depth == old(depth))
      decreases |text| - pos, 3
    {
      hide ReadString, ReadValue;
      ghost var s := Rest();
      var key := ParseString();
      if key.None? {
        return None;
      }
      ghost var rest := Rest();
      SkipWs();
      if !AtChar(':') {
        return None;
      }
      ghost var t := Rest();
      Next();
      SkipWs();
      assert |Rest()| < |t| <= |rest| < |s|;
      var v := ParseValue(libc);
      return if v.Some? then Some(Pair(key.value, v.value)) else None;
    }

    method ParseMembers(libc: Libc) returns (r: Option<seq<Pair>>)
      requires Valid()
      modifies this`pos, this`depth
      ensures Did(ReadMembers(libc, old(Rest()), old(depth)), r) && (r.Some? ==> depth == old(depth))
      decreases |text| - pos, 4
    {
      hide ReadPair, ReadMembers;
      var ms: seq<Pair> := [];
      ghost var all := ReadMembers(libc, Rest(), depth);
      WithNone(all);
      while true
        invariant Valid() && old(pos) <= pos && depth == old(depth)
        invariant all == With(ms, ReadMembers(libc, Rest(), depth))
        decreases |text| - pos
      {
        ghost var s := Rest();
        var m := ParsePair(libc);
        MembersFollow(libc, s, old(depth));
        if m.None? {
          return None;
        }
        ghost var after := Rest();
        SkipWs();
        assert |Rest()| <= |after| < |s|;
        if AtChar(',') {
          ghost var t := Rest();
          Next();
          SkipWs();
          assert |Rest()| < |t|;
          WithMore(ms, m.value, ReadMembers(libc, Rest(), depth));
          ms := ms + [m.value];
        } else if AtChar('}') {
          Next();
          return Some(ms + [m.value]);
        } else {
          return None;
        }
      }
    }
  }

  lemma DigitMore(s: string, c: char)
    ensures HasDigit(s + [c]) <==> HasDigit(s) || IsDigit(c)
  {
    if HasDigit(s) {
      var i :| 0 <= i < |s| && IsDigit(s[i]);
      assert (s + [c])[i] == s[i];
    }
    if IsDigit(c) {
      assert (s + [c])[|s|] == c;
    }
  }

  /** What was read, with earlier elements in front. */
  function With<T>(done: seq<T>, o: Option<Got<seq<T>>>): Option<Got<seq<T>>> {
    match o case None => None case Some(Got(more, rest)) => Some(Got(done + more, rest))
  }

  lemma WithNone<T>(o: Option<Got<seq<T>>>)
    ensures With([], o) == o
  {
    if o.Some? {
      assert [] + o.value.value == o.value.value;
    }
  }

  lemma WithMore<T>(done: seq<T>, x: T, o: Option<Got<seq<T>>>)
    ensures With(done, With([x], o)) == With(done + [x], o)
  {
    if o.Some? {
      assert done + ([x] + o.value.value) == done + [x] + o.value.value;
    }
  }

  lemma ItemsFollow(libc: Libc, s: string, d: nat)
    ensures var o := ReadValue(libc, s, d);
            if o.None? then ReadItems(libc, s, d) == None
            else
              var t := Skip(o.value.rest);
              ReadItems(libc, s, d) ==
              if Peek(t, ',') then With([o.value.value], ReadItems(libc, Skip(t[1..]), d))
              else if Peek(t, ']') then Some(Got([o.value.value], t[1..]))
              else None
  {
    hide ReadValue;
  }

  lemma MembersFollow(libc: Libc, s: string, d: nat)
    ensures var o := ReadPair(libc, s, d);
            if o.None? then ReadMembers(libc, s, d) == None
            else
              var t := Skip(o.value.rest);
              ReadMembers(libc, s, d) ==
              if Peek(t, ',') then With([o.value.value], ReadMembers(libc, Skip(t[1..]), d))
              else if Peek(t, '}') then Some(Got([o.value.value], t[1..]))
              else None
  {
    hide ReadPair;
  }

  method JsonParse(libc: Libc, text: string) returns (r: Option<Json>)
    ensures r == Parse(libc, text)
  {
    var p := new Parser(text);
    assert text[0..] == text;
    var v := p.ParseValue(libc);
    if v.None? {
      return None;
    }
    p.SkipWs();
    return if p.pos == |text| then v else None;
  }
}
