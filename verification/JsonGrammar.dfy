/**
 The language of the JSON reader (tools/src/json.c): every way to spell a value, and the proof that
 json_parse accepts exactly these texts, as exactly what they spell, nested at most 32 deep.
 */
module JsonGrammar {
  import opened Wrappers
  import opened Strings
  import opened JsonWriter
  import opened JsonReader

  // ------------------------------------------------------------------
  // Spellings
  // ------------------------------------------------------------------

  predicate IsGap(s: string) { forall i :: 0 <= i < |s| ==> s[i] in {' ', '\t', '\n', '\r'} }

  /** A character as it is, or a backslash with a letter. */
  datatype Item = Plain(c: char) | Short(c: char)

  const LETTERS := "\"\\/bfnrt"
  const MEANINGS: string := ['"', '\\', '/', 8 as char, 12 as char, '\n', '\r', '\t']

  predicate IsItem(i: Item) {
    match i
    case Plain(c) => c as int >= 0x20 && c != '"' && c != '\\'
    case Short(c) => c in LETTERS
  }

  predicate AreItems(s: seq<Item>) { forall i :: 0 <= i < |s| ==> IsItem(s[i]) }

  function ItemText(i: Item): string { match i case Plain(c) => [c] case Short(c) => ['\\', c] }

  /** The character that an item stands for. */
  predicate StandsFor(i: Item, c: char) {
    match i
    case Plain(p) => c == p
    case Short(l) => exists k :: 0 <= k < 8 && LETTERS[k] == l && MEANINGS[k] == c
  }

  function CharsText(s: seq<Item>): string { if s == [] then "" else ItemText(s[0]) + CharsText(s[1..]) }

  predicate Spells(s: seq<Item>, t: string) { |s| == |t| && forall i :: 0 <= i < |s| ==> StandsFor(s[i], t[i]) }

  /** A value with the white space before it. */
  datatype Node = Node(lead: string, body: Body)

  datatype Body =
    | Word(w: string)
    | Number(t: string)
    | Quoted(s: seq<Item>)
    | NoItems(gap: string)
    | ItemsOf(es: Elements)
    | NoMembers(gap: string)
    | MembersOf(fs: Fields)

  datatype Elements = Last(v: Node, after: string) | More(v: Node, after: string, rest: Elements)

  datatype Field = Field(lead: string, key: seq<Item>, gap: string, v: Node, after: string)

  datatype Fields = LastField(f: Field) | MoreFields(f: Field, rest: Fields)

  /** Digits, signs, points and exponent letters, the first one a digit or a minus sign. */
  predicate IsToken(t: string) {
    && t != "" && (t[0] == '-' || '0' <= t[0] <= '9')
    && (forall i :: 0 <= i < |t| ==> '0' <= t[i] <= '9' || t[i] in {'-', '+', '.', 'e', 'E'})
    && exists i :: 0 <= i < |t| && '0' <= t[i] <= '9'
  }

  predicate IsNode(n: Node)
    decreases n, 0
  {
    IsGap(n.lead) && IsBody(n.body)
  }

  predicate IsBody(b: Body)
    decreases b, 1
  {
    match b
    case Word(w) => w in {"null", "true", "false"}
    case Number(t) => IsToken(t)
    case Quoted(s) => AreItems(s)
    case NoItems(gap) => IsGap(gap)
    case ItemsOf(es) => AreElements(es)
    case NoMembers(gap) => IsGap(gap)
    case MembersOf(fs) => AreFields(fs)
  }

  predicate AreElements(es: Elements)
    decreases es, 1
  {
    IsNode(es.v) && IsGap(es.after) && (es.More? ==> AreElements(es.rest))
  }

  predicate IsField(f: Field)
    decreases f, 1
  {
    IsGap(f.lead) && AreItems(f.key) && IsGap(f.gap) && IsNode(f.v) && IsGap(f.after)
  }

  predicate AreFields(fs: Fields)
    decreases fs, 1
  {
    IsField(fs.f) && (fs.MoreFields? ==> AreFields(fs.rest))
  }

  function NodeText(n: Node): string
    decreases n, 0
  {
    n.lead + BodyText(n.body)
  }

  function BodyText(b: Body): string
    decreases b, 1
  {
    match b
    case Word(w) => w
    case Number(t) => t
    case Quoted(s) => "\"" + (CharsText(s) + "\"")
    case NoItems(gap) => "[" + (gap + "]")
    case ItemsOf(es) => "[" + ElementsText(es)
    case NoMembers(gap) => "{" + (gap + "}")
    case MembersOf(fs) => "{" + FieldsText(fs)
  }

  function ElementsText(es: Elements): string
    decreases es, 1
  {
    NodeText(es.v) + (es.after + if es.Last? then "]" else "," + ElementsText(es.rest))
  }

  function FieldText(f: Field): string
    decreases f, 1
  {
    f.lead + ("\"" + (CharsText(f.key) + "\"") + (f.gap + (":" + (NodeText(f.v) + f.after))))
  }

  function FieldsText(fs: Fields): string
    decreases fs, 1
  {
    FieldText(fs.f) + if fs.LastField? then "}" else "," + FieldsText(fs.rest)
  }

  /** The value is spelled. */
  ghost predicate Means(libc: Libc, n: Node, v: Json)
    decreases n, 0
  {
    BodyMeans(libc, n.body, v)
  }

  ghost predicate BodyMeans(libc: Libc, b: Body, v: Json)
    decreases b, 1
  {
    match b
    case Word(w) =>
      (w == "null" && v == Null) || (w == "true" && v == Boolean(true)) || (w == "false" && v == Boolean(false))
    case Number(t) => libc.strtod(t).Some? && v == Num(libc.strtod(t).value)
    case Quoted(s) => v.Text? && Spells(s, v.s)
    case NoItems(_) => v == List([])
    case ItemsOf(es) => v.List? && ElementsMean(libc, es, v.items)
    case NoMembers(_) => v == Object([])
    case MembersOf(fs) => v.Object? && FieldsMean(libc, fs, v.members)
  }

  ghost predicate ElementsMean(libc: Libc, es: Elements, items: seq<Json>)
    decreases es, 1
  {
    items != [] && Means(libc, es.v, items[0]) &&
    if es.Last? then |items| == 1 else ElementsMean(libc, es.rest, items[1..])
  }

  ghost predicate FieldsMean(libc: Libc, fs: Fields, ms: seq<Pair>)
    decreases fs, 1
  {
    ms != [] && Spells(fs.f.key, ms[0].key) && Means(libc, fs.f.v, ms[0].val) &&
    if fs.LastField? then |ms| == 1 else FieldsMean(libc, fs.rest, ms[1..])
  }

  // ------------------------------------------------------------------
  // Spellings are read
  // ------------------------------------------------------------------

  lemma {:induction false} GapSkipped(g: string, s: string)
    requires IsGap(g) && (s == "" || s[0] !in {' ', '\t', '\n', '\r'})
    ensures Skip(g + s) == s
  {
    if g == "" {
      assert g + s == s;
    } else {
      assert (g + s)[1..] == g[1..] + s;
      GapSkipped(g[1..], s);
    }
  }

  lemma {:induction false} SkipTwice(s: string)
    ensures Skip(Skip(s)) == Skip(s)
  {
    if s != "" && IsSpace(s[0]) {
      SkipTwice(s[1..]);
    }
  }

  lemma MeaningOf(l: char, c: char)
    ensures StandsFor(Short(l), c) <==> Unescaped(l) == Some(c)
    ensures l in LETTERS <==> Unescaped(l).Some?
  {
    assert LETTERS[0] == '"' && LETTERS[1] == '\\' && LETTERS[2] == '/' && LETTERS[3] == 'b' && LETTERS[4] == 'f'
           && LETTERS[5] == 'n' && LETTERS[6] == 'r' && LETTERS[7] == 't';
  }

  lemma {:induction false} CharsRead(s: seq<Item>, t: string, buf: string, rest: string)
    requires AreItems(s) && Spells(s, t)
    ensures ReadChars(CharsText(s) + ("\"" + rest), buf) == Some(Got(buf + t, rest))
    decreases |s|
  {
    var end := "\"" + rest;
    if s == [] {
      assert "" + end == end && end[1..] == rest && buf + t == buf;
    } else {
      var more := CharsText(s[1..]);
      Assoc(ItemText(s[0]), more, end);
      ItemRead(s[0], t[0], more + end, buf);
      CharsRead(s[1..], t[1..], buf + [t[0]], rest);
      assert buf + [t[0]] + t[1..] == buf + t;
    }
  }

  lemma ItemRead(i: Item, c: char, more: string, buf: string)
    requires IsItem(i) && StandsFor(i, c)
    ensures ReadChars(ItemText(i) + more, buf) == ReadChars(more, buf + [c])
  {
    var s := ItemText(i) + more;
    match i
    case Plain(_) => assert s[1..] == more;
    case Short(l) =>
      MeaningOf(l, c);
      assert s[2..] == more;
  }

  lemma StringRead(s: seq<Item>, t: string, rest: string)
    requires AreItems(s) && Spells(s, t)
    ensures var text := "\"" + (CharsText(s) + "\"") + rest; text[0] == '"' && ReadString(text) == Some(Got(t, rest))
  {
    var text := "\"" + (CharsText(s) + "\"") + rest;
    assert text[1..] == CharsText(s) + ("\"" + rest);
    CharsRead(s, t, "", rest);
    assert "" + t == t;
  }

  predicate EndsToken(s: string) { s == "" || !('0' <= s[0] <= '9' || s[0] in {'-', '+', '.', 'e', 'E'}) }

  lemma {:induction false} TokenTaken(t: string, s: string)
    requires (forall i :: 0 <= i < |t| ==> IsNumberChar(t[i])) && EndsToken(s)
    ensures TokenLength(t + s) == |t|
  {
    if t == "" {
      assert t + s == s;
    } else {
      assert (t + s)[1..] == t[1..] + s;
      TokenTaken(t[1..], s);
    }
  }

  lemma NumberRead(libc: Libc, t: string, s: string)
    requires IsToken(t) && EndsToken(s) && libc.strtod(t).Some?
    ensures (t + s)[0] == t[0] && ReadNumber(libc, t + s) == Some(Got(Num(libc.strtod(t).value), s))
  {
    TokenTaken(t, s);
    assert (t + s)[..|t|] == t && (t + s)[|t|..] == s;
  }

  lemma BodyFirst(b: Body, s: string)
    requires IsBody(b)
    ensures BodyText(b) != "" && (BodyText(b) + s)[0] == BodyText(b)[0]
    ensures BodyText(b)[0] in {'n', 't', 'f', '-', '"', '[', '{'} || '0' <= BodyText(b)[0] <= '9'
  {
  }

  /** A spelled value is read, whatever follows it that does not prolong a number. */
  lemma {:induction false} NodeRead(libc: Libc, n: Node, v: Json, s: string, d: nat)
    requires IsNode(n) && Means(libc, n, v) && d + Depth(v) <= 32 && EndsToken(s)
    ensures ReadValue(libc, NodeText(n) + s, d) == Some(Got(v, s))
    decreases n, 2
  {
    hide ReadValue, ReadList, ReadObject, Depth, ElementsText, FieldsText, CharsText, Spells, IsToken, AreItems;
    var t := BodyText(n.body) + s;
    Assoc(n.lead, BodyText(n.body), s);
    BodyFirst(n.body, s);
    GapSkipped(n.lead, t);
    ReadValueSkip(libc, n.lead + t, d);
    match n.body
    case Word(w) => WordRead(w, s, libc, d);
    case Number(token) => NumberValue(libc, token, s, d);
    case Quoted(items) => TextValue(libc, items, v.s, s, d);
    case NoItems(gap) =>
      NoDepth();
      NothingRead(libc, gap, s, d);
    case ItemsOf(es) =>
      DepthOf(v);
      ListRead(libc, es, v.items, s, d);
      ListValue(libc, ElementsText(es), s, d);
    case NoMembers(gap) =>
      NoDepth();
      NothingRead(libc, gap, s, d);
    case MembersOf(fs) =>
      DepthOf(v);
      ObjectRead(libc, fs, v.members, s, d);
      ObjectValue(libc, FieldsText(fs), s, d);
  }

  lemma NoDepth()
    ensures Depth(List([])) == 1 && Depth(Object([])) == 1
  {
  }

  lemma DepthOf(v: Json)
    ensures v.List? ==> Depth(v) == 1 + Deepest(v.items)
    ensures v.Object? ==> Depth(v) == 1 + DeepestMember(v.members)
  {
  }

  lemma NumberValue(libc: Libc, t: string, s: string, d: nat)
    requires IsToken(t) && EndsToken(s) && libc.strtod(t).Some?
    ensures ReadValue(libc, t + s, d) == Some(Got(Num(libc.strtod(t).value), s))
  {
    hide ReadNumber;
    NumberRead(libc, t, s);
  }

  lemma TextValue(libc: Libc, items: seq<Item>, t: string, s: string, d: nat)
    requires AreItems(items) && Spells(items, t)
    ensures ReadValue(libc, "\"" + (CharsText(items) + "\"") + s, d) == Some(Got(Text(t), s))
  {
    hide ReadString, CharsText;
    StringRead(items, t, s);
  }

  lemma NothingRead(libc: Libc, gap: string, s: string, d: nat)
    requires IsGap(gap) && d < 32
    ensures ReadValue(libc, "[" + (gap + "]") + s, d) == Some(Got(List([]), s))
    ensures ReadValue(libc, "{" + (gap + "}") + s, d) == Some(Got(Object([]), s))
  {
    var l, o := "[" + (gap + "]") + s, "{" + (gap + "}") + s;
    assert l[1..] == gap + ("]" + s) && ("]" + s)[1..] == s;
    assert o[1..] == gap + ("}" + s) && ("}" + s)[1..] == s;
    GapSkipped(gap, "]" + s);
    GapSkipped(gap, "}" + s);
  }

  lemma ListValue(libc: Libc, inner: string, s: string, d: nat)
    ensures var o := ReadList(libc, inner + s, d);
            ReadValue(libc, "[" + inner + s, d) ==
            if o.Some? then Some(Got(List(o.value.value), o.value.rest)) else None
  {
    hide ReadList;
    assert ("[" + inner + s)[1..] == inner + s;
  }

  lemma ObjectValue(libc: Libc, inner: string, s: string, d: nat)
    ensures var o := ReadObject(libc, inner + s, d);
            ReadValue(libc, "{" + inner + s, d) ==
            if o.Some? then Some(Got(Object(o.value.value), o.value.rest)) else None
  {
    hide ReadObject;
    assert ("{" + inner + s)[1..] == inner + s;
  }

  lemma WordRead(w: string, s: string, libc: Libc, d: nat)
    requires w in {"null", "true", "false"}
    ensures ReadValue(libc, w + s, d) ==
            Some(Got(if w == "null" then Null else Boolean(w == "true"), s))
  {
    assert w <= w + s && (w + s)[0] == w[0] && (w + s)[|w|..] == s;
    assert w == "false" ==> !("true" <= w + s);
    assert w == "null" ==> !("true" <= w + s) && !("false" <= w + s);
  }

  lemma ElementsFirst(es: Elements, s: string)
    requires AreElements(es)
    ensures var t := Skip(ElementsText(es) + s); t != "" && t[0] !in {']', '}'}
    ensures exists more :: Skip(ElementsText(es) + s) == BodyText(es.v.body) + more
  {
    var more := es.after + (if es.Last? then "]" else "," + ElementsText(es.rest)) + s;
    assert ElementsText(es) + s == es.v.lead + (BodyText(es.v.body) + more);
    BodyFirst(es.v.body, more);
    GapSkipped(es.v.lead, BodyText(es.v.body) + more);
  }

  lemma {:induction false} ListRead(libc: Libc, es: Elements, items: seq<Json>, s: string, d: nat)
    requires AreElements(es) && ElementsMean(libc, es, items) && d + 1 + Deepest(items) <= 32
    ensures ReadList(libc, ElementsText(es) + s, d) == Some(Got(items, s))
    decreases es, 4
  {
    hide ReadValue;
    ElementsFirst(es, s);
    ElementsRead(libc, es, items, s, d + 1);
    ReadItemsSkip(libc, ElementsText(es) + s, d + 1);
  }

  /** White space before the items makes no difference. */
  lemma ReadItemsSkip(libc: Libc, s: string, d: nat)
    ensures ReadItems(libc, Skip(s), d) == ReadItems(libc, s, d)
  {
    SkipTwice(s);
    assert ReadValue(libc, Skip(s), d) == ReadValue(libc, s, d);
  }

  lemma {:induction false} ElementsRead(libc: Libc, es: Elements, items: seq<Json>, s: string, d: nat)
    requires AreElements(es) && ElementsMean(libc, es, items) && d + Deepest(items) <= 32
    ensures ReadItems(libc, ElementsText(es) + s, d) == Some(Got(items, s))
    decreases es, 3
  {
    hide ReadValue, Depth, Means, NodeText, IsNode;
    var close := if es.Last? then "]" + s else "," + (ElementsText(es.rest) + s);
    ElementSplit(es, s);
    GapEnds(es.after, close);
    NodeRead(libc, es.v, items[0], es.after + close, d);
    GapSkipped(es.after, close);
    assert close[1..] == if es.Last? then s else ElementsText(es.rest) + s;
    if es.More? {
      ElementsRead(libc, es.rest, items[1..], s, d);
      ReadItemsSkip(libc, ElementsText(es.rest) + s, d);
      assert items == [items[0]] + items[1..];
    } else {
      assert items == [items[0]];
    }
  }

  lemma ElementSplit(es: Elements, s: string)
    ensures ElementsText(es) + s ==
            NodeText(es.v) + (es.after + if es.Last? then "]" + s else "," + (ElementsText(es.rest) + s))
  {
    hide NodeText;
  }

  lemma GapEnds(g: string, close: string)
    requires IsGap(g) && close != "" && close[0] in {']', '}', ','}
    ensures EndsToken(g + close)
  {
    if g == "" {
      assert g + close == close;
    } else {
      assert (g + close)[0] == g[0];
    }
  }

  lemma {:induction false} ObjectRead(libc: Libc, fs: Fields, ms: seq<Pair>, s: string, d: nat)
    requires AreFields(fs) && FieldsMean(libc, fs, ms) && d + 1 + DeepestMember(ms) <= 32
    ensures ReadObject(libc, FieldsText(fs) + s, d) == Some(Got(ms, s))
    decreases fs, 4
  {
    hide ReadPair, FieldText;
    FieldsRead(libc, fs, ms, s, d + 1);
    FieldsFirst(fs, s);
  }

  lemma FieldsFirst(fs: Fields, s: string)
    requires AreFields(fs)
    ensures var t := Skip(FieldsText(fs) + s); t != "" && t[0] == '"'
  {
    var f := fs.f;
    var more := CharsText(f.key) + "\"" + (f.gap + (":" + (NodeText(f.v) + f.after)))
                + (if fs.LastField? then "}" else "," + FieldsText(fs.rest)) + s;
    assert FieldsText(fs) + s == f.lead + ("\"" + more);
    GapSkipped(f.lead, "\"" + more);
  }

  lemma {:induction false} FieldsRead(libc: Libc, fs: Fields, ms: seq<Pair>, s: string, d: nat)
    requires AreFields(fs) && FieldsMean(libc, fs, ms) && d + DeepestMember(ms) <= 32
    ensures ReadMembers(libc, Skip(FieldsText(fs) + s), d) == Some(Got(ms, s))
    decreases fs, 3
  {
    hide ReadValue, ReadString, Depth, Means, NodeText, IsNode, Spells, AreItems;
    hide CharsText, FieldsText, FieldText, ReadPair, ReadMembers;
    var f := fs.f;
    var close := if fs.LastField? then "}" + s else "," + (FieldsText(fs.rest) + s);
    var key := "\"" + (CharsText(f.key) + "\"") + (f.gap + (":" + (NodeText(f.v) + (f.after + close))));
    FieldSplit(fs, s);
    GapSkipped(f.lead, key);
    GapEnds(f.after, close);
    NodeRead(libc, f.v, ms[0].val, f.after + close, d);
    PairRead(libc, f, ms[0], f.after + close, d);
    GapSkipped(f.after, close);
    assert close[1..] == if fs.LastField? then s else FieldsText(fs.rest) + s;
    MembersStep(libc, Skip(FieldsText(fs) + s), d, ms[0], f.after + close, close);
    if fs.MoreFields? {
      FieldsRead(libc, fs.rest, ms[1..], s, d);
      assert ms == [ms[0]] + ms[1..];
    } else {
      assert ms == [ms[0]];
    }
  }

  lemma MembersStep(libc: Libc, t: string, d: nat, m: Pair, next: string, close: string)
    requires ReadPair(libc, t, d) == Some(Got(m, next)) && Skip(next) == close
    ensures close != "" && close[0] == '}' ==> ReadMembers(libc, t, d) == Some(Got([m], close[1..]))
    ensures close != "" && close[0] == ',' ==>
              var o := ReadMembers(libc, Skip(close[1..]), d);
              o.Some? ==> ReadMembers(libc, t, d) == Some(Got([m] + o.value.value, o.value.rest))
  {
    hide ReadPair;
  }

  /** A key, a colon and a value that is read. */
  lemma PairRead(libc: Libc, f: Field, m: Pair, after: string, d: nat)
    requires IsField(f) && Spells(f.key, m.key) && ReadValue(libc, NodeText(f.v) + after, d) == Some(Got(m.val, after))
    ensures ReadPair(libc, "\"" + (CharsText(f.key) + "\"") + (f.gap + (":" + (NodeText(f.v) + after))), d) ==
            Some(Got(m, after))
  {
    hide ReadValue, ReadString, NodeText, CharsText, IsNode, AreItems, Spells;
    var text := NodeText(f.v) + after;
    var colon := ":" + text;
    StringRead(f.key, m.key, f.gap + colon);
    GapSkipped(f.gap, colon);
    assert colon[1..] == text;
    ReadValueSkip(libc, text, d);
  }

  lemma ReadValueSkip(libc: Libc, s: string, d: nat)
    ensures ReadValue(libc, Skip(s), d) == ReadValue(libc, s, d)
  {
    SkipTwice(s);
  }

  lemma FieldSplit(fs: Fields, s: string)
    ensures var f := fs.f;
            FieldsText(fs) + s ==
            f.lead + ("\"" + (CharsText(f.key) + "\"") +
                      (f.gap + (":" + (NodeText(f.v) + (f.after + if fs.LastField? then "}" + s
                                                                  else "," + (FieldsText(fs.rest) + s))))))
  {
    hide NodeText, CharsText;
  }

  // ------------------------------------------------------------------
  // What is read is spelled
  // ------------------------------------------------------------------

  lemma {:induction false} GapOf(s: string) returns (g: string)
    ensures IsGap(g) && s == g + Skip(s)
  {
    if s != "" && IsSpace(s[0]) {
      var more := GapOf(s[1..]);
      g := [s[0]] + more;
      Assoc([s[0]], more, Skip(s[1..]));
      assert s == [s[0]] + s[1..];
      assert Skip(s) == Skip(s[1..]);
      assert IsGap(g);
      hide IsGap, Skip;
    } else {
      g := "";
      assert g + s == s;
    }
  }

  lemma {:induction false} CharsOf(s: string, buf: string) returns (items: seq<Item>, t: string)
    requires ReadChars(s, buf).Some?
    ensures AreItems(items) && Spells(items, t)
    ensures var r := ReadChars(s, buf).value; r.value == buf + t && s == CharsText(items) + ("\"" + r.rest)
    decreases |s|
  {
    if s[0] == '"' {
      items, t := [], "";
      assert s == "\"" + s[1..];
    } else {
      var i, c, more := FirstItem(s, buf);
      hide ReadChars, ItemText, IsItem, StandsFor, CharsText;
      items, t := CharsOf(more, buf + [c]);
      OneMore(i, c, items, t, "\"" + ReadChars(s, buf).value.rest);
      Assoc(buf, [c], t);
      items, t := [i] + items, [c] + t;
    }
  }

  lemma OneMore(i: Item, c: char, items: seq<Item>, t: string, rest: string)
    requires IsItem(i) && StandsFor(i, c) && AreItems(items) && Spells(items, t)
    ensures AreItems([i] + items) && Spells([i] + items, [c] + t)
    ensures CharsText([i] + items) + rest == ItemText(i) + (CharsText(items) + rest)
  {
    hide ItemText, IsItem, StandsFor;
    assert ([i] + items)[1..] == items;
    Assoc(ItemText(i), CharsText(items), rest);
  }

  lemma FirstItem(s: string, buf: string) returns (i: Item, c: char, more: string)
    requires ReadChars(s, buf).Some? && s[0] != '"'
    ensures IsItem(i) && StandsFor(i, c) && s == ItemText(i) + more && |more| < |s|
    ensures ReadChars(s, buf) == ReadChars(more, buf + [c])
  {
    if s[0] == '\\' {
      i, c, more := Short(s[1]), Unescaped(s[1]).value, s[2..];
      MeaningOf(s[1], c);
    } else {
      i, c, more := Plain(s[0]), s[0], s[1..];
    }
  }

  lemma StringOf(s: string) returns (items: seq<Item>)
    requires ReadString(s).Some?
    ensures AreItems(items) && Spells(items, ReadString(s).value.value)
    ensures s == "\"" + (CharsText(items) + "\"") + ReadString(s).value.rest
  {
    var t;
    items, t := CharsOf(s[1..], "");
    assert "" + t == t;
    assert s == "\"" + s[1..];
  }

  lemma {:induction false} TokenChars(s: string)
    ensures forall i :: 0 <= i < TokenLength(s) ==> IsNumberChar(s[i])
  {
    if s != "" && IsNumberChar(s[0]) {
      TokenChars(s[1..]);
    }
  }

  /** Whatever is read as a value is a spelling of it. */
  lemma {:induction false} NodeOf(libc: Libc, s: string, d: nat) returns (n: Node)
    requires ReadValue(libc, s, d).Some?
    ensures IsNode(n) && Means(libc, n, ReadValue(libc, s, d).value.value)
    ensures s == NodeText(n) + ReadValue(libc, s, d).value.rest
    decreases |s|, 3
  {
    var lead := GapOf(s);
    var t := Skip(s);
    ReadValueSkip(libc, s, d);
    assert ReadValue(libc, t, d).Some? ==> t != "";
    var b := BodyOf(libc, t, d);
    n := Node(lead, b);
    Assoc(lead, BodyText(b), ReadValue(libc, s, d).value.rest);
  }

  lemma {:induction false} BodyOf(libc: Libc, t: string, d: nat) returns (b: Body)
    requires Skip(t) == t && ReadValue(libc, t, d).Some?
    ensures IsBody(b) && BodyMeans(libc, b, ReadValue(libc, t, d).value.value)
    ensures t == BodyText(b) + ReadValue(libc, t, d).value.rest
    decreases |t|, 2
  {
    hide ReadList, ReadObject, ReadNumber, ReadString, ElementsText, FieldsText, CharsText, Spells, IsToken, AreItems;
    hide AreElements, AreFields;
    if t[0] == '{' {
      assert t == "{" + t[1..];
      b := ObjectOf(libc, t[1..], d);
    } else if t[0] == '[' {
      assert t == "[" + t[1..];
      b := ListOf(libc, t[1..], d);
    } else if t[0] == '"' {
      var items := StringOf(t);
      b := Quoted(items);
    } else if "true" <= t {
      b := Word("true");
    } else if "false" <= t {
      b := Word("false");
    } else if "null" <= t {
      b := Word("null");
    } else {
      b := NumberOf(libc, t);
    }
  }

  lemma NumberOf(libc: Libc, t: string) returns (b: Body)
    requires t != "" && (t[0] == '-' || IsDigit(t[0])) && ReadNumber(libc, t).Some?
    ensures b.Number? && IsBody(b) && BodyMeans(libc, b, ReadNumber(libc, t).value.value)
    ensures t == BodyText(b) + ReadNumber(libc, t).value.rest
  {
    TokenChars(t);
    b := Number(t[..TokenLength(t)]);
  }

  lemma {:induction false} ListOf(libc: Libc, s: string, d: nat) returns (b: Body)
    requires ReadList(libc, s, d).Some?
    ensures IsBody(b) && BodyMeans(libc, b, List(ReadList(libc, s, d).value.value))
    ensures "[" + s == BodyText(b) + ReadList(libc, s, d).value.rest
    decreases |s|, 5
  {
    hide ReadItems, AreElements, ElementsText;
    var rest := ReadList(libc, s, d).value.rest;
    var t := Skip(s);
    if Peek(t, ']') {
      var gap := GapOf(s);
      b := NoItems(gap);
      assert t == "]" + rest;
      Assoc("[", gap + "]", rest);
      Assoc(gap, "]", rest);
    } else {
      ReadItemsSkip(libc, s, d + 1);
      var es := ElementsOf(libc, s, d + 1);
      b := ItemsOf(es);
      Assoc("[", ElementsText(es), rest);
    }
  }

  lemma ElementsStep(libc: Libc, s: string, d: nat)
    requires ReadItems(libc, s, d).Some?
    ensures ReadValue(libc, s, d).Some?
    ensures var v, r := ReadValue(libc, s, d).value, ReadItems(libc, s, d).value;
            var t := Skip(v.rest);
            t != "" &&
            if t[0] == ',' then
              var o := ReadItems(libc, Skip(t[1..]), d);
              o.Some? && r == Got([v.value] + o.value.value, o.value.rest)
            else t[0] == ']' && r == Got([v.value], t[1..])
  {
    hide ReadValue;
  }

  lemma {:induction false} ElementsOf(libc: Libc, s: string, d: nat) returns (es: Elements)
    requires ReadItems(libc, s, d).Some?
    ensures AreElements(es) && ElementsMean(libc, es, ReadItems(libc, s, d).value.value)
    ensures s == ElementsText(es) + ReadItems(libc, s, d).value.rest
    decreases |s|, 4
  {
    hide ReadValue, NodeText, IsNode, Means, ReadItems, ElementsText, Skip, IsGap;
    ElementsStep(libc, s, d);
    var v := NodeOf(libc, s, d);
    var rest := ReadValue(libc, s, d).value.rest;
    var after := GapOf(rest);
    var t := Skip(rest);
    var end := ReadItems(libc, s, d).value.rest;
    assert s == NodeText(v) + (after + t) && t == [t[0]] + t[1..];
    if Peek(t, ',') {
      ReadItemsSkip(libc, t[1..], d);
      var more := ElementsOf(libc, t[1..], d);
      es := More(v, after, more);
    } else {
      es := Last(v, after);
    }
    ElementSplit(es, end);
  }

  lemma {:induction false} ObjectOf(libc: Libc, s: string, d: nat) returns (b: Body)
    requires ReadObject(libc, s, d).Some?
    ensures IsBody(b) && BodyMeans(libc, b, Object(ReadObject(libc, s, d).value.value))
    ensures "{" + s == BodyText(b) + ReadObject(libc, s, d).value.rest
    decreases |s|, 5
  {
    hide ReadMembers, AreFields, FieldsText;
    var rest := ReadObject(libc, s, d).value.rest;
    var t := Skip(s);
    if Peek(t, '}') {
      var gap := GapOf(s);
      b := NoMembers(gap);
      assert t == "}" + rest;
      Assoc("{", gap + "}", rest);
      Assoc(gap, "}", rest);
    } else {
      var fs := FieldsOf(libc, s, d + 1);
      b := MembersOf(fs);
      Assoc("{", FieldsText(fs), rest);
    }
  }

  /** One member with the white space around it. */
  lemma {:induction false} FieldOf(libc: Libc, s: string, d: nat) returns (f: Field)
    requires ReadPair(libc, Skip(s), d).Some?
    ensures IsField(f)
    ensures var r := ReadPair(libc, Skip(s), d).value;
            && Spells(f.key, r.value.key) && Means(libc, f.v, r.value.val)
            && s == f.lead + ("\"" + (CharsText(f.key) + "\"") +
                              (f.gap + (":" + (NodeText(f.v) + (f.after + Skip(r.rest))))))
    decreases |s|, 3
  {
    hide ReadValue, ReadString, NodeText, IsNode, Means, CharsText, Spells, AreItems;
    var lead := GapOf(s);
    var t := Skip(s);
    var key := StringOf(t);
    var rest := ReadString(t).value.rest;
    var gap := GapOf(rest);
    var u := Skip(rest);
    ReadValueSkip(libc, u[1..], d);
    var v := NodeOf(libc, u[1..], d);
    var end := ReadPair(libc, t, d).value.rest;
    var after := GapOf(end);
    f := Field(lead, key, gap, v, after);
    assert u == ":" + u[1..];
    assert rest == gap + (":" + (NodeText(v) + (after + Skip(end))));
  }

  lemma {:induction false} FieldsOf(libc: Libc, s: string, d: nat) returns (fs: Fields)
    requires ReadMembers(libc, Skip(s), d).Some?
    ensures AreFields(fs) && FieldsMean(libc, fs, ReadMembers(libc, Skip(s), d).value.value)
    ensures s == FieldsText(fs) + ReadMembers(libc, Skip(s), d).value.rest
    decreases |s|, 4
  {
    hide ReadPair, NodeText, IsField, Means, CharsText, Spells, FieldText;
    var f := FieldOf(libc, s, d);
    var all := ReadMembers(libc, Skip(s), d).value;
    var t := Skip(ReadPair(libc, Skip(s), d).value.rest);
    if Peek(t, ',') {
      var more := FieldsOf(libc, t[1..], d);
      fs := MoreFields(f, more);
      assert t == "," + (FieldsText(more) + all.rest);
      FieldSplit(fs, all.rest);
      assert all.value[1..] == ReadMembers(libc, Skip(t[1..]), d).value.value;
    } else {
      fs := LastField(f);
      assert t == "}" + all.rest;
      FieldSplit(fs, all.rest);
    }
  }

  /** json_parse accepts exactly the spellings of values that nest at most 32 deep, with white space around
      them, and gives the value that is spelled. */
  lemma ParseIff(libc: Libc, text: string, v: Json)
    ensures Parse(libc, text) == Some(v) <==>
            Depth(v) <= 32 &&
            exists n, end :: IsNode(n) && IsGap(end) && text == NodeText(n) + end && Means(libc, n, v)
  {
    hide ReadValue, NodeText, IsNode, Means, Depth;
    if Parse(libc, text) == Some(v) {
      ParsedIsShallow(libc, text);
      var n := NodeOf(libc, text, 0);
      var end := GapOf(ReadValue(libc, text, 0).value.rest);
      assert end + "" == end;
    }
    forall n, end | IsNode(n) && IsGap(end) && text == NodeText(n) + end && Means(libc, n, v) && Depth(v) <= 32
      ensures Parse(libc, text) == Some(v)
    {
      assert EndsToken(end);
      NodeRead(libc, n, v, end, 0);
      GapSkipped(end, "");
      assert end + "" == end;
    }
  }
}
