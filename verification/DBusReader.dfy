/**
 Reading D-Bus messages (tools/src/dbus_client.c, `rd_*`, `rd_value` and `parse_header_fields`).
 */
module DBusReader {
  import opened Wrappers
  import opened DBusWire

  /** The bytes left in a slice, and the offset that alignment counts from. */
  datatype Cursor = Cursor(rest: Bytes, off: nat)

  datatype Got<T> = Got(value: T, at: Cursor)

  function Ahead(c: Cursor, k: nat): Cursor
    requires k <= |c.rest|
  {
    Cursor(c.rest[k..], c.off + k)
  }

  /** rd_pad: up to an aligned offset, but never past the end of the slice. */
  function SkipPad(c: Cursor, a: alignment): (r: Cursor)
    ensures |r.rest| <= |c.rest|
  {
    var k := PadLength(c.off, a);
    Ahead(c, if k <= |c.rest| then k else |c.rest|)
  }

  function ReadU32(c: Cursor): (r: Option<Got<uint32>>)
    ensures r.Some? ==> |r.value.at.rest| < |c.rest|
  {
    if |c.rest| < 4 then None else Some(Got(FromU32(c.rest[..4]), Ahead(c, 4)))
  }

  /** rd_str: length, bytes, NUL, and the padding up to the next multiple of 4. */
  function ReadString(c: Cursor): (r: Option<Got<Bytes>>)
    ensures r.Some? ==> |r.value.at.rest| < |c.rest|
  {
    match ReadU32(c)
    case None => None
    case Some(Got(len, d)) =>
      if len >= |d.rest| || d.rest[len] != 0 then None
      else Some(Got(d.rest[..len], SkipPad(Ahead(d, len + 1), 4)))
  }

  // ------------------------------------------------------------------
  // Reply bodies
  // ------------------------------------------------------------------

  datatype Reply = Empty | Str(s: Bytes) | Strs(items: seq<Bytes>) | Variant(s: Bytes)

  const SIG_S: Bytes := ['s' as int]
  const SIG_AS: Bytes := ['a' as int, 's' as int]
  const SIG_V: Bytes := ['v' as int]

  /** The elements of an array slice. */
  function ReadItems(c: Cursor): Option<seq<Bytes>>
    decreases |c.rest|
  {
    if c.rest == [] then Some([])
    else
      match ReadString(c)
      case None => None
      case Some(Got(s, d)) =>
        match ReadItems(d)
        case None => None
        case Some(more) => Some([s] + more)
  }

  /** A signature inside a variant, as the C string it is compared as. */
  predicate IsSigS(inner: Bytes) {
    |inner| > 0 && inner[0] == 's' as int && (|inner| == 1 || inner[1] == 0)
  }

  /** A variant's signature, which must be that of a string. */
  function SkipVariantSig(c: Cursor): Option<Cursor> {
    if c.rest == [] then None
    else
      var n := c.rest[0];
      var d := Ahead(c, 1);
      if n == 0 || n >= 17 || n + 1 > |d.rest| || !IsSigS(d.rest[..n]) then None else Some(Ahead(d, n + 1))
  }

  function ReadVariant(c: Cursor): Option<Got<Reply>> {
    match SkipVariantSig(c)
    case None => None
    case Some(d) =>
      match ReadString(SkipPad(d, 4))
      case None => None
      case Some(Got(s, e)) => Some(Got(Variant(s), e))
  }

  /** rd_value. */
  function ReadValue(c: Cursor, sig: Bytes): Option<Got<Reply>> {
    if sig == SIG_S then
      match ReadString(SkipPad(c, 4))
      case None => None
      case Some(Got(s, d)) => Some(Got(Str(s), d))
    else if sig == SIG_AS then
      match ReadU32(SkipPad(c, 4))
      case None => None
      case Some(Got(n, d)) =>
        if n > |d.rest| then None
        else
          match ReadItems(Cursor(d.rest[..n], 0))
          case None => None
          case Some(items) => Some(Got(Strs(items), Ahead(d, n)))
    else if sig == SIG_V then ReadVariant(c)
    else None
  }

  // ------------------------------------------------------------------
  // Header fields
  // ------------------------------------------------------------------

  /** A header field's value, by its one-character signature. */
  function ReadFieldValue(c: Cursor, sig: byte): (r: Option<Got<FieldValue>>)
    ensures r.Some? ==> |r.value.at.rest| <= |c.rest|
  {
    if sig == 's' as int || sig == 'o' as int then
      match ReadString(SkipPad(c, 4))
      case None => None
      case Some(Got(s, d)) => Some(Got(if sig == 's' as int then Text(s) else ObjectPath(s), d))
    else if sig == 'u' as int then
      match ReadU32(SkipPad(c, 4))
      case None => None
      case Some(Got(v, d)) => Some(Got(Number(v), d))
    else if sig == 'g' as int then
      if c.rest == [] then None
      else
        var n, d := c.rest[0], Ahead(c, 1);
        if n + 1 > |d.rest| then None else Some(Got(Sig(d.rest[..n]), Ahead(d, n + 1)))
    else None
  }

  function ReadField(c: Cursor): (r: Option<Got<Field>>)
    ensures r.Some? ==> |r.value.at.rest| < |c.rest|
  {
    var d := SkipPad(c, 8);
    if |d.rest| < 4 || d.rest[1] != 1 || d.rest[3] != 0 then None
    else
      match ReadFieldValue(Ahead(d, 4), d.rest[2])
      case None => None
      case Some(Got(v, e)) => Some(Got(Field(d.rest[0], v), e))
  }

  /** The fields up to the end of the slice. */
  function ReadFields(c: Cursor): Option<seq<Field>>
    decreases |c.rest|
  {
    if c.rest == [] then Some([])
    else
      match ReadField(c)
      case None => None
      case Some(Got(f, d)) =>
        match ReadFields(d)
        case None => None
        case Some(more) => Some([f] + more)
  }

  /** What the client needs to know of a header. */
  datatype Head = Head(errorName: Option<Bytes>, sig: Option<Bytes>, replySerial: uint32)

  const NO_HEAD: Head := Head(None, None, 0)

  /** Strings are used as C strings from here on. */
  function UpToNul(b: Bytes): Bytes { if b == [] || b[0] == 0 then [] else [b[0]] + UpToNul(b[1..]) }

  function Keep(h: Head, f: Field): Head {
    match f.v
    case Number(u) => if f.code == REPLY_SERIAL then h.(replySerial := u) else h
    case Sig(s) => if f.code == SIGNATURE then h.(sig := Some(UpToNul(s))) else h
    case _ =>
      if f.code == ERROR_NAME then h.(errorName := Some(UpToNul(f.v.s)))
      else if f.code == SIGNATURE then h.(sig := Some(UpToNul(f.v.s)))
      else h
  }

  function KeepAll(h: Head, fs: seq<Field>): Head
    decreases |fs|
  {
    if fs == [] then h else KeepAll(Keep(h, fs[0]), fs[1..])
  }

  /** parse_header_fields. */
  function ParseHead(c: Cursor): Option<Head> {
    match ReadFields(c)
    case None => None
    case Some(fs) => Some(KeepAll(NO_HEAD, fs))
  }

  // ------------------------------------------------------------------
  // What was written is read back
  // ------------------------------------------------------------------

  lemma StringRead(c: Cursor, s: Bytes, more: Bytes)
    requires |s| <= STRING_MAX && c.rest == U32(|s|) + (s + [0] + more)
    ensures ReadString(c) == Some(Got(s, SkipPad(Cursor(more, c.off + |s| + 5), 4)))
  {
    hide U32, FromU32, SkipPad;
    NumberRead(c, |s|, s + [0] + more);
    var d := Ahead(c, 4);
    assert d.rest == s + [0] + more;
    assert d.rest[..|s|] == s && d.rest[|s| + 1..] == more;
  }

  lemma StringBytesRead(c: Cursor, s: Bytes, more: Bytes)
    requires |s| <= STRING_MAX && c.rest == StringBytes(s) + more
    ensures ReadString(c) == Some(Got(s, SkipPad(Cursor(more, c.off + |StringBytes(s)|), 4)))
  {
    assert StringBytes(s) + more == U32(|s|) + (s + [0] + more);
    StringRead(c, s, more);
  }

  lemma NumberRead(c: Cursor, v: uint32, more: Bytes)
    requires c.rest == U32(v) + more
    ensures ReadU32(c) == Some(Got(v, Cursor(more, c.off + 4)))
  {
    U32Back(v);
    assert c.rest[..4] == U32(v) && c.rest[4..] == more;
  }

  lemma PadRead(off: nat, a: alignment, more: Bytes)
    ensures SkipPad(Cursor(Pad(off, a) + more, off), a) == Cursor(more, off + PadLength(off, a))
  {
    assert (Pad(off, a) + more)[PadLength(off, a)..] == more;
  }

  predicate SendableItems(items: seq<Bytes>) { forall i :: 0 <= i < |items| ==> Sendable(items[i]) }

  /** Strings that follow one another in an array, each aligned to 4. */
  function ItemsAt(n: nat, items: seq<Bytes>): Bytes
    requires SendableItems(items)
    decreases |items|
  {
    if items == [] then []
    else
      var first := Pad(n, 4) + StringBytes(items[0]);
      first + ItemsAt(n + |first|, items[1..])
  }

  predicate SendableReply(v: Reply) {
    match v
    case Empty => true
    case Strs(items) => SendableItems(items) && |ItemsAt(4, items)| <= MAX_MESSAGE
    case _ => Sendable(v.s)
  }

  function SigOf(v: Reply): Bytes {
    match v
    case Empty => []
    case Str(_) => SIG_S
    case Strs(_) => SIG_AS
    case Variant(_) => SIG_V
  }

  /** A reply body as the specification has it; nothing follows the last value. */
  function BodyOf(v: Reply): Bytes
    requires SendableReply(v)
  {
    match v
    case Empty => []
    case Str(s) => StringBytes(s)
    case Strs(items) => U32(|ItemsAt(4, items)|) + ItemsAt(4, items)
    case Variant(s) => [1, 's' as int, 0] + Pad(3, 4) + StringBytes(s)
  }

  predicate Multiple(n: nat) { PadLength(n, 4) == 0 }

  lemma ReadItemsStep(c: Cursor, s: Bytes, d: Cursor)
    requires c.rest != [] && ReadString(c) == Some(Got(s, d))
    ensures ReadItems(c) == if ReadItems(d).Some? then Some([s] + ReadItems(d).value) else None
  {
  }

  lemma ReadNoItems(off: nat)
    ensures ReadItems(Cursor([], off)) == Some([])
  {
  }

  /** The array slice restarts its offset at 0; the array began at another multiple of 4. */
  lemma {:induction false} ItemsRead(n: nat, off: nat, items: seq<Bytes>)
    requires SendableItems(items) && Multiple(n) && Multiple(off)
    ensures ReadItems(Cursor(ItemsAt(n, items), off)) == Some(items)
    decreases |items|
  {
    hide ReadString, ReadItems, StringBytes, PadLength, SkipPad;
    if items == [] {
      ReadNoItems(off);
    } else {
      var s, tail := items[0], items[1..];
      var k := |StringBytes(s)|;
      var more := ItemsAt(n + k, tail);
      ItemsStep(n, items);
      hide ItemsAt;
      assert [] + (StringBytes(s) + more) == StringBytes(s) + more;
      var c := Cursor(StringBytes(s) + more, off);
      StringBytesRead(c, s, more);
      StringBytesLength(s);
      SamePad(n, off, k);
      var p := PadLength(n + k, 4);
      if tail == [] {
        assert more == [] by {
          ItemsNone(n + k);
        }
        NothingToSkip(Cursor(more, off + k));
        ReadNoItems(SkipPad(Cursor(more, off + k), 4).off);
      } else {
        ItemsPadded(n + k, tail);
        PadRead(off + k, 4, ItemsAt(n + k + p, tail));
        AlignedAfter(n + k);
        AlignedAfter(off + k);
        ItemsRead(n + k + p, off + k + p, tail);
      }
      ReadItemsStep(c, s, SkipPad(Cursor(more, off + k), 4));
      assert items == [s] + tail;
    }
  }

  lemma ItemsNone(n: nat)
    ensures ItemsAt(n, []) == []
  {
  }

  lemma StringBytesLength(s: Bytes)
    requires |s| <= STRING_MAX
    ensures |StringBytes(s)| == |s| + 5
  {
  }

  lemma NothingToSkip(c: Cursor)
    requires c.rest == []
    ensures SkipPad(c, 4).rest == []
  {
  }

  lemma SamePad(n: nat, off: nat, k: nat)
    requires Multiple(n) && Multiple(off)
    ensures PadLength(n + k, 4) == PadLength(off + k, 4)
  {
    MultipleOf4(n);
    MultipleOf4(off);
    hide PadLength, Multiple;
    var i, j, q, r := n / 4, off / 4, k / 4, k % 4;
    assert n + k == 4 * (i + q) + r && off + k == 4 * (j + q) + r;
    PadFour(i + q, r);
    PadFour(j + q, r);
  }

  lemma MultipleOf4(n: nat)
    requires Multiple(n)
    ensures n % 4 == 0
  {
  }

  lemma PadFour(q: nat, r: nat)
    requires r < 4
    ensures PadLength(4 * q + r, 4) == if r == 0 then 0 else 4 - r
  {
    var j := q / 2;
    assert 4 * q + r == 8 * j + (4 * (q % 2) + r);
    assert (4 * q + r) % 8 == 4 * (q % 2) + r;
  }

  lemma AlignedAfter(n: nat)
    ensures Multiple(n + PadLength(n, 4))
  {
    ModAdd(n, PadLength(n, 4));
  }

  lemma ItemsStep(n: nat, items: seq<Bytes>)
    requires items != [] && SendableItems(items)
    ensures var first, p := StringBytes(items[0]), PadLength(n, 4);
            ItemsAt(n, items) == Pad(n, 4) + (first + ItemsAt(n + p + |first|, items[1..]))
  {
    hide StringBytes, PadLength;
    var first, p := StringBytes(items[0]), PadLength(n, 4);
    assert |Pad(n, 4) + first| == p + |first|;
    var more := ItemsAt(n + p + |first|, items[1..]);
    assert Pad(n, 4) + first + more == Pad(n, 4) + (first + more);
  }

  lemma NoPad(n: nat)
    ensures var p := PadLength(n, 4); PadLength(n + p, 4) == 0 && Pad(n + p, 4) == []
  {
    AlignedAfter(n);
  }

  lemma ItemsPadded(n: nat, items: seq<Bytes>)
    requires items != [] && SendableItems(items)
    ensures ItemsAt(n, items) == Pad(n, 4) + ItemsAt(n + PadLength(n, 4), items)
  {
    hide StringBytes, PadLength, Pad, ItemsAt;
    var p := PadLength(n, 4);
    NoPad(n);
    ItemsStep(n, items);
    ItemsStep(n + p, items);
    var rest := StringBytes(items[0]) + ItemsAt(n + p + |StringBytes(items[0])|, items[1..]);
    assert [] + rest == rest;
  }

  lemma StartAligned(c: Cursor)
    requires Multiple(c.off)
    ensures SkipPad(c, 4) == c
  {
    assert c.rest[0..] == c.rest;
  }

  lemma StrRead(s: Bytes)
    requires Sendable(s)
    ensures ReadValue(Cursor(StringBytes(s), 0), SIG_S) == Some(Got(Str(s), Cursor([], |StringBytes(s)|)))
  {
    hide ReadString, StringBytes;
    var c := Cursor(StringBytes(s), 0);
    StartAligned(c);
    assert StringBytes(s) + [] == StringBytes(s);
    StringBytesRead(c, s, []);
  }

  lemma StrsRead(items: seq<Bytes>)
    requires SendableReply(Strs(items))
    ensures ReadValue(Cursor(BodyOf(Strs(items)), 0), SIG_AS) ==
            Some(Got(Strs(items), Cursor([], |BodyOf(Strs(items))|)))
  {
    hide ReadString, ReadItems, ItemsAt, U32, ReadU32;
    var c, e := Cursor(BodyOf(Strs(items)), 0), ItemsAt(4, items);
    StartAligned(c);
    NumberRead(c, |e|, e);
    assert e[..|e|] == e && e[|e|..] == [];
    assert SIG_AS != SIG_S by {
      assert |SIG_AS| == 2;
    }
    ItemsRead(4, 0, items);
  }

  lemma VariantSigRead(more: Bytes)
    ensures SkipVariantSig(Cursor([1, 's' as int, 0] + more, 0)) == Some(Cursor(more, 3))
  {
    var c := Cursor([1, 's' as int, 0] + more, 0);
    assert Ahead(c, 1).rest == ['s' as int, 0] + more;
    assert Ahead(c, 1).rest[..1] == SIG_S && Ahead(c, 1).rest[2..] == more;
  }

  lemma VariantRead(s: Bytes)
    requires Sendable(s)
    ensures ReadVariant(Cursor(BodyOf(Variant(s)), 0)) == Some(Got(Variant(s), Cursor([], |BodyOf(Variant(s))|)))
  {
    hide ReadString, StringBytes, SkipVariantSig, SkipPad, PadLength;
    var text := StringBytes(s);
    assert BodyOf(Variant(s)) == [1, 's' as int, 0] + (Pad(3, 4) + text);
    VariantSigRead(Pad(3, 4) + text);
    PadRead(3, 4, text);
    assert text + [] == text;
    var c := Cursor(text, 3 + PadLength(3, 4));
    StringBytesRead(c, s, []);
    NothingLeft(c.off + |text|);
  }

  lemma NothingLeft(off: nat)
    ensures SkipPad(Cursor([], off), 4) == Cursor([], off)
  {
  }

  /** rd_value inverts the specified encoding and consumes the whole body. */
  lemma ValueRead(v: Reply)
    requires SendableReply(v) && !v.Empty?
    ensures ReadValue(Cursor(BodyOf(v), 0), SigOf(v)) == Some(Got(v, Cursor([], |BodyOf(v)|)))
  {
    hide ReadValue, ReadVariant;
    match v
    case Str(s) => StrRead(s);
    case Strs(items) => StrsRead(items);
    case Variant(s) => VariantRead(s); SigVReads(Cursor(BodyOf(v), 0));
  }

  lemma SigVReads(c: Cursor)
    ensures ReadValue(c, SIG_V) == ReadVariant(c)
  {
    assert SIG_V[0] != SIG_S[0] && |SIG_V| != |SIG_AS|;
  }

  lemma {:induction false} UpToNulWhole(s: Bytes)
    requires 0 !in s
    ensures UpToNul(s) == s
  {
    if s != [] {
      UpToNulWhole(s[1..]);
    }
  }

  /** Where reading goes on after a value: strings are followed by a skip to a multiple of 4. */
  function After(f: FieldValue, c: Cursor): Cursor {
    if f.ObjectPath? || f.Text? then SkipPad(c, 4) else c
  }

  lemma FieldValueRead(c: Cursor, v: FieldValue, more: Bytes)
    requires SendableValue(v) && Multiple(c.off) && c.rest == ValueBytes(v) + more
    ensures ReadFieldValue(c, SigChar(v)) == Some(Got(v, After(v, Cursor(more, c.off + |ValueBytes(v)|))))
  {
    hide ReadString, StringBytes, U32, ReadU32, SkipPad;
    StartAligned(c);
    match v
    case Number(u) => NumberRead(c, u, more);
    case Sig(s) =>
      var d := Ahead(c, 1);
      assert d.rest == s + [0] + more;
      assert d.rest[..|s|] == s && d.rest[|s| + 1..] == more;
    case ObjectPath(s) => StringBytesRead(c, s, more);
    case Text(s) => StringBytesRead(c, s, more);
  }

  lemma FieldRead(n: nat, f: Field, more: Bytes)
    requires SendableValue(f.v)
    ensures ReadField(Cursor(FieldAt(n, f) + more, n)) ==
            Some(Got(f, After(f.v, Cursor(more, n + |FieldAt(n, f)|))))
  {
    hide ReadFieldValue, ValueBytes, PadLength;
    var k := PadLength(n, 8);
    var head: Bytes := [f.code, 1, SigChar(f.v), 0];
    HeadAligned(n);
    assert |Pad(n, 8) + head| == k + 4;
    assert Pad(n + k + 4, 4) == [];
    var tail := head + ValueBytes(f.v) + more;
    assert FieldAt(n, f) + more == Pad(n, 8) + tail by {
      assert Pad(n, 8) + head + [] + ValueBytes(f.v) + more == Pad(n, 8) + tail;
    }
    PadRead(n, 8, tail);
    var d := Cursor(tail, n + k);
    assert Ahead(d, 4).rest == ValueBytes(f.v) + more;
    FieldValueRead(Ahead(d, 4), f.v, more);
  }

  lemma HeadAligned(n: nat)
    ensures Multiple(n + PadLength(n, 8) + 4) && PadLength(n + PadLength(n, 8) + 4, 4) == 0
  {
    ModAdd(n, PadLength(n, 8));
    ModAdd(n + PadLength(n, 8), 4);
  }

  lemma FieldsPadded(n: nat, fs: seq<Field>)
    requires SendableFields(fs) && fs != []
    ensures FieldsAt(n, fs) == Pad(n, 4) + FieldsAt(n + PadLength(n, 4), fs)
  {
    hide FieldAt, PadLength;
    var p, f := PadLength(n, 4), fs[0];
    var b := FieldAt(n + p, f);
    FieldPadded(n, f);
    var more := FieldsAt(n + |FieldAt(n, f)|, fs[1..]);
    assert n + |FieldAt(n, f)| == n + p + |b|;
    assert Pad(n, 4) + b + more == Pad(n, 4) + (b + more);
  }

  lemma FieldPadded(n: nat, f: Field)
    requires SendableValue(f.v)
    ensures FieldAt(n, f) == Pad(n, 4) + FieldAt(n + PadLength(n, 4), f)
  {
    hide ValueBytes, PadLength;
    var p := PadLength(n, 4);
    PadTwice(n, 8);
    PadLengthTwice(n, 8);
    var head: Bytes := [f.code, 1, SigChar(f.v), 0];
    var inner := if f.v.Sig? then [] else Pad(n + PadLength(n, 8) + 4, 4);
    assert FieldAt(n, f) == Pad(n, 8) + head + inner + ValueBytes(f.v);
    assert FieldAt(n + p, f) == Pad(n + p, 8) + head + inner + ValueBytes(f.v);
    assert Pad(n, 4) + Pad(n + p, 8) + head + inner + ValueBytes(f.v) ==
           Pad(n, 4) + (Pad(n + p, 8) + head + inner + ValueBytes(f.v));
  }

  /** Reading the marshaled fields gives the fields back and ends exactly at their end. */
  lemma {:induction false} FieldsRead(n: nat, fs: seq<Field>)
    requires SendableFields(fs)
    ensures ReadFields(Cursor(FieldsAt(n, fs), n)) == Some(fs)
    decreases |fs|
  {
    hide ReadField, FieldAt, PadLength, FieldsAt, ReadFields;
    if fs == [] {
      NoFieldsRead(n);
    } else {
      var f, tail := fs[0], fs[1..];
      var m := n + |FieldAt(n, f)|;
      var d := After(f.v, Cursor(FieldsAt(m, tail), m));
      FirstFieldRead(n, fs);
      if tail == [] {
        NoFieldsAfter(f.v, m);
      } else if f.v.ObjectPath? || f.v.Text? {
        FieldsPadded(m, tail);
        PadRead(m, 4, FieldsAt(m + PadLength(m, 4), tail));
        FieldsRead(m + PadLength(m, 4), tail);
      } else {
        FieldsRead(m, tail);
      }
      assert ReadFields(d) == Some(tail);
      assert [f] + tail == fs;
    }
  }

  lemma NoFieldsRead(n: nat)
    ensures ReadFields(Cursor(FieldsAt(n, []), n)) == Some([])
  {
  }

  lemma NoFieldsAfter(v: FieldValue, m: nat)
    ensures ReadFields(After(v, Cursor(FieldsAt(m, []), m))) == Some([])
  {
    assert After(v, Cursor([], m)).rest == [];
  }

  lemma FirstFieldRead(n: nat, fs: seq<Field>)
    requires SendableFields(fs) && fs != []
    ensures var m := n + |FieldAt(n, fs[0])|;
            ReadFields(Cursor(FieldsAt(n, fs), n)) ==
            match ReadFields(After(fs[0].v, Cursor(FieldsAt(m, fs[1..]), m)))
            case None => None
            case Some(more) => Some([fs[0]] + more)
  {
    hide ReadField, FieldAt, PadLength, After;
    var m := n + |FieldAt(n, fs[0])|;
    FieldRead(n, fs[0], FieldsAt(m, fs[1..]));
  }

  // ------------------------------------------------------------------
  // Arguments, decoded by their types
  // ------------------------------------------------------------------

  function FromU64(b: Bytes): uint64
    requires |b| == 8
  {
    FromU32(b[..4]) + 0x1_0000_0000 * FromU32(b[4..])
  }

  function ReadArg(c: Cursor, t: byte): (r: Option<Got<Arg>>)
    ensures r.Some? ==> |r.value.at.rest| <= |c.rest|
  {
    if t == 's' as int then
      match ReadString(SkipPad(c, 4))
      case None => None
      case Some(Got(s, d)) => Some(Got(ArgString(s), d))
    else if t == 'u' as int then
      match ReadU32(SkipPad(c, 4))
      case None => None
      case Some(Got(v, d)) => Some(Got(ArgNumber(v), d))
    else if t == 'd' as int then
      var d := SkipPad(c, 8);
      if |d.rest| < 8 then None else Some(Got(ArgDouble(FromU64(d.rest[..8])), Ahead(d, 8)))
    else None
  }

  /** The arguments of a signature; the body must end with the last one. */
  function ReadArgs(c: Cursor, sig: Bytes): Option<seq<Arg>>
    decreases |sig|
  {
    if sig == [] then if c.rest == [] then Some([]) else None
    else
      match ReadArg(c, sig[0])
      case None => None
      case Some(Got(a, d)) =>
        match ReadArgs(d, sig[1..])
        case None => None
        case Some(more) => Some([a] + more)
  }

  lemma ArgRead(n: nat, a: Arg, more: Bytes)
    requires SendableArg(a)
    ensures var d := Cursor(more, n + |ArgAt(n, a)|);
            ReadArg(Cursor(ArgAt(n, a) + more, n), TypeOf(a)) ==
            Some(Got(a, AfterArg(a, d)))
  {
    hide ReadString, StringBytes, U32, ReadU32, SkipPad, PadLength, U64, FromU64;
    var tail := ArgBytes(a) + more;
    assert ArgAt(n, a) + more == Pad(n, Alignment(a)) + tail;
    PadRead(n, Alignment(a), tail);
    var c := Cursor(tail, n + PadLength(n, Alignment(a)));
    match a
    case ArgString(s) => StringBytesRead(c, s, more);
    case ArgNumber(u) => NumberRead(c, u, more);
    case ArgDouble(bits) =>
      assert tail[..8] == U64(bits) && tail[8..] == more;
      U64Back(bits);
  }

  lemma U64Back(v: uint64)
    ensures FromU64(U64(v)) == v
  {
    hide U32, FromU32;
    U32Back(v % 0x1_0000_0000);
    U32Back(v / 0x1_0000_0000);
    assert U64(v)[..4] == U32(v % 0x1_0000_0000) && U64(v)[4..] == U32(v / 0x1_0000_0000);
  }

  lemma ArgPadded(n: nat, a: Arg)
    requires SendableArg(a)
    ensures ArgAt(n, a) == Pad(n, 4) + ArgAt(n + PadLength(n, 4), a)
  {
    hide ArgBytes, PadLength;
    PadTwice(n, Alignment(a));
  }

  lemma ArgsPadded(n: nat, args: seq<Arg>)
    requires SendableArgs(args) && args != []
    ensures ArgsAt(n, args) == Pad(n, 4) + ArgsAt(n + PadLength(n, 4), args)
  {
    hide ArgAt, PadLength;
    var p, a := PadLength(n, 4), args[0];
    ArgPadded(n, a);
    assert n + |ArgAt(n, a)| == n + p + |ArgAt(n + p, a)|;
    var more := ArgsAt(n + |ArgAt(n, a)|, args[1..]);
    assert Pad(n, 4) + ArgAt(n + p, a) + more == Pad(n, 4) + (ArgAt(n + p, a) + more);
  }

  /** The body of a call determines its arguments. */
  lemma {:induction false} ArgsRead(n: nat, args: seq<Arg>)
    requires SendableArgs(args)
    ensures ReadArgs(Cursor(ArgsAt(n, args), n), Signature(args)) == Some(args)
    decreases |args|
  {
    hide ReadArgs, ReadArg, ArgsAt, ArgAt, Signature, PadLength, Pad, SkipPad, SendableArg, SendableArgs;
    if args == [] {
      NoArgsRead(n);
    } else {
      ArgsTail(args);
      var a, tail := args[0], args[1..];
      var m := n + |ArgAt(n, a)|;
      FirstArgRead(n, args);
      if tail == [] {
        NoArgsAfter(a, m);
      } else if a.ArgString? {
        ArgsPadded(m, tail);
        PadRead(m, 4, ArgsAt(m + PadLength(m, 4), tail));
        ArgsRead(m + PadLength(m, 4), tail);
      } else {
        ArgsRead(m, tail);
      }
      assert [a] + tail == args;
    }
  }

  /** Where reading goes on after argument a: strings skip the padding that follows them. */
  function AfterArg(a: Arg, c: Cursor): Cursor { if a.ArgString? then SkipPad(c, 4) else c }

  lemma ArgsTail(args: seq<Arg>)
    requires SendableArgs(args) && args != []
    ensures SendableArg(args[0]) && SendableArgs(args[1..])
  {
    hide SendableArg;
  }

  lemma NoArgsRead(n: nat)
    ensures ReadArgs(Cursor(ArgsAt(n, []), n), Signature([])) == Some([])
  {
  }

  lemma NoArgsAfter(a: Arg, m: nat)
    ensures ReadArgs(AfterArg(a, Cursor(ArgsAt(m, []), m)), Signature([])) == Some([])
  {
    NothingToSkip(Cursor([], m));
  }

  lemma FirstArgRead(n: nat, args: seq<Arg>)
    requires SendableArgs(args) && args != [] && SendableArg(args[0]) && SendableArgs(args[1..])
    ensures var m := n + |ArgAt(n, args[0])|;
            ReadArgs(Cursor(ArgsAt(n, args), n), Signature(args)) ==
            match ReadArgs(AfterArg(args[0], Cursor(ArgsAt(m, args[1..]), m)), Signature(args[1..]))
            case None => None
            case Some(more) => Some([args[0]] + more)
  {
    hide ReadArg, ArgAt, PadLength, Pad, SkipPad, SendableArg;
    var m := n + |ArgAt(n, args[0])|;
    assert Signature(args)[0] == TypeOf(args[0]) && Signature(args)[1..] == Signature(args[1..]);
    ArgRead(n, args[0], ArgsAt(m, args[1..]));
  }

  // ------------------------------------------------------------------
  // The reader
  // ------------------------------------------------------------------

  /** struct rd: a slice, the position in it, the offset for alignment, and an error that sticks. */
  class Slice {
    const data: Bytes
    var p: nat
    var off: nat
    var err: bool

    constructor (data: Bytes, off: nat)
      ensures this.data == data && p == 0 && this.off == off && !err
    {
      this.data := data;
      p, this.off, err := 0, off, false;
    }

    predicate Valid() reads this { p <= |data| }

    function Here(): Cursor
      requires Valid()
      reads this
    {
      Cursor(data[p..], off)
    }

    method ReadU8() returns (v: byte)
      requires Valid()
      modifies this
      ensures Valid()
      ensures if old(err) || old(Here()).rest == [] then err
              else !err && v == old(Here()).rest[0] && Here() == Ahead(old(Here()), 1)
    {
      if err || p + 1 > |data| {
        err := true;
        return 0;
      }
      v := data[p];
      p := p + 1;
      off := off + 1;
    }

    method ReadNumber() returns (v: uint32)
      requires Valid()
      modifies this
      ensures Valid()
      ensures if old(err) || ReadU32(old(Here())).None? then err
              else !err && ReadU32(old(Here())) == Some(Got(v, Here()))
    {
      ghost var start := Here();
      var b0 := ReadU8();
      var b1 := ReadU8();
      var b2 := ReadU8();
      var b3 := ReadU8();
      v := FromU32([b0, b1, b2, b3]);
      if !err {
        assert start.rest[..4] == [b0, b1, b2, b3];
        assert start.rest[4..] == data[p..];
      }
    }

    method PadTo(a: alignment)
      requires Valid() && !err
      modifies this`p, this`off
      ensures Valid() && Here() == SkipPad(old(Here()), a)
    {
      hide PadLength, Aligned;
      ghost var start, n := Here(), off;
      ghost var i := 0;
      PadLeast(n, 0, a);
      assert start.rest[0..] == start.rest;
      while !Aligned(off, a) && p < |data|
        invariant Valid() && off == n + i && i <= PadLength(n, a) && i <= |start.rest|
        invariant Here() == Ahead(start, i)
      {
        PadLeast(n, i, a);
        p, off, i := p + 1, off + 1, i + 1;
      }
      PadLeast(n, i, a);
    }

    /** rd_str. */
    method ReadText() returns (s: Bytes)
      requires Valid()
      modifies this
      ensures Valid()
      ensures if old(err) || ReadString(old(Here())).None? then err
              else !err && ReadString(old(Here())) == Some(Got(s, Here()))
    {
      var len := ReadNumber();
      if err || len >= |data| - p || data[p + len] != 0 {
        err := true;
        return [];
      }
      s := data[p..p + len];
      ghost var d := Here();
      assert d.rest[..len] == s;
      p := p + len + 1;
      off := off + len + 1;
      assert Here() == Ahead(d, len + 1);
      PadTo(4);
    }

    /** The strings up to the end of the slice. */
    method ReadTexts() returns (items: seq<Bytes>)
      requires Valid() && !err
      modifies this
      ensures Valid()
      ensures if ReadItems(old(Here())).None? then err else !err && ReadItems(old(Here())) == Some(items)
    {
      hide ReadItems, ReadString;
      items := [];
      ghost var all := ReadItems(Here());
      JoinedNone(all);
      while p < |data|
        invariant Valid() && !err && all == Joined(items, ReadItems(Here()))
        decreases |data| - p
      {
        ghost var c := Here();
        var s := ReadText();
        if err {
          ReadItemsFail(c);
          return;
        }
        ReadItemsStep(c, s, Here());
        assert |Here().rest| < |c.rest|;
        JoinedMore(items, s, ReadItems(Here()));
        items := items + [s];
      }
      assert Here() == Cursor([], off);
      ReadNoItems(off);
      assert items + [] == items;
    }

    method ReadVariantSig()
      requires Valid() && !err
      modifies this
      ensures Valid()
      ensures if SkipVariantSig(old(Here())).None? then err
              else !err && SkipVariantSig(old(Here())) == Some(Here())
    {
      var n := ReadU8();
      assert !err && n + 1 <= |data| - p ==> Here().rest[..n] == data[p..p + n];
      if err || n == 0 || n >= 17 || n + 1 > |data| - p || !IsSigS(data[p..p + n]) {
        err := true;
        return;
      }
      ghost var d := Here();
      p := p + n;
      off := off + n;
      var _ := ReadU8();
      assert Here() == Ahead(d, n + 1);
    }

    /** rd_value for a variant. */
    method ReadVariantValue() returns (s: Bytes)
      requires Valid() && !err
      modifies this
      ensures Valid()
      ensures if ReadVariant(old(Here())).None? then err
              else !err && ReadVariant(old(Here())) == Some(Got(Variant(s), Here()))
    {
      hide SkipVariantSig, SkipPad, ReadString;
      s := [];
      ReadVariantSig();
      if err {
        return;
      }
      PadTo(4);
      s := ReadText();
    }

    /** rd_value. */
    method Read(sig: Bytes) returns (v: Reply)
      requires Valid() && !err
      modifies this
      ensures Valid()
      ensures if ReadValue(old(Here()), sig).None? then err
              else !err && ReadValue(old(Here()), sig) == Some(Got(v, Here()))
    {
      hide ReadString, ReadItems, ReadVariant, SkipPad;
      v := Empty;
      if sig == SIG_S {
        PadTo(4);
        var s := ReadText();
        v := Str(s);
      } else if sig == SIG_AS {
        PadTo(4);
        var n := ReadNumber();
        if err || n > |data| - p {
          err := true;
          return;
        }
        ghost var d := Here();
        assert d.rest[..n] == data[p..p + n];
        var items := ReadArray(n);
        assert !err ==> Here() == Ahead(d, n);
        v := Strs(items);
      } else if sig == SIG_V {
        var s := ReadVariantValue();
        v := Variant(s);
      } else {
        err := true;
      }
    }

    /** The elements in the next n bytes, read as a slice of their own. */
    method ReadArray(n: nat) returns (items: seq<Bytes>)
      requires Valid() && !err && n <= |data| - p
      modifies this
      ensures Valid()
      ensures var o := ReadItems(Cursor(old(data[p..p + n]), 0));
              if o.None? then err else !err && o == Some(items) && p == old(p) + n && off == old(off) + n
    {
      hide ReadItems;
      var ar := new Slice(data[p..p + n], 0);
      assert ar.data[0..] == ar.data;
      items := ar.ReadTexts();
      if ar.err {
        err := true;
        return;
      }
      p := p + n;
      off := off + n;
    }

    /** A field's value, by its signature. */
    method ReadAnyValue(sig: byte) returns (v: FieldValue)
      requires Valid() && !err
      modifies this
      ensures Valid()
      ensures if ReadFieldValue(old(Here()), sig).None? then err
              else !err && ReadFieldValue(old(Here()), sig) == Some(Got(v, Here()))
    {
      hide ReadString, SkipPad;
      v := Number(0);
      if sig == 's' as int || sig == 'o' as int {
        PadTo(4);
        var s := ReadText();
        v := if sig == 's' as int then Text(s) else ObjectPath(s);
      } else if sig == 'u' as int {
        PadTo(4);
        var u := ReadNumber();
        v := Number(u);
      } else if sig == 'g' as int {
        var n := ReadU8();
        if err || n + 1 > |data| - p {
          err := true;
          return;
        }
        assert Here().rest[..n] == data[p..p + n];
        v := Sig(data[p..p + n]);
        p := p + n + 1;
        off := off + n + 1;
      } else {
        err := true;
      }
    }

    /** One header field. */
    method ReadOneField() returns (f: Field)
      requires Valid() && !err
      modifies this
      ensures Valid()
      ensures if ReadField(old(Here())).None? then err
              else !err && ReadField(old(Here())) == Some(Got(f, Here()))
    {
      hide SkipPad, ReadFieldValue;
      f := Field(0, Number(0));
      PadTo(8);
      if p + 4 > |data| {
        err := true;
        return;
      }
      var code, n, sig, nul := data[p], data[p + 1], data[p + 2], data[p + 3];
      if n != 1 || nul != 0 {
        err := true;
        return;
      }
      ghost var d := Here();
      p := p + 4;
      off := off + 4;
      assert Here() == Ahead(d, 4);
      var v := ReadAnyValue(sig);
      f := Field(code, v);
    }

    /** parse_header_fields. */
    method ReadHead() returns (h: Head)
      requires Valid() && !err
      modifies this
      ensures Valid()
      ensures if ParseHead(old(Here())).None? then err else !err && ParseHead(old(Here())) == Some(h)
    {
      hide ReadFields, ReadField, Keep;
      h := NO_HEAD;
      ghost var all := ParseHead(Here());
      while p < |data|
        invariant Valid() && !err && all == KeptWith(h, ReadFields(Here()))
        decreases |data| - p
      {
        ghost var c := Here();
        var f := ReadOneField();
        ReadFieldsStep(c);
        if err {
          return;
        }
        assert |Here().rest| < |c.rest|;
        KeptStep(h, f, ReadFields(Here()));
        h := Keep(h, f);
      }
      assert Here() == Cursor([], off);
      ReadNoFields(off);
    }
  }

  function KeptWith(h: Head, o: Option<seq<Field>>): Option<Head> {
    match o case None => None case Some(fs) => Some(KeepAll(h, fs))
  }

  lemma KeptStep(h: Head, f: Field, o: Option<seq<Field>>)
    ensures KeptWith(h, if o.Some? then Some([f] + o.value) else None) == KeptWith(Keep(h, f), o)
  {
    if o.Some? {
      assert ([f] + o.value)[1..] == o.value;
    }
  }

  lemma ReadFieldsStep(c: Cursor)
    requires c.rest != []
    ensures var o := ReadField(c);
            if o.None? then ReadFields(c) == None
            else
              var more := ReadFields(o.value.at);
              ReadFields(c) == if more.Some? then Some([o.value.value] + more.value) else None
  {
  }

  lemma ReadNoFields(off: nat)
    ensures ReadFields(Cursor([], off)) == Some([])
  {
  }

  function Joined<T>(done: seq<T>, o: Option<seq<T>>): Option<seq<T>> {
    match o case None => None case Some(more) => Some(done + more)
  }

  lemma JoinedNone<T>(o: Option<seq<T>>)
    ensures Joined([], o) == o
  {
    if o.Some? {
      assert [] + o.value == o.value;
    }
  }

  lemma JoinedMore<T>(done: seq<T>, x: T, o: Option<seq<T>>)
    ensures Joined(done, if o.Some? then Some([x] + o.value) else None) == Joined(done + [x], o)
  {
    if o.Some? {
      assert done + ([x] + o.value) == done + [x] + o.value;
    }
  }

  lemma ReadItemsFail(c: Cursor)
    requires c.rest != [] && ReadString(c).None?
    ensures ReadItems(c).None?
  {
  }
}
