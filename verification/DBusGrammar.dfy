/**
 What the D-Bus client accepts from the wire, byte by byte (tools/src/dbus_client.c, `rd_*`, `rd_value`,
 `parse_header_fields` and the framing in `bus_call`), and the proof that the readers accept exactly this.
 */
module DBusGrammar {
  import opened Wrappers
  import opened DBusWire
  import opened DBusReader
  import opened DBusClient

  // ------------------------------------------------------------------
  // Strings
  // ------------------------------------------------------------------

  function From(c: Cursor, k: nat): Cursor
    requires k <= |c.rest|
  {
    Cursor(c.rest[k..], c.off + k)
  }

  /** At the next offset that a divides, or at the end of the slice. */
  function Padded(c: Cursor, a: alignment): Cursor {
    var k := (a - c.off % a) % a;
    if k <= |c.rest| then From(c, k) else From(c, |c.rest|)
  }

  lemma PadIs(off: nat, a: alignment)
    ensures PadLength(off, a) == (a - off % a) % a
  {
    if a == 4 {
      assert off % 4 == off % 8 % 4;
    }
  }

  lemma SkipPadIs(c: Cursor, a: alignment)
    ensures SkipPad(c, a) == Padded(c, a)
  {
    PadIs(c.off, a);
    hide PadLength;
  }

  /** The string s: its length in four bytes, its bytes, a NUL, and padding to a multiple of 4. */
  ghost predicate StringAt(c: Cursor, s: Bytes, at: Cursor) {
    var n := |s|;
    && |c.rest| >= n + 5 && LittleEndian(c.rest[..4], n) && c.rest[4..n + 4] == s && c.rest[n + 4] == 0
    && at == Padded(From(c, n + 5), 4)
  }

  lemma StringIff(c: Cursor, s: Bytes, at: Cursor)
    ensures ReadString(c) == Some(Got(s, at)) <==> StringAt(c, s, at)
  {
    hide SkipPad, Padded;
    if |c.rest| >= 4 {
      var n := FromU32(c.rest[..4]);
      var d := c.rest[4..];
      if n < |d| {
        assert d[..n] == c.rest[4..n + 4] && d[n] == c.rest[n + 4] && d[n + 1..] == c.rest[n + 5..];
        SkipPadIs(From(c, n + 5), 4);
        assert Ahead(Ahead(c, 4), n + 1) == From(c, n + 5);
      }
    }
  }

  // ------------------------------------------------------------------
  // Reply bodies
  // ------------------------------------------------------------------

  /** The slice holds these strings and nothing else. */
  ghost predicate StringsIn(c: Cursor, items: seq<Bytes>)
    decreases |items|
  {
    if items == [] then c.rest == []
    else c.rest != [] && exists at :: StringAt(c, items[0], at) && StringsIn(at, items[1..])
  }

  lemma {:induction false} StringsIff(c: Cursor, items: seq<Bytes>)
    ensures ReadItems(c) == Some(items) <==> StringsIn(c, items)
    decreases |c.rest|
  {
    hide StringAt, ReadString;
    if c.rest != [] {
      forall s, at ensures ReadString(c) == Some(Got(s, at)) <==> StringAt(c, s, at) {
        StringIff(c, s, at);
      }
      if ReadString(c).Some? && items != [] {
        var d := ReadString(c).value.at;
        StringsIff(d, items[1..]);
        assert items == [items[0]] + items[1..];
        assert StringAt(c, ReadString(c).value.value, d);
      }
    }
  }

  /** A value of one of the three kinds of reply, by its signature: s, as, or v with a string inside.  The
      strings of an array are aligned within it. */
  ghost predicate ReplyAt(c: Cursor, sig: Bytes, v: Reply, at: Cursor) {
    match v
    case Empty => false
    case Str(s) => sig == ['s' as int] && StringAt(Padded(c, 4), s, at)
    case Strs(items) =>
      sig == ['a' as int, 's' as int] &&
      var d := Padded(c, 4);
      exists n: nat :: ArrayAt(d, n, items, at)
    case Variant(s) =>
      && sig == ['v' as int] && c.rest != []
      && var n := c.rest[0];
         && 1 <= n <= 16 && |c.rest| >= n + 2 && c.rest[1] == 's' as int && (n == 1 || c.rest[2] == 0)
         && StringAt(Padded(From(c, n + 2), 4), s, at)
  }

  ghost predicate ArrayAt(d: Cursor, n: nat, items: seq<Bytes>, at: Cursor) {
    && |d.rest| >= n + 4 && LittleEndian(d.rest[..4], n)
    && StringsIn(Cursor(d.rest[4..n + 4], 0), items) && at == From(d, n + 4)
  }

  lemma StringsReadIff(c: Cursor, v: Reply, at: Cursor)
    ensures ReadValue(c, ['a' as int, 's' as int]) == Some(Got(v, at)) <==>
            v.Strs? && ReplyAt(c, ['a' as int, 's' as int], v, at)
  {
    hide StringsIn, ReadItems, SkipPad, Padded, ReadString;
    var d := Padded(c, 4);
    SkipPadIs(c, 4);
    if |d.rest| >= 4 {
      var n := FromU32(d.rest[..4]);
      var e := d.rest[4..];
      if n <= |e| {
        assert e[..n] == d.rest[4..n + 4] && e[n..] == d.rest[n + 4..];
        if v.Strs? {
          StringsIff(Cursor(e[..n], 0), v.items);
          assert ReplyAt(c, ['a' as int, 's' as int], v, at) <==> ArrayAt(d, n, v.items, at);
        }
      }
    }
  }

  lemma VariantReadIff(c: Cursor, v: Reply, at: Cursor)
    ensures ReadVariant(c) == Some(Got(v, at)) <==> v.Variant? && ReplyAt(c, ['v' as int], v, at)
  {
    hide StringAt, ReadString, SkipPad, Padded;
    if c.rest != [] {
      var n := c.rest[0];
      if 1 <= n <= 16 && |c.rest| >= n + 2 {
        var d := c.rest[1..];
        assert d[n + 1..] == c.rest[n + 2..];
        SkipPadIs(From(c, n + 2), 4);
        if v.Variant? {
          StringIff(Padded(From(c, n + 2), 4), v.s, at);
        }
      }
    }
  }

  /** rd_value accepts exactly these values. */
  lemma ReplyIff(c: Cursor, sig: Bytes, v: Reply, at: Cursor)
    ensures ReadValue(c, sig) == Some(Got(v, at)) <==> ReplyAt(c, sig, v, at)
  {
    hide StringAt, ReadString, SkipPad, Padded, StringsIn, ReadItems, ReadVariant, ArrayAt;
    VariantReadIff(c, v, at);
    StringsReadIff(c, v, at);
    SkipPadIs(c, 4);
    if v.Str? {
      StringIff(Padded(c, 4), v.s, at);
    }
  }

  // ------------------------------------------------------------------
  // Header fields
  // ------------------------------------------------------------------

  /** A header field: aligned to 8, its code, the signature of one character, and the value. */
  ghost predicate FieldIn(c: Cursor, f: Field, at: Cursor) {
    var d := Padded(c, 8);
    && |d.rest| >= 4 && d.rest[0] == f.code && d.rest[1] == 1 && d.rest[3] == 0
    && ValueIn(From(d, 4), d.rest[2], f.v, at)
  }

  ghost predicate ValueIn(c: Cursor, sig: byte, v: FieldValue, at: Cursor) {
    match v
    case Text(s) => sig == 's' as int && StringAt(Padded(c, 4), s, at)
    case ObjectPath(s) => sig == 'o' as int && StringAt(Padded(c, 4), s, at)
    case Number(u) =>
      && sig == 'u' as int
      && var d := Padded(c, 4); |d.rest| >= 4 && LittleEndian(d.rest[..4], u) && at == From(d, 4)
    case Sig(s) =>
      && sig == 'g' as int && |c.rest| >= |s| + 2 && c.rest[0] == |s| && c.rest[1..|s| + 1] == s
      && at == From(c, |s| + 2)
  }

  lemma ValueIff(c: Cursor, sig: byte, v: FieldValue, at: Cursor)
    ensures ReadFieldValue(c, sig) == Some(Got(v, at)) <==> ValueIn(c, sig, v, at)
  {
    hide StringAt, ReadString, SkipPad, Padded;
    SkipPadIs(c, 4);
    if v.Text? || v.ObjectPath? {
      StringIff(Padded(c, 4), v.s, at);
    }
    if sig == 'g' as int && c.rest != [] && c.rest[0] + 2 <= |c.rest| {
      var n, d := c.rest[0], c.rest[1..];
      assert d[..n] == c.rest[1..n + 1] && d[n + 1..] == c.rest[n + 2..];
    }
  }

  lemma FieldIff(c: Cursor, f: Field, at: Cursor)
    ensures ReadField(c) == Some(Got(f, at)) <==> FieldIn(c, f, at)
  {
    hide SkipPad, Padded, ReadFieldValue, ValueIn;
    SkipPadIs(c, 8);
    var d := Padded(c, 8);
    if |d.rest| >= 4 {
      ValueIff(From(d, 4), d.rest[2], f.v, at);
    }
  }

  /** The slice holds these fields and nothing else. */
  ghost predicate FieldsIn(c: Cursor, fs: seq<Field>)
    decreases |fs|
  {
    if fs == [] then c.rest == []
    else c.rest != [] && exists at :: FieldIn(c, fs[0], at) && FieldsIn(at, fs[1..])
  }

  lemma {:induction false} FieldsIff(c: Cursor, fs: seq<Field>)
    ensures ReadFields(c) == Some(fs) <==> FieldsIn(c, fs)
    decreases |c.rest|
  {
    hide FieldIn, ReadField;
    if c.rest != [] {
      forall f, at ensures ReadField(c) == Some(Got(f, at)) <==> FieldIn(c, f, at) {
        FieldIff(c, f, at);
      }
      if ReadField(c).Some? && fs != [] {
        var d := ReadField(c).value.at;
        FieldsIff(d, fs[1..]);
        assert fs == [fs[0]] + fs[1..];
        assert FieldIn(c, ReadField(c).value.value, d);
      }
    }
  }

  // ------------------------------------------------------------------
  // Frames
  // ------------------------------------------------------------------

  /** A message of these fields and a body of nb bytes: little-endian, at most 2^20 bytes before the padding,
      its fields in nf bytes, and the body at a multiple of 8. */
  ghost predicate FrameAt(stream: Bytes, f: Frame, rest: Bytes, fs: seq<Field>, nf: nat, nb: nat) {
    && |stream| >= 16 && stream[0] == 'l' as int && stream[1] == f.type_
    && LittleEndian(stream[4..8], nb) && LittleEndian(stream[12..16], nf) && 16 + nf + nb <= 0x10_0000
    && var start := 16 + nf + (8 - nf % 8) % 8;
       && |stream| >= start + nb
       && FieldsIn(Cursor(stream[16..16 + nf], 16), fs) && f.head == KeepAll(NO_HEAD, fs)
       && f.body == stream[start..start + nb] && rest == stream[start + nb..]
  }

  lemma FrameSliced(stream: Bytes, nf: nat, nb: nat)
    requires |stream| >= 16 && |stream| >= 16 + nf + PadLength(16 + nf, 8) + nb
    ensures PadLength(16 + nf, 8) == (8 - nf % 8) % 8
    ensures var n, more, start := nf + PadLength(16 + nf, 8) + nb, stream[16..], 16 + nf + PadLength(16 + nf, 8);
            && more[..n][..nf] == stream[16..16 + nf] && more[..n][n - nb..] == stream[start..start + nb]
            && more[n..] == stream[start + nb..]
  {
    PadIs(16 + nf, 8);
    assert (16 + nf) % 8 == nf % 8;
    hide PadLength;
  }

  lemma FrameSplit(stream: Bytes, nf: nat, nb: nat)
    requires |stream| >= 16 && ReadFixed(stream[..16]) == Some(Lengths(nf, nb))
    requires |stream| >= 16 + nf + PadLength(16 + nf, 8) + nb
    ensures var start := 16 + nf + PadLength(16 + nf, 8);
            SplitFrame(stream) ==
            match ReadFields(Cursor(stream[16..16 + nf], 16))
            case None => Bad
            case Some(fs) =>
              Whole(Frame(stream[1], KeepAll(NO_HEAD, fs), stream[start..start + nb]), stream[start + nb..])
  {
    FrameSliced(stream, nf, nb);
    var l, more := Lengths(nf, nb), stream[16..];
    assert RestLength(l) == nf + PadLength(16 + nf, 8) + nb && |more| >= RestLength(l);
    hide ReadFixed, ReadFields, KeepAll, PadLength, RestLength;
    assert SplitFrame(stream) ==
           match OpenFrame(stream[..16], l, more[..RestLength(l)])
           case None => Bad
           case Some(f) => Whole(f, more[RestLength(l)..]);
    hide SplitFrame;
  }

  lemma FrameAtIs(stream: Bytes, f: Frame, rest: Bytes, fs: seq<Field>, nf: nat, nb: nat)
    requires |stream| >= 16 && |stream| >= 16 + nf + PadLength(16 + nf, 8) + nb
    requires ReadFixed(stream[..16]) == Some(Lengths(nf, nb))
    ensures var start := 16 + nf + PadLength(16 + nf, 8);
            FrameAt(stream, f, rest, fs, nf, nb) <==>
              && FieldsIn(Cursor(stream[16..16 + nf], 16), fs)
              && f == Frame(stream[1], KeepAll(NO_HEAD, fs), stream[start..start + nb]) && rest == stream[start + nb..]
  {
    FrameSliced(stream, nf, nb);
    LengthsIff(stream, nf, nb);
    hide FieldsIn, KeepAll, ReadFixed, LittleEndian, PadLength;
  }

  lemma FrameOpened(stream: Bytes, f: Frame, rest: Bytes, nf: nat, nb: nat)
    requires |stream| >= 16 && ReadFixed(stream[..16]) == Some(Lengths(nf, nb))
    requires |stream| >= 16 + nf + PadLength(16 + nf, 8) + nb
    ensures SplitFrame(stream) == Whole(f, rest) <==> exists fs :: FrameAt(stream, f, rest, fs, nf, nb)
  {
    hide *;
    FrameSplit(stream, nf, nb);
    var fields := Cursor(stream[16..16 + nf], 16);
    if SplitFrame(stream) == Whole(f, rest) {
      var fs := ReadFields(fields).value;
      FieldsIff(fields, fs);
      FrameAtIs(stream, f, rest, fs, nf, nb);
    }
    forall fs | FrameAt(stream, f, rest, fs, nf, nb) ensures SplitFrame(stream) == Whole(f, rest) {
      FieldsIff(fields, fs);
      FrameAtIs(stream, f, rest, fs, nf, nb);
    }
  }

  lemma FrameLengths(stream: Bytes, f: Frame, rest: Bytes, fs: seq<Field>, nf: nat, nb: nat)
    requires |stream| >= 16 && FrameAt(stream, f, rest, fs, nf, nb)
    ensures ReadFixed(stream[..16]) == Some(Lengths(nf, nb)) && |stream| >= 16 + nf + PadLength(16 + nf, 8) + nb
  {
    LengthsIff(stream, nf, nb);
    PadIs(16 + nf, 8);
    assert (16 + nf) % 8 == nf % 8;
    hide ReadFixed, FieldsIn, LittleEndian, PadLength, KeepAll;
  }

  lemma LengthsIff(stream: Bytes, nf: nat, nb: nat)
    requires |stream| >= 16
    ensures ReadFixed(stream[..16]) == Some(Lengths(nf, nb)) <==>
            && stream[0] == 'l' as int && LittleEndian(stream[4..8], nb) && LittleEndian(stream[12..16], nf)
            && 16 + nf + nb <= 0x10_0000
  {
    assert stream[..16][4..8] == stream[4..8] && stream[..16][12..16] == stream[12..16];
  }

  /** The stream begins with the message f and goes on with the rest. */
  ghost predicate IsFrame(stream: Bytes, f: Frame, rest: Bytes) {
    exists fs, nf, nb :: FrameAt(stream, f, rest, fs, nf, nb)
  }

  /** The client takes exactly these bytes for a whole message. */
  lemma FrameIff(stream: Bytes, f: Frame, rest: Bytes)
    ensures SplitFrame(stream) == Whole(f, rest) <==> IsFrame(stream, f, rest)
  {
    hide ReadFixed, OpenFrame, FrameAt, PadLength;
    if SplitFrame(stream) == Whole(f, rest) {
      var l := ReadFixed(stream[..16]).value;
      FrameOpened(stream, f, rest, l.fields, l.body);
    }
    forall fs, nf, nb | FrameAt(stream, f, rest, fs, nf, nb) ensures SplitFrame(stream) == Whole(f, rest) {
      FrameEnough(stream, f, rest, fs, nf, nb);
      FrameLengths(stream, f, rest, fs, nf, nb);
      FrameOpened(stream, f, rest, nf, nb);
    }
  }

  lemma FrameEnough(stream: Bytes, f: Frame, rest: Bytes, fs: seq<Field>, nf: nat, nb: nat)
    requires FrameAt(stream, f, rest, fs, nf, nb)
    ensures |stream| >= 16
  {
  }

  /** The first message that is no signal, after any number of signals. */
  ghost predicate AnswerAt(stream: Bytes, f: Frame, rest: Bytes)
    decreases |stream|
  {
    exists g, mid ::
      && IsFrame(stream, g, mid) && |mid| < |stream|
      && if g.type_ == 4 then AnswerAt(mid, f, rest) else g == f && mid == rest
  }

  lemma {:induction false} AnswerIff(stream: Bytes, f: Frame, rest: Bytes)
    ensures FirstAnswer(stream) == Whole(f, rest) <==> AnswerAt(stream, f, rest)
    decreases |stream|
  {
    hide SplitFrame, IsFrame;
    forall g, mid ensures SplitFrame(stream) == Whole(g, mid) <==> IsFrame(stream, g, mid) {
      FrameIff(stream, g, mid);
    }
    match SplitFrame(stream)
    case Whole(g, mid) =>
      assert IsFrame(stream, g, mid);
      AnswerIff(mid, f, rest);
    case _ =>
  }

  // ------------------------------------------------------------------
  // Results
  // ------------------------------------------------------------------

  /** The call succeeds exactly with a METHOD_RETURN that carries its serial, and with no signature or exactly
      one value that fills the body. */
  lemma ValueReplyIff(f: Frame, serial: uint32, v: Reply)
    ensures Judge(f, serial) == Value(v) <==>
            && f.type_ == 2 && f.head.replySerial == serial
            && if f.head.sig.None? || f.head.sig == Some([]) then v == Empty
               else exists at :: ReplyAt(Cursor(f.body, 0), f.head.sig.value, v, at) && at.rest == []
  {
    hide ReadValue, ReplyAt, ReadString;
    if f.head.sig.Some? {
      forall at ensures ReadValue(Cursor(f.body, 0), f.head.sig.value) == Some(Got(v, at)) <==>
                        ReplyAt(Cursor(f.body, 0), f.head.sig.value, v, at)
      {
        ReplyIff(Cursor(f.body, 0), f.head.sig.value, v, at);
      }
    }
  }

  /** Which byte streams answer a call with the value v. */
  lemma AcceptedIff(stream: Bytes, serial: uint32, v: Reply)
    ensures Await(stream, serial) == Value(v) <==>
            exists f, rest ::
              && AnswerAt(stream, f, rest) && f.type_ == 2 && f.head.replySerial == serial
              && if f.head.sig.None? || f.head.sig == Some([]) then v == Empty
                 else exists at :: ReplyAt(Cursor(f.body, 0), f.head.sig.value, v, at) && at.rest == []
  {
    hide FirstAnswer, AnswerAt, Judge, ReplyAt;
    forall f, rest ensures FirstAnswer(stream) == Whole(f, rest) <==> AnswerAt(stream, f, rest) {
      AnswerIff(stream, f, rest);
    }
    match FirstAnswer(stream)
    case Whole(f, rest) =>
      assert AnswerAt(stream, f, rest);
      ValueReplyIff(f, serial, v);
    case _ =>
  }

  /** The call fails with an error from the bus exactly on an ERROR message whose body is one string, which is
      the message; an error without a name gets one. */
  lemma ErrorReplyIff(f: Frame, serial: uint32, name: Bytes, msg: Bytes)
    ensures Judge(f, serial) == ErrorReply(name, msg) <==>
            && f.type_ == 3 && (exists at :: StringAt(Cursor(f.body, 0), msg, at) && at.rest == [])
            && name == if f.head.errorName.Some? then f.head.errorName.value else Ascii("org.lgmagic.Error.Failed")
  {
    hide ReadValue, StringAt, ReadString, Ascii;
    var c := Cursor(f.body, 0);
    assert SkipPad(c, 4) == c;
    forall at ensures ReadString(c) == Some(Got(msg, at)) <==> StringAt(c, msg, at) {
      StringIff(c, msg, at);
    }
  }

  /** The bytes of a field that count, up to its first NUL. */
  lemma {:induction false} UpToNulIs(b: Bytes, s: Bytes)
    ensures UpToNul(b) == s <==> s <= b && 0 !in s && (s == b || b[|s|] == 0)
  {
    if b == [] || b[0] == 0 {
    } else if s != [] && s[0] == b[0] {
      UpToNulIs(b[1..], s[1..]);
      assert b == [b[0]] + b[1..] && s == [s[0]] + s[1..];
    }
  }

  /** What the client sends has strings of less than 2^28 bytes without NULs, and less than 2^20 bytes in all. */
  lemma Limits(s: Bytes, fs: seq<Field>, body: Bytes)
    ensures Sendable(s) <==> |s| < 0x1000_0000 && 0 !in s
    ensures SendableFields(fs) ==>
              var n := 16 + |FieldsAt(16, fs)|;
              Fits(fs, body) <==> n + (8 - n % 8) % 8 + |body| <= 0x10_0000
  {
    if SendableFields(fs) {
      PadIs(16 + |FieldsAt(16, fs)|, 8);
    }
    hide FieldsAt, PadLength;
  }
}
