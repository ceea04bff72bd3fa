/**
 One D-Bus call and its reply (tools/src/dbus_client.c, `readn` and `bus_call`): the framing of the
 incoming byte stream, which may be cut into reads anywhere.
 */
module DBusClient {
  import opened Wrappers
  import opened DBusWire
  import opened DBusReader
  import opened Strings

  // ------------------------------------------------------------------
  // Frames
  // ------------------------------------------------------------------

  datatype Frame = Frame(type_: byte, head: Head, body: Bytes)

  /** The first message of a stream: cut short, malformed, or whole with the stream after it. */
  datatype Split = Short | Bad | Whole(f: Frame, rest: Bytes)

  /** The lengths that the fixed part declares, when they are within the limit. */
  datatype Lengths = Lengths(fields: nat, body: nat)

  function ReadFixed(fixed: Bytes): Option<Lengths>
    requires |fixed| == FIXED
  {
    var body, fields := FromU32(fixed[4..8]), FromU32(fixed[12..16]);
    if fixed[0] != 'l' as int || fields > MAX_MESSAGE || body > MAX_MESSAGE || FIXED + fields + body > MAX_MESSAGE
    then None
    else Some(Lengths(fields, body))
  }

  /** The bytes of a message after the fixed part. */
  function RestLength(l: Lengths): nat { l.fields + PadLength(FIXED + l.fields, 8) + l.body }

  function OpenFrame(fixed: Bytes, l: Lengths, rest: Bytes): Option<Frame>
    requires |fixed| == FIXED && |rest| == RestLength(l)
  {
    match ParseHead(Cursor(rest[..l.fields], FIXED))
    case None => None
    case Some(h) => Some(Frame(fixed[1], h, rest[|rest| - l.body..]))
  }

  function SplitFrame(stream: Bytes): (r: Split)
    ensures r.Whole? ==> |r.rest| < |stream|
  {
    if |stream| < FIXED then Short
    else
      var fixed, more := stream[..FIXED], stream[FIXED..];
      match ReadFixed(fixed)
      case None => Bad
      case Some(l) =>
        var n := RestLength(l);
        if |more| < n then Short
        else
          match OpenFrame(fixed, l, more[..n])
          case None => Bad
          case Some(f) => Whole(f, more[n..])
  }

  // ------------------------------------------------------------------
  // Replies
  // ------------------------------------------------------------------

  const RETURN: byte := 2
  const ERROR: byte := 3
  const SIGNAL: byte := 4

  /** The result of a call: a value, an error reply, or a local failure. */
  datatype Result = Value(v: Reply) | ErrorReply(name: Bytes, msg: Bytes) | Failure

  /** The bytes of an ASCII text. */
  function Ascii(s: string): Bytes { seq(|s|, i requires 0 <= i < |s| => s[i] as int % 256) }

  /** The name of an error that comes without one. */
  const UNNAMED: Bytes := Ascii("org.lgmagic.Error.Failed")

  function ErrorOf(f: Frame): Result {
    match ReadString(SkipPad(Cursor(f.body, 0), 4))
    case None => Failure
    case Some(Got(msg, at)) =>
      if at.rest == [] then ErrorReply(if f.head.errorName.Some? then f.head.errorName.value else UNNAMED, msg)
      else Failure
  }

  function ValueOf(f: Frame): Result {
    match f.head.sig
    case None => Value(Empty)
    case Some(sig) =>
      if sig == [] then Value(Empty)
      else
        match ReadValue(Cursor(f.body, 0), sig)
        case None => Failure
        case Some(Got(v, at)) => if at.rest == [] then Value(v) else Failure
  }

  /** What a message that is no signal means for the call in flight. */
  function Judge(f: Frame, serial: uint32): Result {
    if f.type_ == ERROR then ErrorOf(f)
    else if f.type_ != RETURN || f.head.replySerial != serial then Failure
    else ValueOf(f)
  }

  /** The first message of a stream that is no signal. */
  function FirstAnswer(stream: Bytes): (r: Split)
    ensures r.Whole? ==> |r.rest| < |stream| && r.f.type_ != SIGNAL
    decreases |stream|
  {
    match SplitFrame(stream)
    case Whole(f, rest) => if f.type_ == SIGNAL then FirstAnswer(rest) else Whole(f, rest)
    case s => s
  }

  /** The result of waiting for the reply to `serial`. */
  function Await(stream: Bytes, serial: uint32): Result {
    match FirstAnswer(stream)
    case Whole(f, _) => Judge(f, serial)
    case _ => Failure
  }

  // ------------------------------------------------------------------
  // Marshaled messages are framed and read back
  // ------------------------------------------------------------------

  lemma FixedRead(type_: byte, bodyLen: uint32, serial: uint32, fieldsLen: uint32)
    requires FIXED + fieldsLen + bodyLen <= MAX_MESSAGE
    ensures var fixed := Fixed(type_, bodyLen, serial, fieldsLen);
            fixed[1] == type_ && ReadFixed(fixed) == Some(Lengths(fieldsLen, bodyLen))
  {
    hide U32, FromU32;
    var fixed := Fixed(type_, bodyLen, serial, fieldsLen);
    U32Back(bodyLen);
    U32Back(fieldsLen);
    assert fixed[4..8] == U32(bodyLen) && fixed[12..16] == U32(fieldsLen);
  }

  /** A marshaled message at the head of a stream is one frame: its header fields, its body, and
      nothing of what follows. */
  lemma MessageRead(type_: byte, serial: uint32, fs: seq<Field>, body: Bytes, more: Bytes)
    requires SendableFields(fs) && Fits(fs, body)
    ensures SplitFrame(Message(type_, serial, fs, body) + more) ==
            Whole(Frame(type_, KeepAll(NO_HEAD, fs), body), more)
  {
    hide FieldsAt, ReadFields, KeepAll, PadLength, ReadFixed, Fixed;
    var fields := FieldsAt(FIXED, fs);
    var fixed := Fixed(type_, |body|, serial, |fields|);
    var pad := Pad(FIXED + |fields|, 8);
    var stream := Message(type_, serial, fs, body) + more;
    FixedRead(type_, |body|, serial, |fields|);
    var rest := fields + pad + body;
    assert stream == fixed + (rest + more);
    assert stream[..FIXED] == fixed && stream[FIXED..] == rest + more;
    var l := Lengths(|fields|, |body|);
    assert |rest| == RestLength(l);
    assert (rest + more)[..|rest|] == rest && (rest + more)[|rest|..] == more;
    FieldsRead(FIXED, fs);
    assert rest[..|fields|] == fields && rest[|rest| - |body|..] == body;
  }

  /** The message that build_call makes: its length is that of its parts, and decoding it gives back the
      header fields, the signature and the arguments. */
  lemma CallDecodes(serial: uint32, t: Target, args: seq<Arg>, more: Bytes)
    requires SendableTarget(t) && SendableArgs(args) && |args| <= 255
    requires SendableFields(CallFields(t, Signature(args))) && Fits(CallFields(t, Signature(args)), ArgsAt(0, args))
    ensures var fs, body := CallFields(t, Signature(args)), ArgsAt(0, args);
            var msg := Message(METHOD_CALL, serial, fs, body);
            var n := |FieldsAt(FIXED, fs)|;
            && |msg| == 16 + n + PadLength(16 + n, 8) + |body|
            && msg[..4] == ['l' as int, 1, 0, 1]
            && LittleEndian(msg[4..8], |body|) && LittleEndian(msg[8..12], serial) && LittleEndian(msg[12..16], n)
            && fs == [Field(1, ObjectPath(t.path)), Field(2, Text(t.iface)), Field(3, Text(t.member)),
                      Field(6, Text(t.dest))] + (if args == [] then [] else [Field(8, Sig(Signature(args)))])
            && ReadFixed(msg[..FIXED]) == Some(Lengths(n, |body|))
            && ReadFields(Cursor(msg[FIXED..FIXED + n], FIXED)) == Some(fs)
            && SplitFrame(msg + more) ==
               Whole(Frame(METHOD_CALL, Head(None, if args == [] then None else Some(Signature(args)), 0), body), more)
            && ReadArgs(Cursor(body, 0), Signature(args)) == Some(args)
  {
    hide FieldsAt, ArgsAt, ReadFields, ReadArgs, SplitFrame, ReadFixed, Fixed, PadLength, Signature, KeepAll, Fits;
    var sig := Signature(args);
    var fs, body := CallFields(t, sig), ArgsAt(0, args);
    MessageRead(METHOD_CALL, serial, fs, body, more);
    CallHead(t, sig, args);
    FieldsRead(FIXED, fs);
    ArgsRead(0, args);
    var msg, fields := Message(METHOD_CALL, serial, fs, body), FieldsAt(FIXED, fs);
    FitsLengths(fs, body);
    FixedRead(METHOD_CALL, |body|, serial, |fields|);
    FixedLayout(METHOD_CALL, |body|, serial, |fields|);
    Layout(msg, Fixed(METHOD_CALL, |body|, serial, |fields|));
    CallNames(t, args);
    assert msg[..FIXED] == Fixed(METHOD_CALL, |body|, serial, |fields|);
    assert msg[FIXED..FIXED + |fields|] == fields;
  }

  lemma Layout(msg: Bytes, fixed: Bytes)
    requires |fixed| == 16 && fixed <= msg
    ensures msg[..4] == fixed[..4] && msg[4..8] == fixed[4..8]
    ensures msg[8..12] == fixed[8..12] && msg[12..16] == fixed[12..16]
  {
  }

  lemma CallNames(t: Target, args: seq<Arg>)
    ensures CallFields(t, Signature(args)) ==
            [Field(1, ObjectPath(t.path)), Field(2, Text(t.iface)), Field(3, Text(t.member)), Field(6, Text(t.dest))] +
            (if args == [] then [] else [Field(8, Sig(Signature(args)))])
  {
    NoSignature(args);
    hide Signature;
  }

  lemma FitsLengths(fs: seq<Field>, body: Bytes)
    requires SendableFields(fs) && Fits(fs, body)
    ensures FIXED + |FieldsAt(FIXED, fs)| + |body| <= MAX_MESSAGE
  {
  }

  lemma CallHead(t: Target, sig: Bytes, args: seq<Arg>)
    requires SendableTarget(t) && sig == Signature(args) && |args| <= 255
    ensures KeepAll(NO_HEAD, CallFields(t, sig)) == Head(None, if args == [] then None else Some(sig), 0)
  {
    SignatureNulFree(args);
    UpToNulWhole(sig);
    NoSignature(args);
    hide Signature, UpToNul, KeepAll, TargetFields, SendableTarget;
    var last := if sig == [] then [] else [Field(SIGNATURE, Sig(sig))];
    TargetSkipped(NO_HEAD, t);
    KeepConcat(NO_HEAD, TargetFields(t), last);
    SignatureKept(sig);
  }

  lemma TargetSkipped(h: Head, t: Target)
    ensures KeepAll(h, TargetFields(t)) == h
  {
    hide KeepAll;
    OthersSkipped(h, TargetFields(t));
  }

  lemma SignatureKept(sig: Bytes)
    requires UpToNul(sig) == sig
    ensures KeepAll(NO_HEAD, []) == NO_HEAD
    ensures KeepAll(NO_HEAD, [Field(SIGNATURE, Sig(sig))]) == Head(None, Some(sig), 0)
  {
    hide UpToNul;
    assert [Field(SIGNATURE, Sig(sig))][1..] == [];
  }

  lemma NoSignature(args: seq<Arg>)
    ensures Signature(args) == [] <==> args == []
  {
  }

  lemma {:induction false} KeepConcat(h: Head, a: seq<Field>, b: seq<Field>)
    ensures KeepAll(h, a + b) == KeepAll(KeepAll(h, a), b)
    decreases |a|
  {
    hide Keep;
    if a == [] {
      assert a + b == b;
    } else {
      assert (a + b)[1..] == a[1..] + b;
      KeepConcat(Keep(h, a[0]), a[1..], b);
    }
  }

  /** Fields that the reader does not keep. */
  lemma {:induction false} OthersSkipped(h: Head, fs: seq<Field>)
    requires forall i :: 0 <= i < |fs| ==> fs[i].code in {PATH, INTERFACE, MEMBER, DESTINATION}
    ensures KeepAll(h, fs) == h
    decreases |fs|
  {
    if fs != [] {
      assert Keep(h, fs[0]) == h;
      OthersSkipped(h, fs[1..]);
    }
  }

  // ------------------------------------------------------------------
  // Which replies are accepted
  // ------------------------------------------------------------------

  /** A message on the wire. */
  datatype Sent = Sent(type_: byte, serial: uint32, fs: seq<Field>, body: Bytes)

  predicate Wellformed(m: Sent) { SendableFields(m.fs) && Fits(m.fs, m.body) }

  function WireOf(m: Sent): Bytes
    requires Wellformed(m)
  {
    Message(m.type_, m.serial, m.fs, m.body)
  }

  predicate AllSignals(ms: seq<Sent>) { forall i :: 0 <= i < |ms| ==> Wellformed(ms[i]) && ms[i].type_ == 4 }

  function OnWire(ms: seq<Sent>): Bytes
    requires AllSignals(ms)
  {
    if ms == [] then [] else WireOf(ms[0]) + OnWire(ms[1..])
  }

  /** Any number of signals in front makes no difference. */
  lemma {:induction false} SignalsSkipped(ms: seq<Sent>, more: Bytes)
    requires AllSignals(ms)
    ensures FirstAnswer(OnWire(ms) + more) == FirstAnswer(more)
    decreases |ms|
  {
    hide Message, SplitFrame;
    if ms == [] {
      assert OnWire(ms) + more == more;
    } else {
      var m, tail := ms[0], ms[1..];
      var first := WireOf(m);
      assert OnWire(ms) + more == first + (OnWire(tail) + more);
      MessageRead(m.type_, m.serial, m.fs, m.body, OnWire(tail) + more);
      SignalsSkipped(tail, more);
    }
  }

  /** After any signals, a METHOD_RETURN with the right serial and a value of one of the supported types
      gives that value, and exactly the bytes after it are left. */
  lemma ReturnAccepted(ms: seq<Sent>, m: Sent, serial: uint32, v: Reply, more: Bytes)
    requires AllSignals(ms)
    requires Wellformed(m) && m.type_ == 2 && SendableReply(v) && m.body == BodyOf(v)
    requires var h := KeepAll(NO_HEAD, m.fs);
             h.replySerial == serial && h.sig == if v.Empty? then None else Some(SigOf(v))
    ensures var stream := OnWire(ms) + (WireOf(m) + more);
            Await(stream, serial) == Value(v) &&
            FirstAnswer(stream) == Whole(Frame(2, KeepAll(NO_HEAD, m.fs), m.body), more)
  {
    hide Message, SplitFrame, KeepAll, OnWire, ReadValue, BodyOf;
    SignalsSkipped(ms, WireOf(m) + more);
    MessageRead(m.type_, m.serial, m.fs, m.body, more);
    if !v.Empty? {
      ValueRead(v);
      assert |SigOf(v)| > 0;
    }
  }

  /** A value is only ever the body of a METHOD_RETURN that carries the serial of the call. */
  lemma ValueOnlyForOurCall(stream: Bytes, serial: uint32)
    requires Await(stream, serial).Value?
    ensures FirstAnswer(stream).Whole?
    ensures FirstAnswer(stream).f.type_ == 2 && FirstAnswer(stream).f.head.replySerial == serial
  {
    hide FirstAnswer;
  }

  function FrameOf(m: Sent): Frame { Frame(m.type_, KeepAll(NO_HEAD, m.fs), m.body) }

  /** After any signals, the first other message alone decides. */
  lemma AnswerJudged(ms: seq<Sent>, m: Sent, serial: uint32, more: Bytes)
    requires AllSignals(ms) && Wellformed(m) && m.type_ != 4
    ensures var stream := OnWire(ms) + (WireOf(m) + more);
            FirstAnswer(stream) == Whole(FrameOf(m), more) && Await(stream, serial) == Judge(FrameOf(m), serial)
  {
    hide Message, SplitFrame, KeepAll, OnWire, Judge;
    SignalsSkipped(ms, WireOf(m) + more);
    MessageRead(m.type_, m.serial, m.fs, m.body, more);
  }

  /** After any signals, everything but an error or the return that carries our serial is a failure. */
  lemma OthersRefused(ms: seq<Sent>, m: Sent, serial: uint32, more: Bytes)
    requires AllSignals(ms) && Wellformed(m) && m.type_ !in {3, 4}
    requires m.type_ == 2 ==> KeepAll(NO_HEAD, m.fs).replySerial != serial
    ensures Await(OnWire(ms) + (WireOf(m) + more), serial) == Failure
  {
    hide Message, KeepAll, OnWire, Await;
    AnswerJudged(ms, m, serial, more);
  }

  /** The field counts as a reply serial, an error name or a signature: its code says which, and its value is
      of the right kind. */
  predicate Counts(f: Field, code: byte) {
    && f.code == code
    && ((code == 5 && f.v.Number?) || (code == 4 && (f.v.Text? || f.v.ObjectPath?)) || (code == 8 && !f.v.Number?))
  }

  /** The last of each counts. */
  lemma {:induction false} LastKept(h: Head, a: seq<Field>, f: Field, b: seq<Field>)
    requires Counts(f, f.code) && forall i :: 0 <= i < |b| ==> !Counts(b[i], f.code)
    ensures var r := KeepAll(h, a + [f] + b);
            && (f.code == 5 ==> r.replySerial == f.v.u) && (f.code == 4 ==> r.errorName == Some(UpToNul(f.v.s)))
            && (f.code == 8 ==> r.sig == Some(UpToNul(f.v.s)))
  {
    KeepConcat(h, a + [f], b);
    KeepConcat(h, a, [f]);
    assert [f][1..] == [];
    OthersKept(KeepAll(h, a + [f]), b, f.code);
    hide UpToNul;
  }

  lemma {:induction false} OthersKept(h: Head, fs: seq<Field>, code: byte)
    requires forall i :: 0 <= i < |fs| ==> !Counts(fs[i], code)
    ensures code == 5 ==> KeepAll(h, fs).replySerial == h.replySerial
    ensures code == 4 ==> KeepAll(h, fs).errorName == h.errorName
    ensures code == 8 ==> KeepAll(h, fs).sig == h.sig
    decreases |fs|
  {
    hide UpToNul;
    if fs != [] {
      assert !Counts(fs[0], code);
      OthersKept(Keep(h, fs[0]), fs[1..], code);
    }
  }

  /** A header without any has the serial 0, no error name and no signature. */
  lemma NoneKept(fs: seq<Field>)
    requires forall i, code :: 0 <= i < |fs| && code in {4, 5, 8} ==> !Counts(fs[i], code)
    ensures KeepAll(NO_HEAD, fs) == Head(None, None, 0)
  {
    OthersKept(NO_HEAD, fs, 4);
    OthersKept(NO_HEAD, fs, 5);
    OthersKept(NO_HEAD, fs, 8);
  }

  /** Frames that are no messages, or too long ones. */
  lemma BadFrames(stream: Bytes, body: uint32, fields: uint32)
    requires |stream| >= 16 && LittleEndian(stream[4..8], body) && LittleEndian(stream[12..16], fields)
    requires stream[0] != 'l' as int || 16 + fields + body > 0x10_0000
    ensures SplitFrame(stream) == Bad && forall serial :: Await(stream, serial) == Failure
  {
    var fixed := stream[..16];
    assert fixed[4..8] == stream[4..8] && fixed[12..16] == stream[12..16];
    assert ReadFixed(fixed).None?;
  }

  /** A message that is not all there yet has not arrived. */
  lemma CutShort(m: Sent, n: nat)
    requires Wellformed(m) && n < |WireOf(m)|
    ensures SplitFrame(WireOf(m)[..n]) == Short
  {
    hide FieldsAt, Fixed, PadLength, OpenFrame;
    var w, fields := WireOf(m), FieldsAt(FIXED, m.fs);
    FixedRead(m.type_, |m.body|, m.serial, |fields|);
    if n >= FIXED {
      assert w[..n][..FIXED] == Fixed(m.type_, |m.body|, m.serial, |fields|);
    }
  }

  /** The body is one string, with nothing after it. */
  predicate OneString(body: Bytes) {
    var o := ReadString(SkipPad(Cursor(body, 0), 4));
    o.Some? && o.value.at.rest == []
  }

  /** An error with a readable message that answers another call. */
  predicate ErrorOfOther(f: Frame, serial: uint32) {
    f.type_ == 3 && f.head.replySerial != serial && OneString(f.body)
  }

  /** Whatever bytes come in: an answer that is taken for ours carries the serial of our call, unless it is
      an error with a readable message that answers another one.  Those alone are taken for ours wrongly. */
  lemma AnswerIsOursIff(stream: Bytes, serial: uint32)
    ensures var o := FirstAnswer(stream);
            (!Await(stream, serial).Failure? ==> o.Whole? && o.f.head.replySerial == serial) <==>
            !(o.Whole? && ErrorOfOther(o.f, serial))
  {
    hide FirstAnswer, ReadString, ReadValue;
  }

  /** The same of the first message that is no signal. */
  lemma SentIsOursIff(ms: seq<Sent>, m: Sent, serial: uint32, more: Bytes)
    requires AllSignals(ms) && Wellformed(m) && m.type_ != 4
    ensures var r := Await(OnWire(ms) + (WireOf(m) + more), serial);
            (!r.Failure? ==> KeepAll(NO_HEAD, m.fs).replySerial == serial) <==> !ErrorOfOther(FrameOf(m), serial)
  {
    hide Await, Message, OnWire, KeepAll, OneString;
    AnswerJudged(ms, m, serial, more);
    AnswerIsOursIff(OnWire(ms) + (WireOf(m) + more), serial);
  }

  /** An instance: an error with a message is taken for ours whatever serial it carries. */
  lemma ErrorsOfOthersAccepted(ms: seq<Sent>, m: Sent, serial: uint32, msg: Bytes, more: Bytes)
    requires AllSignals(ms) && Wellformed(m) && m.type_ == 3 && Sendable(msg) && m.body == StringBytes(msg)
    ensures OneString(m.body)
    ensures var name := KeepAll(NO_HEAD, m.fs).errorName;
            Await(OnWire(ms) + (WireOf(m) + more), serial) ==
            ErrorReply(if name.Some? then name.value else Ascii("org.lgmagic.Error.Failed"), msg)
  {
    hide Message, KeepAll, StringBytes, ReadString, OnWire, Await;
    AnswerJudged(ms, m, serial, more);
    StartAligned(Cursor(m.body, 0));
    assert m.body + [] == m.body;
    StringBytesRead(Cursor(m.body, 0), msg, []);
    NothingLeft(|m.body|);
  }

  // ------------------------------------------------------------------
  // The client
  // ------------------------------------------------------------------

  function Flatten(chunks: seq<Bytes>): Bytes {
    if chunks == [] then [] else chunks[0] + Flatten(chunks[1..])
  }

  class Client {
    /** Bytes read but not yet used. */
    var rbuf: Bytes
    /** What the reads to come will deliver, until the connection ends. */
    var incoming: seq<Bytes>
    var serial: uint32
    var sent: Bytes

    constructor (incoming: seq<Bytes>)
      ensures Stream() == Flatten(incoming) && serial == 0 && sent == []
    {
      rbuf, this.incoming, serial, sent := [], incoming, 0, [];
      new;
      assert [] + Flatten(incoming) == Flatten(incoming);
    }

    ghost function Stream(): Bytes
      reads this
    {
      rbuf + Flatten(incoming)
    }

    method Refill() returns (ok: bool)
      modifies this`rbuf, this`incoming
      ensures ok <==> old(incoming) != []
      ensures ok ==> Stream() == old(Stream()) && incoming == old(incoming)[1..]
      ensures !ok ==> rbuf == old(rbuf) && incoming == old(incoming)
    {
      if incoming == [] {
        return false;
      }
      assert rbuf + (incoming[0] + Flatten(incoming[1..])) == rbuf + incoming[0] + Flatten(incoming[1..]);
      rbuf := rbuf + incoming[0];
      incoming := incoming[1..];
      return true;
    }

    /** As much as is wanted of what the buffer holds. */
    method TakeBuffered(n: nat) returns (piece: Bytes)
      requires n > 0 && rbuf != []
      modifies this`rbuf
      ensures 0 < |piece| <= n && piece + Stream() == old(Stream())
    {
      var take := if n < |rbuf| then n else |rbuf|;
      piece := rbuf[..take];
      Assoc(piece, rbuf[take..], Flatten(incoming));
      assert rbuf == piece + rbuf[take..];
      rbuf := rbuf[take..];
    }

    /** readn: exactly n bytes, or None when the stream ends before. */
    method ReadN(n: nat) returns (buf: Option<Bytes>)
      modifies this`rbuf, this`incoming
      ensures if n <= |old(Stream())| then
                buf == Some(old(Stream())[..n]) && Stream() == old(Stream())[n..]
              else buf == None
    {
      var got: Bytes := [];
      ghost var all := Stream();
      assert [] + all == all;
      while |got| < n
        invariant |got| <= n && got + Stream() == all
        decreases |incoming|, n - |got|
      {
        hide Flatten, Client.Stream;
        if rbuf != [] {
          var piece := TakeBuffered(n - |got|);
          Assoc(got, piece, Stream());
          got := got + piece;
          continue;
        }
        var ok := Refill();
        if !ok {
          assert Flatten([]) == [];
          return None;
        }
      }
      assert all[..n] == got && all[n..] == Stream();
      return Some(got);
    }

    /** One message. */
    method ReadMessage() returns (f: Option<Frame>)
      modifies this`rbuf, this`incoming
      ensures match SplitFrame(old(Stream()))
              case Whole(g, rest) => f == Some(g) && Stream() == rest
              case _ => f == None
    {
      hide ParseHead, PadLength, FromU32;
      var fixed := ReadN(FIXED);
      if fixed.None? {
        return None;
      }
      var l := ReadFixed(fixed.value);
      if l.None? {
        return None;
      }
      var rest := ReadN(RestLength(l.value));
      if rest.None? {
        return None;
      }
      var fields := new Slice(rest.value[..l.value.fields], FIXED);
      assert fields.data[0..] == fields.data;
      var h := fields.ReadHead();
      if fields.err {
        return None;
      }
      return Some(Frame(fixed.value[1], h, rest.value[|rest.value| - l.value.body..]));
    }

    /** The error message and name of an ERROR reply. */
    method ReadError(f: Frame) returns (r: Result)
      ensures r == ErrorOf(f)
    {
      var body := new Slice(f.body, 0);
      assert body.data[0..] == body.data;
      body.PadTo(4);
      var msg := body.ReadText();
      if body.err || body.p != |f.body| {
        return Failure;
      }
      return ErrorReply(if f.head.errorName.Some? then f.head.errorName.value else UNNAMED, msg);
    }

    method ReadReturn(f: Frame) returns (r: Result)
      ensures r == ValueOf(f)
    {
      if f.head.sig.None? || f.head.sig.value == [] {
        return Value(Empty);
      }
      var body := new Slice(f.body, 0);
      assert body.data[0..] == body.data;
      var v := body.Read(f.head.sig.value);
      if body.err || body.p != |f.body| {
        return Failure;
      }
      return Value(v);
    }

    /** The reply loop of bus_call. */
    method WaitReply() returns (r: Result)
      modifies this`rbuf, this`incoming
      ensures r == Await(old(Stream()), serial)
      ensures !r.Failure? ==> FirstAnswer(old(Stream())).Whole? && Stream() == FirstAnswer(old(Stream())).rest
    {
      hide SplitFrame, ErrorOf, ValueOf;
      while true
        invariant FirstAnswer(Stream()) == FirstAnswer(old(Stream()))
        decreases |Stream()|
      {
        var f := ReadMessage();
        if f.None? {
          return Failure;
        }
        if f.value.type_ == SIGNAL {
          continue;
        }
        if f.value.type_ == ERROR {
          r := ReadError(f.value);
          return;
        }
        if f.value.type_ != RETURN || f.value.head.replySerial != serial {
          return Failure;
        }
        r := ReadReturn(f.value);
        return;
      }
    }

    /** bus_call: the arguments have been checked to be of supported types.  `writable` says whether the
        whole call could be written. */
    method Call(t: Target, args: seq<Arg>, writable: bool) returns (r: Result)
      requires SendableTarget(t) && SendableArgs(args) && |args| <= 255
      modifies this
      ensures serial == if old(serial) == 0xffff_ffff then 0 else old(serial) + 1
      ensures SendableFields(CallFields(t, Signature(args)))
      ensures var fs, body := CallFields(t, Signature(args)), ArgsAt(0, args);
              if !Fits(fs, body) || !writable then r == Failure && sent == old(sent)
              else
                && sent == old(sent) + Message(METHOD_CALL, serial, fs, body)
                && r == Await(old(Stream()), serial)
                && (!r.Failure? ==>
                      FirstAnswer(old(Stream())).Whole? && Stream() == FirstAnswer(old(Stream())).rest)
    {
      hide Await, FirstAnswer, Fits, Message;
      serial := if serial == 0xffff_ffff then 0 else serial + 1;
      var msg := BuildCall(serial, t, args);
      if msg.None? || !writable {
        return Failure;
      }
      sent := sent + msg.value;
      r := WaitReply();
    }
  }
}
