/**
 Marshaling of D-Bus method calls (tools/src/dbus_client.c, `wb_*` and `build_call`), after the
 sections "Marshaling (Wire Format)" and "Message Format" of the D-Bus Specification.

 The specification says which zero bytes precede a value, so the reference below pads before each
 value.  The program also pads after each string and then leaves the last padding out.
 */
module DBusWire {
  import opened Wrappers

  type byte = x: int | 0 <= x < 256
  type Bytes = seq<byte>
  type uint32 = x: int | 0 <= x < 0x1_0000_0000
  type uint64 = x: int | 0 <= x < 0x1_0000_0000_0000_0000

  // ------------------------------------------------------------------
  // Numbers and padding
  // ------------------------------------------------------------------

  function Low(v: nat): byte { v % 256 }

  function U32(v: uint32): (r: Bytes)
    ensures |r| == 4
  {
    [Low(v), Low(v / 0x100), Low(v / 0x1_0000), Low(v / 0x100_0000)]
  }

  function U64(v: uint64): (r: Bytes)
    ensures |r| == 8
  {
    U32(v % 0x1_0000_0000) + U32(v / 0x1_0000_0000)
  }

  function FromU32(b: Bytes): uint32
    requires |b| == 4
  {
    b[0] as int + 0x100 * b[1] as int + 0x1_0000 * b[2] as int + 0x100_0000 * b[3] as int
  }

  /** Four bytes, the least significant one first. */
  predicate LittleEndian(b: Bytes, v: int) {
    |b| == 4 && v == b[0] as int + 256 * b[1] as int + 65536 * b[2] as int + 16777216 * b[3] as int
  }

  lemma U32Little(v: uint32)
    ensures LittleEndian(U32(v), v)
  {
    U32Back(v);
  }

  /** Only one number has these bytes. */
  lemma LittleUnique(b: Bytes, v: uint32)
    requires LittleEndian(b, v)
    ensures b == U32(v)
  {
    var b0: int, b1: int, b2: int, b3: int := b[0], b[1], b[2], b[3];
    var a := v / 0x100;
    var c := a / 0x100;
    assert v == b0 + 0x100 * (b1 + 0x100 * (b2 + 0x100 * b3));
    assert v % 0x100 == b0 && a == b1 + 0x100 * (b2 + 0x100 * b3);
    assert a % 0x100 == b1 && c == b2 + 0x100 * b3;
    assert v / 0x1_0000 == c && v / 0x100_0000 == b3;
  }

  lemma U32Back(v: uint32)
    ensures FromU32(U32(v)) == v
  {
    var a := v / 0x100;
    var b := a / 0x100;
    var c := b / 0x100;
    assert v / 0x1_0000 == b && v / 0x100_0000 == c && c < 0x100;
    assert v == v % 0x100 + 0x100 * a && a == a % 0x100 + 0x100 * b && b == b % 0x100 + 0x100 * c;
  }

  function Zeros(k: nat): (r: Bytes)
    ensures |r| == k
    ensures forall i :: 0 <= i < k ==> r[i] == 0
  {
    if k == 0 then [] else Zeros(k - 1) + [0]
  }

  /** The only alignments there are beyond 1. */
  type alignment = a: int | a == 4 || a == 8 witness 4

  predicate Aligned(n: nat, a: alignment) { n % 8 == 0 || (a == 4 && n % 8 == 4) }

  /** The zero bytes needed after n bytes to reach a multiple of a. */
  function PadLength(n: nat, a: alignment): (k: nat)
    ensures k < a
  {
    var r := n % 8;
    if r == 0 then 0 else if a == 4 && r <= 4 then 4 - r else 8 - r
  }

  lemma ModAdd(n: nat, i: nat)
    requires i <= 8
    ensures (n + i) % 8 == if n % 8 + i < 8 then n % 8 + i else n % 8 + i - 8
  {
  }

  /** The padding aligns, and fewer zero bytes would not do. */
  lemma PadLeast(n: nat, i: nat, a: alignment)
    requires i <= PadLength(n, a)
    ensures Aligned(n + i, a) <==> i == PadLength(n, a)
  {
    ModAdd(n, i);
  }

  lemma PadLengthTwice(n: nat, a: alignment)
    ensures PadLength(n, 4) + PadLength(n + PadLength(n, 4), a) == PadLength(n, a)
  {
    ModAdd(n, PadLength(n, 4));
  }

  function Pad(n: nat, a: alignment): Bytes {
    Zeros(PadLength(n, a))
  }

  lemma ZerosAdd(i: nat, k: nat)
    ensures Zeros(i) + Zeros(k) == Zeros(i + k)
  {
  }

  /** Padding to 4 first makes no difference to padding to 8, nor to 4 again. */
  lemma PadTwice(n: nat, a: alignment)
    ensures Pad(n, 4) + Pad(n + PadLength(n, 4), a) == Pad(n, a)
  {
    hide PadLength;
    PadLengthTwice(n, a);
    ZerosAdd(PadLength(n, 4), PadLength(n + PadLength(n, 4), a));
  }

  // ------------------------------------------------------------------
  // Arguments
  // ------------------------------------------------------------------

  /** An argument of type s, d or u; a double is given by the 64 bits of its representation. */
  datatype Arg = ArgString(s: Bytes) | ArgDouble(bits: uint64) | ArgNumber(u: uint32)

  const STRING_MAX: nat := 0x0fff_ffff

  /** What wb_str accepts. */
  predicate Sendable(s: Bytes) { |s| <= STRING_MAX && 0 !in s }

  function Alignment(a: Arg): alignment { if a.ArgDouble? then 8 else 4 }

  function StringBytes(s: Bytes): Bytes
    requires |s| <= STRING_MAX
  {
    U32(|s|) + s + [0]
  }

  predicate SendableArg(a: Arg) { a.ArgString? ==> Sendable(a.s) }

  function ArgBytes(a: Arg): Bytes
    requires SendableArg(a)
  {
    match a
    case ArgString(s) => StringBytes(s)
    case ArgDouble(bits) => U64(bits)
    case ArgNumber(u) => U32(u)
  }

  /** One argument at offset n: padding, then its bytes. */
  function ArgAt(n: nat, a: Arg): Bytes
    requires SendableArg(a)
  {
    Pad(n, Alignment(a)) + ArgBytes(a)
  }

  predicate SendableArgs(args: seq<Arg>) { forall i :: 0 <= i < |args| ==> SendableArg(args[i]) }

  /** The arguments from offset n on. */
  function ArgsAt(n: nat, args: seq<Arg>): Bytes
    requires SendableArgs(args)
    decreases |args|
  {
    if args == [] then []
    else var first := ArgAt(n, args[0]); first + ArgsAt(n + |first|, args[1..])
  }

  function TypeOf(a: Arg): byte {
    match a
    case ArgString(_) => 's' as int
    case ArgDouble(_) => 'd' as int
    case ArgNumber(_) => 'u' as int
  }

  function Signature(args: seq<Arg>): (r: Bytes)
    ensures |r| == |args|
  {
    if args == [] then [] else [TypeOf(args[0])] + Signature(args[1..])
  }

  // ------------------------------------------------------------------
  // Header fields and messages
  // ------------------------------------------------------------------

  datatype FieldValue = ObjectPath(s: Bytes) | Text(s: Bytes) | Sig(s: Bytes) | Number(u: uint32)

  datatype Field = Field(code: byte, v: FieldValue)

  const PATH: byte := 1
  const INTERFACE: byte := 2
  const MEMBER: byte := 3
  const ERROR_NAME: byte := 4
  const REPLY_SERIAL: byte := 5
  const DESTINATION: byte := 6
  const SIGNATURE: byte := 8

  function SigChar(v: FieldValue): byte {
    match v
    case ObjectPath(_) => 'o' as int
    case Text(_) => 's' as int
    case Sig(_) => 'g' as int
    case Number(_) => 'u' as int
  }

  predicate SendableValue(v: FieldValue) {
    match v
    case Sig(s) => |s| <= 255 && 0 !in s
    case Number(_) => true
    case _ => Sendable(v.s)
  }

  function ValueBytes(v: FieldValue): Bytes
    requires SendableValue(v)
  {
    match v
    case Sig(s) => [|s|] + s + [0]
    case Number(u) => U32(u)
    case _ => StringBytes(v.s)
  }

  /** A field at offset n: a structure, so aligned to 8, holding a code and a variant. */
  function FieldAt(n: nat, f: Field): Bytes
    requires SendableValue(f.v)
  {
    var head := Pad(n, 8) + [f.code, 1, SigChar(f.v), 0];
    head + (if f.v.Sig? then [] else Pad(n + |head|, 4)) + ValueBytes(f.v)
  }

  predicate SendableFields(fs: seq<Field>) { forall i :: 0 <= i < |fs| ==> SendableValue(fs[i].v) }

  function FieldsAt(n: nat, fs: seq<Field>): Bytes
    requires SendableFields(fs)
    decreases |fs|
  {
    if fs == [] then []
    else var first := FieldAt(n, fs[0]); first + FieldsAt(n + |first|, fs[1..])
  }

  const FIXED: nat := 16

  /** The fixed part: little-endian, type, flags 0, version 1, body length, serial, fields length. */
  function Fixed(type_: byte, bodyLen: uint32, serial: uint32, fieldsLen: uint32): (r: Bytes)
    ensures |r| == FIXED
  {
    ['l' as int, type_, 0, 1] + U32(bodyLen) + U32(serial) + U32(fieldsLen)
  }

  const MAX_MESSAGE: nat := 0x10_0000

  /** Header, padding and body fit the limit. */
  predicate Fits(fs: seq<Field>, body: Bytes)
    requires SendableFields(fs)
  {
    var n := FIXED + |FieldsAt(FIXED, fs)|;
    n + PadLength(n, 8) + |body| <= MAX_MESSAGE
  }

  function Message(type_: byte, serial: uint32, fs: seq<Field>, body: Bytes): Bytes
    requires SendableFields(fs) && Fits(fs, body)
  {
    var fields := FieldsAt(FIXED, fs);
    Fixed(type_, |body|, serial, |fields|) + fields + Pad(FIXED + |fields|, 8) + body
  }

  /** The names a call is addressed to. */
  datatype Target = Target(dest: Bytes, path: Bytes, iface: Bytes, member: Bytes)

  predicate SendableTarget(t: Target) {
    Sendable(t.dest) && Sendable(t.path) && Sendable(t.iface) && Sendable(t.member)
  }

  /** The header fields of a call; the signature is left out for an empty body. */
  function CallFields(t: Target, sig: Bytes): seq<Field> {
    TargetFields(t) + if sig == [] then [] else [Field(SIGNATURE, Sig(sig))]
  }

  function TargetFields(t: Target): seq<Field> {
    [Field(PATH, ObjectPath(t.path)), Field(INTERFACE, Text(t.iface)), Field(MEMBER, Text(t.member)),
     Field(DESTINATION, Text(t.dest))]
  }

  const METHOD_CALL: byte := 1

  // ------------------------------------------------------------------
  // The writer
  // ------------------------------------------------------------------

  /** struct wb: the bytes written, and their number before the most recent padding. */
  class Writer {
    var b: Bytes
    var nodepad: nat

    constructor ()
      ensures b == [] && nodepad == 0
    {
      b, nodepad := [], 0;
    }

    /** The writer holds m, possibly followed by the padding of a string. */
    ghost predicate Holds(m: Bytes)
      reads this
    {
      nodepad == |m| && (b == m || b == m + Pad(|m|, 4))
    }

    method Put(p: Bytes)
      modifies this
      ensures b == old(b) + p && nodepad == |b|
    {
      b := b + p;
      nodepad := |b|;
    }

    method PadTo(align: alignment)
      modifies this
      ensures b == old(b) + Pad(|old(b)|, align) && nodepad == |old(b)|
    {
      hide PadLength, Aligned;
      ghost var n := |b|;
      var pre := |b|;
      PadLeast(n, 0, align);
      assert b == old(b) + Zeros(0);
      while !Aligned(|b|, align)
        invariant n <= |b| <= n + PadLength(n, align)
        invariant b == old(b) + Zeros(|b| - n)
        decreases n + PadLength(n, align) - |b|
      {
        PadLeast(n, |b| - n, align);
        Put([0]);
      }
      PadLeast(n, |b| - n, align);
      nodepad := pre;
    }

    method PutString(s: Bytes)
      requires Sendable(s)
      modifies this
      ensures b == old(b) + StringBytes(s) + Pad(|old(b)| + |StringBytes(s)|, 4)
      ensures nodepad == |old(b)| + |StringBytes(s)|
    {
      Put(U32(|s|));
      Put(s);
      Put([0]);
      assert b == old(b) + StringBytes(s);
      PadTo(4);
    }

    /** body_add_arg. */
    method AddArg(a: Arg, ghost m: Bytes)
      requires SendableArg(a) && Holds(m)
      modifies this
      ensures Holds(m + ArgAt(|m|, a))
    {
      PadBefore(if a.ArgDouble? then 8 else 4, m);
      ArgSplit(m, a);
      hide ArgAt, ArgBytes, Pad, Holds;
      PutArg(a, b);
    }

    /** Whatever padding m is followed by, padding to a starts over from m. */
    method PadBefore(a: alignment, ghost m: Bytes)
      requires Holds(m)
      modifies this
      ensures b == m + Pad(|m|, a)
    {
      PaddedFrom(b, m, a);
      PadTo(a);
    }

    method PutArg(a: Arg, ghost m: Bytes)
      requires SendableArg(a) && b == m
      modifies this
      ensures Holds(m + ArgBytes(a))
    {
      match a
      case ArgString(s) => PutString(s);
      case ArgDouble(bits) => Put(U64(bits));
      case ArgNumber(u) => Put(U32(u));
    }

    /** hdr_field. */
    method AddField(f: Field, ghost m: Bytes)
      requires SendableValue(f.v) && Holds(m)
      modifies this
      ensures Holds(m + FieldAt(|m|, f))
    {
      AddFieldHead(f.code, SigChar(f.v), m);
      if !f.v.Sig? {
        PadTo(4);
      }
      FieldSplit(m, f);
      hide FieldAt;
      PutValue(f.v, b);
    }

    method AddFieldHead(code: byte, sig: byte, ghost m: Bytes)
      requires Holds(m)
      modifies this
      ensures b == m + (Pad(|m|, 8) + [code, 1, sig, 0]) && nodepad == |b|
    {
      PadBefore(8, m);
      ghost var padded := b;
      Put([code]);
      Put([1]);
      Put([sig]);
      Put([0]);
      assert b == padded + [code, 1, sig, 0];
    }

    method PutValue(v: FieldValue, ghost m: Bytes)
      requires SendableValue(v) && b == m
      modifies this
      ensures Holds(m + ValueBytes(v))
    {
      match v
      case Sig(s) => PutSignature(s, m);
      case Number(u) => Put(U32(u));
      case _ => PutString(v.s);
    }

    method PutSignature(s: Bytes, ghost m: Bytes)
      requires SendableValue(Sig(s)) && b == m
      modifies this
      ensures Holds(m + ValueBytes(Sig(s)))
    {
      Put([|s|]);
      Put(s);
      Put([0]);
      assert b == m + ([|s|] + s + [0]);
    }

    /** Patches the little-endian number at offset 12. */
    method PatchLength(v: uint32)
      requires |b| >= FIXED
      modifies this`b
      ensures b == old(b)[..12] + U32(v) + old(b)[16..]
    {
      b := b[..12] + U32(v) + b[16..];
    }
  }

  lemma FieldSplit(m: Bytes, f: Field)
    requires SendableValue(f.v)
    ensures var head := Pad(|m|, 8) + [f.code, 1, SigChar(f.v), 0];
            m + FieldAt(|m|, f) ==
            (if f.v.Sig? then m + head else m + head + Pad(|m + head|, 4)) + ValueBytes(f.v)
  {
    var head := Pad(|m|, 8) + [f.code, 1, SigChar(f.v), 0];
    var pad := if f.v.Sig? then [] else Pad(|m| + |head|, 4);
    assert m + (head + pad + ValueBytes(f.v)) == m + head + pad + ValueBytes(f.v);
  }

  lemma ArgSplit(m: Bytes, a: Arg)
    requires SendableArg(a)
    ensures m + ArgAt(|m|, a) == m + Pad(|m|, Alignment(a)) + ArgBytes(a)
  {
  }

  lemma PaddedFrom(b: Bytes, m: Bytes, a: alignment)
    requires b == m || b == m + Pad(|m|, 4)
    ensures b + Pad(|b|, a) == m + Pad(|m|, a)
  {
    PadTwice(|m|, a);
    assert m + Pad(|m|, 4) + Pad(|m| + PadLength(|m|, 4), a) == m + (Pad(|m|, 4) + Pad(|m| + PadLength(|m|, 4), a));
  }

  lemma ArgsStep(m: Bytes, args: seq<Arg>, i: nat)
    requires SendableArgs(args) && i < |args|
    ensures m + ArgAt(|m|, args[i]) + ArgsAt(|m + ArgAt(|m|, args[i])|, args[i + 1..]) == m + ArgsAt(|m|, args[i..])
  {
    hide ArgAt;
    var first := ArgAt(|m|, args[i]);
    assert args[i..][1..] == args[i + 1..] && |m + first| == |m| + |first|;
    var rest := ArgsAt(|m| + |first|, args[i + 1..]);
    assert m + first + rest == m + (first + rest);
  }

  /** The body of a call, without the padding after the last argument. */
  method BuildBody(args: seq<Arg>) returns (body: Bytes)
    requires SendableArgs(args)
    ensures body == ArgsAt(0, args)
  {
    var w := new Writer();
    ghost var m: Bytes := [];
    assert args[0..] == args;
    for i := 0 to |args|
      invariant w.Holds(m) && m + ArgsAt(|m|, args[i..]) == ArgsAt(0, args)
    {
      ArgsStep(m, args, i);
      w.AddArg(args[i], m);
      m := m + ArgAt(|m|, args[i]);
    }
    assert m + [] == m;
    return w.b[..w.nodepad];
  }

  lemma FieldsStep(m: Bytes, fs: seq<Field>, i: nat)
    requires SendableFields(fs) && i < |fs|
    ensures m + FieldAt(|m|, fs[i]) + FieldsAt(|m + FieldAt(|m|, fs[i])|, fs[i + 1..]) == m + FieldsAt(|m|, fs[i..])
  {
    hide FieldAt;
    var first := FieldAt(|m|, fs[i]);
    assert fs[i..][1..] == fs[i + 1..] && |m + first| == |m| + |first|;
    var rest := FieldsAt(|m| + |first|, fs[i + 1..]);
    assert m + first + rest == m + (first + rest);
  }

  lemma {:induction false} SignatureNulFree(args: seq<Arg>)
    ensures 0 !in Signature(args)
  {
    if args != [] {
      SignatureNulFree(args[1..]);
    }
  }

  lemma CallFieldsAre(t: Target, sig: Bytes)
    requires SendableTarget(t) && |sig| <= 255 && 0 !in sig
    ensures var fs := CallFields(t, sig);
            && SendableFields(fs) && |fs| == (if sig == [] then 4 else 5)
            && fs[0] == Field(PATH, ObjectPath(t.path)) && fs[1] == Field(INTERFACE, Text(t.iface))
            && fs[2] == Field(MEMBER, Text(t.member)) && fs[3] == Field(DESTINATION, Text(t.dest))
            && (sig != [] ==> fs[4] == Field(SIGNATURE, Sig(sig)))
  {
  }

  /** The i-th field of fs, when the i fields before it have been written. */
  method AddNext(w: Writer, f: Field, ghost fs: seq<Field>, ghost i: nat, ghost m: Bytes, ghost all: Bytes)
    returns (ghost m': Bytes)
    requires SendableFields(fs) && i < |fs| && fs[i] == f && SendableValue(f.v)
    requires w.Holds(m) && m + FieldsAt(|m|, fs[i..]) == all
    modifies w
    ensures w.Holds(m') && m' + FieldsAt(|m'|, fs[i + 1..]) == all
  {
    hide Writer.Holds, FieldAt, FieldsAt;
    w.AddField(f, m);
    FieldsStep(m, fs, i);
    m' := m + FieldAt(|m|, f);
  }

  /** The four or five header fields of a call, after m0. */
  method AddCallFields(w: Writer, t: Target, sig: Bytes, ghost m0: Bytes)
    requires SendableTarget(t) && |sig| <= 255 && 0 !in sig && w.Holds(m0)
    modifies w
    ensures SendableFields(CallFields(t, sig)) && w.Holds(m0 + FieldsAt(|m0|, CallFields(t, sig)))
  {
    ghost var fs := CallFields(t, sig);
    CallFieldsAre(t, sig);
    ghost var all := m0 + FieldsAt(|m0|, fs);
    ghost var m := AddTarget(w, t, fs, m0, all);
    hide CallFields, Writer.Holds, FieldsAt, SendableFields, Sendable;
    if sig != [] {
      m := AddNext(w, Field(SIGNATURE, Sig(sig)), fs, 4, m, all);
    }
    FieldsEnd(m, fs[|fs|..]);
  }

  /** The four fields that say what is called. */
  method AddTarget(w: Writer, t: Target, ghost fs: seq<Field>, ghost m0: Bytes, ghost all: Bytes)
    returns (ghost m: Bytes)
    requires SendableTarget(t) && SendableFields(fs) && TargetFields(t) <= fs && w.Holds(m0)
    requires m0 + FieldsAt(|m0|, fs) == all
    modifies w
    ensures w.Holds(m) && m + FieldsAt(|m|, fs[4..]) == all
  {
    hide Writer.Holds, FieldsAt, SendableFields, Sendable;
    assert fs[0..] == fs;
    m := AddNext(w, Field(PATH, ObjectPath(t.path)), fs, 0, m0, all);
    m := AddNext(w, Field(INTERFACE, Text(t.iface)), fs, 1, m, all);
    m := AddNext(w, Field(MEMBER, Text(t.member)), fs, 2, m, all);
    m := AddNext(w, Field(DESTINATION, Text(t.dest)), fs, 3, m, all);
  }

  lemma FieldsEnd(m: Bytes, fs: seq<Field>)
    requires fs == []
    ensures m + FieldsAt(|m|, fs) == m
  {
  }

  /** The sixteen bytes that every message begins with: little-endian, the type, no flags, version 1, the length
      of the body, the serial and the length of the header fields. */
  lemma FixedLayout(type_: byte, bodyLen: uint32, serial: uint32, fieldsLen: uint32)
    ensures var f := Fixed(type_, bodyLen, serial, fieldsLen);
            && |f| == 16 && f[..4] == ['l' as int, type_, 0, 1]
            && LittleEndian(f[4..8], bodyLen) && LittleEndian(f[8..12], serial) && LittleEndian(f[12..16], fieldsLen)
  {
    hide U32, LittleEndian;
    U32Little(bodyLen);
    U32Little(serial);
    U32Little(fieldsLen);
    var f := Fixed(type_, bodyLen, serial, fieldsLen);
    assert f[4..8] == U32(bodyLen) && f[8..12] == U32(serial) && f[12..16] == U32(fieldsLen);
  }

  /** Patching the fields length into the header. */
  lemma Patched(bodyLen: uint32, serial: uint32, v: uint32, fields: Bytes, b: Bytes, pad: Bytes)
    requires b == Fixed(METHOD_CALL, bodyLen, serial, 0) + fields + pad
    ensures b[..12] + U32(v) + b[16..] == Fixed(METHOD_CALL, bodyLen, serial, v) + fields + pad
  {
    var head := ['l' as int, METHOD_CALL, 0, 1] + U32(bodyLen) + U32(serial);
    assert Fixed(METHOD_CALL, bodyLen, serial, 0) == head + U32(0);
    assert b[..12] == head && b[16..] == fields + pad;
  }

  /** The finished header: what the fields hold, with their length patched in, padded to 8. */
  method FinishHeader(hdr: Writer, bodyLen: uint32, serial: uint32, ghost fields: Bytes)
    requires hdr.Holds(Fixed(METHOD_CALL, bodyLen, serial, 0) + fields)
    modifies hdr
    ensures hdr.b == Fixed(METHOD_CALL, bodyLen, serial, |fields| % 0x1_0000_0000) + fields + Pad(FIXED + |fields|, 8)
  {
    var fieldsLen := (hdr.nodepad - FIXED) % 0x1_0000_0000;
    ghost var m := Fixed(METHOD_CALL, bodyLen, serial, 0) + fields;
    ghost var pad := hdr.b[|m|..];
    Patched(bodyLen, serial, fieldsLen, fields, hdr.b, pad);
    hdr.PatchLength(fieldsLen);
    ghost var m' := Fixed(METHOD_CALL, bodyLen, serial, fieldsLen) + fields;
    assert hdr.b == m' + pad;
    if pad == [] {
      assert m' + pad == m';
    }
    PaddedFrom(hdr.b, m', 8);
    hdr.PadTo(8);
  }

  /** build_call: None when the message would be too long. */
  method BuildCall(serial: uint32, t: Target, args: seq<Arg>) returns (msg: Option<Bytes>)
    requires SendableTarget(t) && SendableArgs(args) && |args| <= 255
    ensures SendableFields(CallFields(t, Signature(args)))
    ensures var fs, body := CallFields(t, Signature(args)), ArgsAt(0, args);
            msg == if Fits(fs, body) then Some(Message(METHOD_CALL, serial, fs, body)) else None
  {
    hide FieldsAt, ArgsAt, CallFields, Signature, Fixed, SendableFields, PadLength;
    var body := BuildBody(args);
    var sig := Signature(args);
    SignatureNulFree(args);
    var hdr := new Writer();
    var bodyLen := |body| % 0x1_0000_0000;
    hdr.Put(Fixed(METHOD_CALL, bodyLen, serial, 0));
    AddCallFields(hdr, t, sig, hdr.b);
    FinishHeader(hdr, bodyLen, serial, FieldsAt(FIXED, CallFields(t, sig)));
    if |hdr.b| + |body| > MAX_MESSAGE {
      return None;
    }
    return Some(hdr.b + body);
  }
}
