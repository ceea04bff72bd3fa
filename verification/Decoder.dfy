/**
 The kernel's report decoder (kernel/lg_magic_main.c, `lgmagic_raw_event`) and the daemon's frame
 reader (tools/src/evdev.c, `evdev_read_frame_ext`).
 */
module Decoder {
  import opened Wrappers
  import opened Strings
  import opened Reals
  import opened Airmouse

  /** An input event as the decoder reports it and the daemon reads it. */
  datatype InputEvent =
    | Key(code: int, value: int)
    | Wheel(ticks: int)
    | HWheel(ticks: int)
    | RelX(d: int)
    | RelY(d: int)
    | Axis(axis: nat, v: int)     // 0..2 ABS_X..ABS_Z, 3..5 ABS_RX..ABS_RZ
    | Serial(counter: nat)
    | Other
    | Syn

  const KEY_UP := 103
  const KEY_DOWN := 108
  const BTN_LEFT := 272
  const CODE_WHEEL := 0x8044

  /** lg_btn_map: button code and keycode, in table order. */
  const BTN_MAP: seq<(int, int)> := DIGITS + CONTROLS + MENUS + COLOURS

  const DIGITS: seq<(int, int)> := [
    (0x8000, 116), (0x8099, 142),
    (0x8010, 11), (0x8011, 2), (0x8012, 3), (0x8013, 4), (0x8014, 5), (0x8015, 6),
    (0x8016, 7), (0x8017, 8), (0x8018, 9), (0x8019, 10)]

  const CONTROLS: seq<(int, int)> := [
    (CODE_WHEEL, 28), (CODE_WHEEL, BTN_LEFT),
    (0x8053, 395), (0x8045, 139), (0x8002, 115), (0x8003, 114), (0x8009, 113), (0x808B, 582)]

  const MENUS: seq<(int, int)> := [
    (0x807C, 102), (0x8043, 141), (0x8028, 158), (0x80AB, 362), (0x805D, 226), (0x800B, 377),
    (0x8098, 438), (0x8001, 403)]

  const COLOURS: seq<(int, int)> := [
    (0x8072, 398), (0x8071, 399), (0x8063, 400), (0x8061, 401), (0x8081, 393), (0x80B0, 207),
    (0x80BA, 119), (0x8040, KEY_UP), (0x8041, KEY_DOWN), (0x8006, 106), (0x8007, 105)]

  /** No table entry has keycode 0. */
  lemma KeycodesNonzero()
    ensures forall i :: 0 <= i < |BTN_MAP| ==> BTN_MAP[i].1 != 0
  {
    assert forall i :: 0 <= i < |DIGITS| ==> DIGITS[i].1 != 0;
    assert forall i :: 0 <= i < |CONTROLS| ==> CONTROLS[i].1 != 0;
    assert forall i :: 0 <= i < |MENUS| ==> MENUS[i].1 != 0;
    assert forall i :: 0 <= i < |COLOURS| ==> COLOURS[i].1 != 0;
  }

  /** The keycode of the first table entry for a button. */
  function KeycodeOf(table: seq<(int, int)>, btn: int): Option<int> {
    if table == [] then None
    else if table[0].0 == btn then Some(table[0].1)
    else KeycodeOf(table[1..], btn)
  }

  lemma {:induction false} KeycodeOfIndex(table: seq<(int, int)>, btn: int, i: nat)
    requires i < |table| && table[i].0 == btn && forall j :: 0 <= j < i ==> table[j].0 != btn
    ensures KeycodeOf(table, btn) == Some(table[i].1)
  {
    if i > 0 {
      KeycodeOfIndex(table[1..], btn, i - 1);
    }
  }

  lemma {:induction false} KeycodeOfAbsent(table: seq<(int, int)>, btn: int)
    requires forall j :: 0 <= j < |table| ==> table[j].0 != btn
    ensures KeycodeOf(table, btn) == None
  {
    if table != [] {
      KeycodeOfAbsent(table[1..], btn);
    }
  }

  // ------------------------------------------------------------------
  // The fields of a report
  // ------------------------------------------------------------------

  type Report = d: seq<int> | forall i :: 0 <= i < |d| ==> 0 <= d[i] < 256

  predicate Ours(d: Report) {
    |d| == 20 && d[0] == 0xFD
  }

  function Button(d: Report): int requires Ours(d) { d[17] * 256 + d[18] }

  function Signed8(b: int): int { if b < 128 then b else b - 256 }

  function Signed16(v: int): int { if v < 32768 then v else v - 65536 }

  function Ticks(d: Report): int requires Ours(d) { Signed8(d[19]) }

  function Counter(d: Report): nat requires Ours(d) { d[1] + d[2] * 256 }

  function Imu(d: Report, i: nat): int
    requires Ours(d) && i < 6
  {
    Signed16(d[5 + 2 * i] * 256 + d[6 + 2 * i])
  }

  /** The gyroscope's three readings. */
  function Gyro(d: Report): (g: seq<int>)
    requires Ours(d)
    ensures |g| == 3 && forall i :: 0 <= i < 3 ==> g[i] == Imu(d, i) && -32768 <= g[i] <= 32767
  {
    [Imu(d, 0), Imu(d, 1), Imu(d, 2)]
  }

  datatype Config = Config(rawOnly: bool, airmouse: bool, threshold: nat, imuEvdev: bool)

  datatype Buttons = Buttons(lastKey: int, lastBtn: int, mode: bool)

  // ------------------------------------------------------------------
  // The events a report gives rise to
  // ------------------------------------------------------------------

  /** Release what was down, press what is down now. */
  function ButtonEvents(b: Buttons, btn: int, rawOnly: bool): (Buttons, seq<InputEvent>) {
    if btn == b.lastBtn then (b, [])
    else
      var up := [Key(b.lastKey, 0)];
      match if btn == 0 then None else KeycodeOf(BTN_MAP, btn)
      case None => (Buttons(0, btn, b.mode), up)
      case Some(k) =>
        if btn == CODE_WHEEL && b.mode && !rawOnly then
          (Buttons(BTN_LEFT, btn, b.mode), up + [Key(BTN_LEFT, 1)])
        else
          (Buttons(k, btn, false), up + [Key(k, 1)])
  }

  function WheelEvents(ticks: int, native: bool): seq<InputEvent> {
    if ticks == 0 then []
    else if native then [Wheel(ticks)]
    else
      var k := if ticks > 0 then KEY_UP else KEY_DOWN;
      [Key(k, 1), Key(k, 0)]
  }

  datatype Motion = Motion(big: bool, x: int, y: int)

  function MoveEvents(cfg: Config, mode: bool, m: Motion): seq<InputEvent> {
    if cfg.airmouse && !cfg.rawOnly && mode then [RelX(m.x), RelY(m.y)] else []
  }

  /** The keyboard device's events for one report, given the motion the airmouse filter computed. */
  function HidEvents(b: Buttons, d: Report, cfg: Config, m: Motion): (Buttons, seq<InputEvent>)
    requires Ours(d)
  {
    var (b1, keys) := ButtonEvents(b, Button(d), cfg.rawOnly);
    var wheel := WheelEvents(Ticks(d), cfg.rawOnly || b1.mode);
    var on := cfg.airmouse && !cfg.rawOnly;
    var b2 := if on && m.big then b1.(mode := true) else b1;
    var move := MoveEvents(cfg, b2.mode, m);
    var reporting := Button(d) != b.lastBtn || Ticks(d) != 0 || (on && (m.x != 0 || m.y != 0));
    (b2, keys + wheel + move + if reporting then [Syn] else [])
  }

  function ImuEvents(d: Report, cfg: Config): seq<InputEvent>
    requires Ours(d)
  {
    if !cfg.imuEvdev && !cfg.rawOnly then []
    else [Serial(Counter(d)), Axis(0, Imu(d, 3)), Axis(1, Imu(d, 4)), Axis(2, Imu(d, 5)),
          Axis(3, Imu(d, 0)), Axis(4, Imu(d, 1)), Axis(5, Imu(d, 2)), Syn]
  }

  // ------------------------------------------------------------------
  // Reports by what they carry
  // ------------------------------------------------------------------

  /** The two's complement of `bits` bits: 0 <= raw < modulus stands for v. */
  predicate Complement(v: int, raw: int, modulus: int) {
    -modulus <= 2 * v < modulus && (raw == v || raw == v + modulus) && 0 <= raw < modulus
  }

  /** A report with this button, wheel movement, counter and six readings: the button and the readings with
      their high byte first, the counter with its low byte first. */
  predicate Carries(d: Report, btn: int, ticks: int, counter: int, v: seq<int>) {
    && |d| == 20 && d[0] == 0xFD && |v| == 6
    && btn == 256 * d[17] + d[18]
    && Complement(ticks, d[19], 256)
    && counter == d[1] + 256 * d[2]
    && forall i :: 0 <= i < 6 ==> Complement(v[i], 256 * d[5 + 2 * i] + d[6 + 2 * i], 65536)
  }

  /** The key that a change to this button presses: none for 0 and for unknown buttons, the left mouse button
      for the wheel in mouse mode, else the table's first. */
  function PressOf(b: Buttons, btn: int, rawOnly: bool): Option<int> {
    match if btn == 0 then None else KeycodeOf(BTN_MAP, btn)
    case None => None
    case Some(k) => Some(if btn == 0x8044 && b.mode && !rawOnly then 272 else k)
  }

  /** Every report is decoded: what it carries decides which events go out. */
  lemma ReportMeans(b: Buttons, d: Report, cfg: Config, m: Motion, btn: int, ticks: int, counter: int, v: seq<int>)
    requires Carries(d, btn, ticks, counter, v)
    ensures Ours(d) && Gyro(d) == v[..3]
    ensures ImuEvents(d, cfg) ==
            if cfg.imuEvdev || cfg.rawOnly then
              [Serial(counter), Axis(0, v[3]), Axis(1, v[4]), Axis(2, v[5]),
               Axis(3, v[0]), Axis(4, v[1]), Axis(5, v[2]), Syn]
            else []
    ensures var (b', out) := HidEvents(b, d, cfg, m);
            var changed, press, air := btn != b.lastBtn, PressOf(b, btn, cfg.rawOnly), cfg.airmouse && !cfg.rawOnly;
            var mode := b.mode && !(changed && press.Some? && press != Some(272));
            var down := if press.Some? then [Key(press.value, 1)] else [];
            var keys := if !changed then [] else [Key(b.lastKey, 0)] + down;
            var arrow := if ticks > 0 then 103 else 108;
            var wheel := if ticks == 0 then []
                         else if cfg.rawOnly || mode then [Wheel(ticks)]
                         else [Key(arrow, 1), Key(arrow, 0)];
            var move := if air && (mode || m.big) then [RelX(m.x), RelY(m.y)] else [];
            var some := changed || ticks != 0 || (air && (m.x != 0 || m.y != 0));
            && out == keys + wheel + move + (if some then [Syn] else [])
            && b' == Buttons(if !changed then b.lastKey else if press.Some? then press.value else 0, btn,
                             mode || (air && m.big))
  {
    forall i | 0 <= i < 6 ensures Imu(d, i) == v[i] {
      assert Complement(v[i], 256 * d[5 + 2 * i] + d[6 + 2 * i], 65536);
    }
    OtherButtons(btn);
    hide KeycodeOf, BTN_MAP;
  }

  lemma {:induction false} KeycodeOfSum(a: seq<(int, int)>, b: seq<(int, int)>, btn: int)
    ensures KeycodeOf(a + b, btn) == if KeycodeOf(a, btn).Some? then KeycodeOf(a, btn) else KeycodeOf(b, btn)
  {
    if a == [] {
      assert a + b == b;
    } else {
      assert (a + b)[1..] == a[1..] + b;
      KeycodeOfSum(a[1..], b, btn);
    }
  }

  /** The first entry of a button, or the length of the table. */
  lemma {:induction false} FirstEntry(table: seq<(int, int)>, btn: int) returns (i: nat)
    ensures i <= |table| && forall j :: 0 <= j < i ==> table[j].0 != btn
    ensures if i < |table| then table[i].0 == btn && KeycodeOf(table, btn) == Some(table[i].1)
            else KeycodeOf(table, btn) == None
  {
    if table == [] || table[0].0 == btn {
      i := 0;
    } else {
      var k := FirstEntry(table[1..], btn);
      i := k + 1;
    }
  }

  function KeyIn(keys: map<int, int>, btn: int): Option<int> { if btn in keys then Some(keys[btn]) else None }

  /** Power, sleep and the digits 0 to 9. */
  lemma DigitKeys(btn: int)
    ensures KeycodeOf(DIGITS, btn) ==
            KeyIn(map[0x8000 := 116, 0x8099 := 142, 0x8010 := 11, 0x8011 := 2, 0x8012 := 3, 0x8013 := 4, 0x8014 := 5,
                      0x8015 := 6, 0x8016 := 7, 0x8017 := 8, 0x8018 := 9, 0x8019 := 10], btn)
  {
    var i := FirstEntry(DIGITS, btn);
    hide KeycodeOf;
    assert i == 12 ==>
             btn !in {DIGITS[0].0, DIGITS[1].0, DIGITS[2].0, DIGITS[3].0, DIGITS[4].0, DIGITS[5].0, DIGITS[6].0,
                      DIGITS[7].0, DIGITS[8].0, DIGITS[9].0, DIGITS[10].0, DIGITS[11].0};
  }

  /** Enter (the wheel), list, menu, volume up and down, mute and voice. */
  lemma ControlKeys(btn: int)
    ensures KeycodeOf(CONTROLS, btn) ==
            KeyIn(map[0x8044 := 28, 0x8053 := 395, 0x8045 := 139, 0x8002 := 115, 0x8003 := 114, 0x8009 := 113,
                      0x808B := 582], btn)
  {
    var i := FirstEntry(CONTROLS, btn);
    hide KeycodeOf;
    assert i > 0 ==> CONTROLS[0].0 != btn;
    assert i == 8 ==> btn !in {CONTROLS[0].0, CONTROLS[1].0, CONTROLS[2].0, CONTROLS[3].0, CONTROLS[4].0, CONTROLS[5].0,
                     CONTROLS[6].0, CONTROLS[7].0};
  }

  /** Home, setup, back, program, media, TV, context menu and channel down. */
  lemma MenuKeys(btn: int)
    ensures KeycodeOf(MENUS, btn) ==
            KeyIn(map[0x807C := 102, 0x8043 := 141, 0x8028 := 158, 0x80AB := 362, 0x805D := 226, 0x800B := 377,
                      0x8098 := 438, 0x8001 := 403], btn)
  {
    var i := FirstEntry(MENUS, btn);
    hide KeycodeOf;
    assert i == 8 ==> btn !in {MENUS[0].0, MENUS[1].0, MENUS[2].0, MENUS[3].0, MENUS[4].0, MENUS[5].0, MENUS[6].0,
                     MENUS[7].0};
  }

  /** The colours, video, play, pause and the arrows. */
  lemma ColourKeys(btn: int)
    ensures KeycodeOf(COLOURS, btn) ==
            KeyIn(map[0x8072 := 398, 0x8071 := 399, 0x8063 := 400, 0x8061 := 401, 0x8081 := 393, 0x80B0 := 207,
                      0x80BA := 119, 0x8040 := 103, 0x8041 := 108, 0x8006 := 106, 0x8007 := 105], btn)
  {
    var i := FirstEntry(COLOURS, btn);
    hide KeycodeOf;
    assert i == 11 ==> btn !in {COLOURS[0].0, COLOURS[1].0, COLOURS[2].0, COLOURS[3].0, COLOURS[4].0, COLOURS[5].0,
                     COLOURS[6].0, COLOURS[7].0, COLOURS[8].0, COLOURS[9].0, COLOURS[10].0};
  }

  /** No button has the left mouse button as its first key. */
  lemma OtherButtons(btn: int)
    ensures KeycodeOf(BTN_MAP, btn) != Some(272)
  {
    hide KeycodeOf;
    KeycodeOfSum(DIGITS + CONTROLS + MENUS, COLOURS, btn);
    KeycodeOfSum(DIGITS + CONTROLS, MENUS, btn);
    KeycodeOfSum(DIGITS, CONTROLS, btn);
    DigitKeys(btn);
    ControlKeys(btn);
    MenuKeys(btn);
    ColourKeys(btn);
  }

  /** struct lgmagic_drvdata with its two input devices; `hid` and `imu` list what was reported. */
  class Driver {
    var lastKeycode: int
    var lastBtncode: int
    var mode: bool
    const gyroAcc: array<real>
    const calib: Calib
    var hid: seq<InputEvent>
    var imu: seq<InputEvent>
    /** The gyroscope readings that have been filtered. */
    ghost var gyros: seq<seq<int>>

    ghost predicate Valid()
      reads this, gyroAcc
    {
      gyroAcc.Length == 3 && IsGyroState(calib, gyros, gyroAcc[..])
    }

    ghost function State(): Buttons
      reads this
    {
      Buttons(lastKeycode, lastBtncode, mode)
    }

    constructor (c: Calib)
      requires c.Shape()
      ensures Valid() && State() == Buttons(0, 0, false) && hid == [] && imu == [] && gyros == []
    {
      lastKeycode, lastBtncode, mode := 0, 0, false;
      gyroAcc := new real[3](_ => 0.0);
      calib := c;
      hid, imu, gyros := [], [], [];
    }

    /** The filter state stays within its bounds for ever, and so does the motion. */
    ghost predicate Bounded()
      requires gyroAcc.Length == 3
      reads this, gyroAcc
    {
      forall i :: 0 <= i < 3 ==>
        Abs(gyroAcc[i]) <= GYRO_LIMIT && Abs(Trunc(Times(gyroAcc[i], calib.mouseK)) as real) <= GYRO_LIMIT
    }

    /** What the airmouse filter made of one report: nothing when it is off. */
    twostate predicate Filtered(d: Report, cfg: Config, m: Motion)
      requires Ours(d) && gyroAcc.Length == 3 && calib.Shape()
      reads this, gyroAcc
    {
      if cfg.rawOnly || !cfg.airmouse then
        m == Motion(false, 0, 0) && gyroAcc[..] == old(gyroAcc[..])
      else
        && (forall i :: 0 <= i < 3 ==> gyroAcc[i] == Mix(calib.alpha, Corrected(calib, Imu(d, i), i), old(gyroAcc[i])))
        && m == Motion(Abs(gyroAcc[0]) > cfg.threshold as real || Abs(gyroAcc[2]) > cfg.threshold as real,
                       Trunc(Times(gyroAcc[2], calib.mouseK)), Trunc(Times(gyroAcc[0], calib.mouseK)))
    }

    /** lgmagic_raw_event.  `registered` says whether both input devices are there. */
    method RawEvent(d: Report, cfg: Config, registered: bool) returns (ghost m: Motion)
      requires Valid()
      modifies this, gyroAcc
      ensures Valid() && (ValidCalib(calib) ==> Bounded())
      ensures !registered || !Ours(d) ==>
                && State() == old(State()) && hid == old(hid) && imu == old(imu)
                && gyros == old(gyros) && gyroAcc[..] == old(gyroAcc[..])
      ensures registered && Ours(d) ==> Filtered(d, cfg, m)
      ensures registered && Ours(d) ==>
                gyros == old(gyros) + if cfg.airmouse && !cfg.rawOnly then [Gyro(d)] else []
      ensures registered && Ours(d) ==> State() == HidEvents(old(State()), d, cfg, m).0
      ensures registered && Ours(d) ==> hid == old(hid) + HidEvents(old(State()), d, cfg, m).1
      ensures registered && Ours(d) ==> imu == old(imu) + ImuEvents(d, cfg)
    {
      m := Motion(false, 0, 0);
      if registered && |d| == 20 && d[0] == 0xFD {
        m := Decode(d, cfg);
      }
      if ValidCalib(calib) {
        GyroStateBounded(calib, gyros, gyroAcc[..]);
      }
    }

    /** A report of ours. */
    method Decode(d: Report, cfg: Config) returns (ghost m: Motion)
      requires Valid() && Ours(d)
      modifies this, gyroAcc
      ensures Valid() && Filtered(d, cfg, m)
      ensures gyros == old(gyros) + if cfg.airmouse && !cfg.rawOnly then [Gyro(d)] else []
      ensures State() == HidEvents(old(State()), d, cfg, m).0
      ensures hid == old(hid) + HidEvents(old(State()), d, cfg, m).1
      ensures imu == old(imu) + ImuEvents(d, cfg)
    {
      hide ButtonEvents, WheelEvents, MoveEvents, ImuEvents, IsGyroState, Mix, Corrected;
      ghost var (b1, keys) := ButtonEvents(State(), Button(d), cfg.rawOnly);
      ghost var wheel := WheelEvents(Ticks(d), cfg.rawOnly || b1.mode);
      var reporting := Controls(d, cfg);
      assert hid == old(hid) + (keys + wheel);
      var motion := Steer(d, cfg);
      m := motion;
      ghost var move := MoveEvents(cfg, mode, m);
      assert hid == old(hid) + (keys + wheel + move);
      reporting := reporting || motion.x != 0 || motion.y != 0;
      if reporting {
        hid := hid + [Syn];
      }
      assert hid == old(hid) + (keys + wheel + move + if reporting then [Syn] else []);
      ReportImu(d, cfg);
    }

    /** The button and the wheel of one report. */
    method Controls(d: Report, cfg: Config) returns (reporting: bool)
      requires Ours(d)
      modifies this`lastKeycode, this`lastBtncode, this`mode, this`hid
      ensures reporting <==> Button(d) != old(lastBtncode) || Ticks(d) != 0
      ensures var (b1, keys) := ButtonEvents(old(State()), Button(d), cfg.rawOnly);
              State() == b1 && hid == old(hid) + keys + WheelEvents(Ticks(d), cfg.rawOnly || b1.mode)
    {
      hide ButtonEvents, WheelEvents;
      var btn, ticks := d[17] * 256 + d[18], Signed8(d[19]);
      reporting := HandleButton(btn, cfg.rawOnly);
      var turned := HandleWheel(ticks, cfg.rawOnly || mode);
      reporting := reporting || turned;
    }

    /** The pointer motion of one report, sent in mouse mode. */
    method Steer(d: Report, cfg: Config) returns (m: Motion)
      requires Valid() && Ours(d)
      modifies this`gyros, this`mode, this`hid, gyroAcc
      ensures Valid() && Filtered(d, cfg, m)
      ensures gyros == old(gyros) + if cfg.airmouse && !cfg.rawOnly then [Gyro(d)] else []
      ensures mode == (old(mode) || m.big) && hid == old(hid) + MoveEvents(cfg, mode, m)
    {
      hide IsGyroState, Mix, Corrected;
      m := Motion(false, 0, 0);
      if cfg.airmouse && !cfg.rawOnly {
        var big, mx, my := Filter(d, cfg.threshold);
        m := Motion(big, mx, my);
        if big {
          mode := true;
        }
        if mode {
          hid := hid + [RelX(mx), RelY(my)];
        }
      }
    }

    /** The airmouse filter on one report. */
    method Filter(d: Report, threshold: nat) returns (big: bool, mx: int, my: int)
      requires Valid() && Ours(d)
      modifies this`gyros, gyroAcc
      ensures Valid() && gyros == old(gyros) + [Gyro(d)]
      ensures forall i :: 0 <= i < 3 ==>
                gyroAcc[i] == Mix(calib.alpha, Corrected(calib, Imu(d, i), i), old(gyroAcc[i]))
      ensures big <==> Abs(gyroAcc[0]) > threshold as real || Abs(gyroAcc[2]) > threshold as real
      ensures mx == Trunc(Times(gyroAcc[2], calib.mouseK)) && my == Trunc(Times(gyroAcc[0], calib.mouseK))
    {
      hide Mix, Corrected;
      big, mx, my := CalcMouse(calib, gyroAcc, threshold, [Imu(d, 0), Imu(d, 1), Imu(d, 2)]);
      GyroStateMore(calib, gyros, old(gyroAcc[..]), Gyro(d), gyroAcc[..]);
      gyros := gyros + [Gyro(d)];
    }

    method HandleWheel(ticks: int, native: bool) returns (reporting: bool)
      modifies this`hid
      ensures hid == old(hid) + WheelEvents(ticks, native) && (reporting <==> ticks != 0)
    {
      if ticks == 0 {
        return false;
      }
      reporting := true;
      if native {
        hid := hid + [Wheel(ticks)];
      } else {
        hid := hid + [Key(if ticks > 0 then KEY_UP else KEY_DOWN, 1), Key(if ticks > 0 then KEY_UP else KEY_DOWN, 0)];
      }
    }

    method ReportImu(d: Report, cfg: Config)
      requires Ours(d)
      modifies this`imu
      ensures imu == old(imu) + ImuEvents(d, cfg)
    {
      if !cfg.imuEvdev && !cfg.rawOnly {
        return;
      }
      imu := imu + [Serial(d[1] + d[2] * 256), Axis(0, Imu(d, 3)), Axis(1, Imu(d, 4)), Axis(2, Imu(d, 5)),
                    Axis(3, Imu(d, 0)), Axis(4, Imu(d, 1)), Axis(5, Imu(d, 2)), Syn];
    }

    method HandleButton(btn: int, rawOnly: bool) returns (reporting: bool)
      modifies this`lastKeycode, this`lastBtncode, this`mode, this`hid
      ensures reporting <==> btn != old(lastBtncode)
      ensures State() == ButtonEvents(old(State()), btn, rawOnly).0
      ensures hid == old(hid) + ButtonEvents(old(State()), btn, rawOnly).1
    {
      hide KeycodeOf, BTN_MAP;
      if btn == lastBtncode {
        return false;
      }
      hid := hid + [Key(lastKeycode, 0)];
      lastKeycode := 0;
      lastBtncode := btn;
      reporting := true;
      if btn == 0 {
        return;
      }
      var found := FindButton(btn);
      if found.Some? {
        var code := found.value;
        if btn == CODE_WHEEL && mode && !rawOnly {
          code := BTN_LEFT;
        } else {
          mode := false;
        }
        hid := hid + [Key(code, 1)];
        lastKeycode := code;
      }
    }
  }

  /** The search through lg_btn_map. */
  method FindButton(btn: int) returns (o: Option<int>)
    ensures o == KeycodeOf(BTN_MAP, btn)
  {
    for i := 0 to |BTN_MAP|
      invariant forall j :: 0 <= j < i ==> BTN_MAP[j].0 != btn
    {
      if BTN_MAP[i].0 == btn {
        KeycodeOfIndex(BTN_MAP, btn, i);
        return Some(BTN_MAP[i].1);
      }
    }
    KeycodeOfAbsent(BTN_MAP, btn);
    return None;
  }

  // ------------------------------------------------------------------
  // Frames
  // ------------------------------------------------------------------

  const FRAME_KEYS: nat := 16

  /** What a frame has collected so far; `axes` is the device's axis state, which outlives frames. */
  datatype Collected = Collected(keys: seq<(int, int)>, wheel: int, hwheel: int, counter: nat, axes: seq<int>)

  function Empty(axes: seq<int>): Collected { Collected([], 0, 0, 0, axes) }

  function Collect(c: Collected, ev: InputEvent): Collected {
    match ev
    case Key(code, value) => if |c.keys| < FRAME_KEYS then c.(keys := c.keys + [(code, value)]) else c
    case Wheel(n) => c.(wheel := c.wheel + n)
    case HWheel(n) => c.(hwheel := c.hwheel + n)
    case Axis(a, v) => if a < |c.axes| then c.(axes := c.axes[a := v]) else c
    case Serial(n) => c.(counter := n)
    case RelX(_) => c
    case RelY(_) => c
    case Other => c
    case Syn => c
  }

  /** One read(2) on the device: an event, an interruption, a short read or an error. */
  datatype Read = Got(ev: InputEvent) | Interrupted | Short | Failed

  datatype Outcome = Frame(c: Collected, rest: seq<Read>) | Eof(axes: seq<int>) | Error(axes: seq<int>, rest: seq<Read>)

  /** Reading up to the next Syn; `stop` is the flag the signal handler sets. */
  function ReadFrame(q: seq<Read>, c: Collected, stop: bool): Outcome
    decreases |q|
  {
    if q == [] then Eof(c.axes)
    else
      match q[0]
      case Interrupted => if stop then Error(c.axes, q[1..]) else ReadFrame(q[1..], c, stop)
      case Short => ReadFrame(q[1..], c, stop)
      case Failed => Error(c.axes, q[1..])
      case Got(ev) => if ev.Syn? then Frame(c, q[1..]) else ReadFrame(q[1..], Collect(c, ev), stop)
  }

  /** Time since the previous frame in seconds, unknown (NaN) for the first one. */
  function Interval(have: bool, last: nat, counter: nat): Option<real> {
    if have then Some(((counter - last) % 65536) as real / 256.0 * 0.02) else None
  }

  class Device {
    var lastCounter: nat
    var haveFrame: bool
    var axes: seq<int>
    var queue: seq<Read>

    constructor (q: seq<Read>, initial: seq<int>)
      requires |initial| == 6
      ensures queue == q && axes == initial && !haveFrame && lastCounter == 0
    {
      lastCounter, haveFrame, axes, queue := 0, false, initial, q;
    }

    /** evdev_read_frame_ext: 1 with a frame, 0 at the end of the stream, -1 on an error. */
    method ReadFrameExt(stop: bool) returns (rv: int, frame: Collected, dt: Option<real>)
      requires |axes| == 6
      modifies this
      ensures |axes| == 6
      ensures match ReadFrame(old(queue), Empty(old(axes)), stop)
              case Frame(c, rest) =>
                && rv == 1 && frame == c && axes == c.axes && queue == rest
                && dt == Interval(old(haveFrame), old(lastCounter), c.counter)
                && haveFrame && lastCounter == c.counter
              case Eof(a) => rv == 0 && axes == a && queue == [] && haveFrame == old(haveFrame)
              case Error(a, rest) => rv == -1 && axes == a && queue == rest && haveFrame == old(haveFrame)
    {
      frame, dt := Empty(axes), None;
      while queue != []
        invariant |axes| == 6 && frame.axes == axes
        invariant haveFrame == old(haveFrame) && lastCounter == old(lastCounter)
        invariant ReadFrame(queue, frame, stop) == ReadFrame(old(queue), Empty(old(axes)), stop)
        decreases |queue|
      {
        var r := queue[0];
        queue := queue[1..];
        match r
        case Interrupted =>
          if stop {
            return -1, frame, dt;
          }
        case Short =>
        case Failed => return -1, frame, dt;
        case Got(ev) =>
          if ev.Syn? {
            if haveFrame {
              dt := Some(((frame.counter - lastCounter) % 65536) as real / 256.0 * 0.02);
            } else {
              haveFrame := true;
            }
            lastCounter := frame.counter;
            return 1, frame, dt;
          }
          frame := Collect(frame, ev);
          axes := frame.axes;
      }
      rv := 0;
    }
  }

  // ------------------------------------------------------------------
  // Frames by what they carry
  // ------------------------------------------------------------------

  function KeysIn(evs: seq<InputEvent>): seq<(int, int)> {
    if evs == [] then [] else (if evs[0].Key? then [(evs[0].code, evs[0].value)] else []) + KeysIn(evs[1..])
  }

  function WheelIn(evs: seq<InputEvent>): int {
    if evs == [] then 0 else (if evs[0].Wheel? then evs[0].ticks else 0) + WheelIn(evs[1..])
  }

  function HWheelIn(evs: seq<InputEvent>): int {
    if evs == [] then 0 else (if evs[0].HWheel? then evs[0].ticks else 0) + HWheelIn(evs[1..])
  }

  /** The first 16 keys. */
  function FirstKeys(keys: seq<(int, int)>): seq<(int, int)> { if |keys| <= 16 then keys else keys[..16] }

  function KeyOf(ev: InputEvent): seq<(int, int)> { if ev.Key? then [(ev.code, ev.value)] else [] }

  lemma FirstKeysTwice(a: seq<(int, int)>, b: seq<(int, int)>)
    ensures FirstKeys(FirstKeys(a) + b) == FirstKeys(a + b)
  {
  }

  lemma OneCollected(c: Collected, ev: InputEvent)
    requires |c.keys| <= 16
    ensures var d := Collect(c, ev);
            && |d.keys| <= 16 && d.keys == FirstKeys(c.keys + KeyOf(ev))
            && d.wheel == c.wheel + (if ev.Wheel? then ev.ticks else 0)
            && d.hwheel == c.hwheel + (if ev.HWheel? then ev.ticks else 0)
  {
    if !ev.Key? {
      assert c.keys + KeyOf(ev) == c.keys;
    }
  }

  /** A frame holds the first 16 key events in order, and the sums of the wheel events. */
  lemma {:induction false} FrameSums(c: Collected, evs: seq<InputEvent>)
    requires |c.keys| <= 16
    ensures var f := CollectAll(c, evs);
            f.keys == FirstKeys(c.keys + KeysIn(evs)) && f.wheel == c.wheel + WheelIn(evs)
            && f.hwheel == c.hwheel + HWheelIn(evs)
    decreases |evs|
  {
    if evs == [] {
      assert c.keys + [] == c.keys;
    } else {
      var d, more := Collect(c, evs[0]), KeysIn(evs[1..]);
      OneCollected(c, evs[0]);
      FrameSums(d, evs[1..]);
      FirstKeysTwice(c.keys + KeyOf(evs[0]), more);
      Assoc(c.keys, KeyOf(evs[0]), more);
      hide Collect, FirstKeys;
    }
  }

  /** The last event of an axis, and the last counter, are what the frame is left with. */
  lemma {:induction false} FrameKeeps(c: Collected, evs: seq<InputEvent>, last: InputEvent, more: seq<InputEvent>)
    ensures last.Serial? && (forall i :: 0 <= i < |more| ==> !more[i].Serial?) ==>
              CollectAll(c, evs + [last] + more).counter == last.counter
    ensures last.Axis? && last.axis < |c.axes| &&
            (forall i :: 0 <= i < |more| ==> !(more[i].Axis? && more[i].axis == last.axis)) ==>
              var axes := CollectAll(c, evs + [last] + more).axes;
              |axes| == |c.axes| && axes[last.axis] == last.v
    decreases |evs| + |more|
  {
    var all := evs + [last] + more;
    if evs != [] {
      assert all[1..] == evs[1..] + [last] + more;
      FrameKeeps(Collect(c, evs[0]), evs[1..], last, more);
    } else if more != [] {
      var next := Collect(c, last);
      assert all[1..] == more;
      Untouched(next, more, last);
    } else {
      assert all == [last] && all[1..] == [];
    }
  }

  lemma {:induction false} Untouched(c: Collected, evs: seq<InputEvent>, last: InputEvent)
    ensures last.Serial? && (forall i :: 0 <= i < |evs| ==> !evs[i].Serial?) ==>
              CollectAll(c, evs).counter == c.counter
    ensures |CollectAll(c, evs).axes| == |c.axes|
    ensures last.Axis? && last.axis < |c.axes| &&
            (forall i :: 0 <= i < |evs| ==> !(evs[i].Axis? && evs[i].axis == last.axis)) ==>
              CollectAll(c, evs).axes[last.axis] == c.axes[last.axis]
    decreases |evs|
  {
    if evs != [] {
      Untouched(Collect(c, evs[0]), evs[1..], last);
    }
  }

  /** Counters wrap around at 65536: `n` ticks of 0.02/256 s after `last` the interval is n ticks. */
  lemma IntervalIs(last: nat, n: nat)
    requires last < 65536 && n < 65536
    ensures Interval(true, last, (last + n) % 65536) == Some(n as real * (0.02 / 256.0))
    ensures Interval(false, last, n) == None
  {
    var c := (last + n) % 65536;
    assert c == last + n || c == last + n - 65536;
    assert (c - last) % 65536 == n;
  }

  lemma {:induction false} ReadFrameOf(evs: seq<InputEvent>, rest: seq<Read>, c: Collected, stop: bool)
    requires forall i :: 0 <= i < |evs| ==> !evs[i].Syn?
    ensures ReadFrame(Reads(evs) + [Got(Syn)] + rest, c, stop) == Frame(CollectAll(c, evs), rest)
    decreases |evs|
  {
    var q := Reads(evs) + [Got(Syn)] + rest;
    if evs == [] {
      assert q[1..] == rest;
    } else {
      assert q[1..] == Reads(evs[1..]) + [Got(Syn)] + rest;
      ReadFrameOf(evs[1..], rest, Collect(c, evs[0]), stop);
    }
  }

  /** Reads that bring an event, or nothing. */
  predicate GoesOn(r: Read, stop: bool) {
    match r
    case Interrupted => !stop
    case Short => true
    case Failed => false
    case Got(ev) => !ev.Syn?
  }

  function EventsIn(q: seq<Read>): seq<InputEvent> {
    if q == [] then [] else (if q[0].Got? then [q[0].ev] else []) + EventsIn(q[1..])
  }

  /** Events are collected until a SYN, which completes the frame, a failed read or an interruption that means
      to stop, which are errors, or the end of the stream.  Short reads and other interruptions are nothing. */
  lemma {:induction false} ReadFrameEnds(q: seq<Read>, rest: seq<Read>, c: Collected, stop: bool)
    requires forall i :: 0 <= i < |q| ==> GoesOn(q[i], stop)
    ensures var f := CollectAll(c, EventsIn(q));
            && ReadFrame(q, c, stop) == Eof(f.axes)
            && ReadFrame(q + [Got(Syn)] + rest, c, stop) == Frame(f, rest)
            && ReadFrame(q + [Failed] + rest, c, stop) == Error(f.axes, rest)
            && (stop ==> ReadFrame(q + [Interrupted] + rest, c, stop) == Error(f.axes, rest))
    decreases |q|
  {
    forall x ensures q == [] ==> (q + [x] + rest)[0] == x && (q + [x] + rest)[1..] == rest
             ensures q != [] ==> (q + [x] + rest)[0] == q[0] && (q + [x] + rest)[1..] == q[1..] + [x] + rest
    {
    }
    hide Collect;
    if q != [] {
      ReadFrameEnds(q[1..], rest, if q[0].Got? then Collect(c, q[0].ev) else c, stop);
      assert EventsIn(q)[if q[0].Got? then 1 else 0..] == EventsIn(q[1..]);
    }
  }

  function Reads(evs: seq<InputEvent>): seq<Read> {
    if evs == [] then [] else [Got(evs[0])] + Reads(evs[1..])
  }

  function CollectAll(c: Collected, evs: seq<InputEvent>): Collected
    decreases |evs|
  {
    if evs == [] then c else CollectAll(Collect(c, evs[0]), evs[1..])
  }
}
