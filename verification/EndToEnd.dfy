/**
 From HID reports to virtual keys with raw_only=1: the kernel decoder, the daemon's frame reader and
 its keyboard pipeline composed.
 */
module EndToEnd {
  import opened Wrappers
  import opened Profiles
  import D = Decoder
  import P = Pipeline

  /** A report arrives, or the daemon installs a new map at a frame boundary.  `drop` says whether the
      input core filters out events of the reserved keycode 0. */
  datatype Input = Report(d: D.Report, drop: bool) | Reconfigure(map_: seq<Entry>)

  datatype Chain = Chain(buttons: D.Buttons, held: seq<P.Held>, map_: seq<Entry>, log: seq<P.KeyEvent>)

  const START: Chain := Chain(D.Buttons(0, 0, false), [], [], [])

  function Delivered(evs: seq<D.InputEvent>, drop: bool): seq<D.InputEvent> {
    if evs == [] then []
    else if drop && evs[0].Key? && evs[0].code == 0 then Delivered(evs[1..], drop)
    else [evs[0]] + Delivered(evs[1..], drop)
  }

  function KeyEvents(keys: seq<(int, int)>): seq<P.KeyEvent> {
    if keys == [] then [] else [P.KeyEvent(keys[0].0, keys[0].1)] + KeyEvents(keys[1..])
  }

  /** What the pipeline does with the events one report produced. */
  function Process(c: Chain, evs: seq<D.InputEvent>, axes: seq<int>): Chain {
    match D.ReadFrame(D.Reads(evs), D.Empty(axes), false)
    case Frame(f, _) =>
      var r := P.KeysRun(c.held, c.map_, KeyEvents(f.keys));
      c.(held := r.0, log := c.log + r.1)
    case Eof(_) => c
    case Error(_, _) => c
  }

  function Next(c: Chain, x: Input, cfg: D.Config, axes: seq<int>): Chain {
    match x
    case Report(d, drop) =>
      if !D.Ours(d) then c
      else
        var r := D.HidEvents(c.buttons, d, cfg, D.Motion(false, 0, 0));
        Process(c, Delivered(r.1, drop), axes).(buttons := r.0)
    case Reconfigure(m) => c.(held := [], map_ := m, log := c.log + P.Releases(c.held))
  }

  function Run(xs: seq<Input>, cfg: D.Config, axes: seq<int>): Chain
    decreases |xs|
  {
    if xs == [] then START else Next(Run(xs[..|xs| - 1], cfg, axes), xs[|xs| - 1], cfg, axes)
  }

  // ------------------------------------------------------------------
  // One report
  // ------------------------------------------------------------------

  /** The key events of a report with raw_only set: a release of the last key when the button changed,
      then a press of the new one when it is known. */
  function Presses(b: D.Buttons, btn: int): seq<(int, int)> {
    if btn == b.lastBtn then []
    else
      match NewKey(btn)
      case None => [(b.lastKey, 0)]
      case Some(k) => [(b.lastKey, 0), (k, 1)]
  }

  function Kept(keys: seq<(int, int)>, drop: bool): (r: seq<(int, int)>)
    ensures |r| <= |keys|
  {
    if keys == [] then []
    else if drop && keys[0].0 == 0 then Kept(keys[1..], drop)
    else [keys[0]] + Kept(keys[1..], drop)
  }

  function AsEvents(keys: seq<(int, int)>): seq<D.InputEvent> {
    if keys == [] then [] else [D.Key(keys[0].0, keys[0].1)] + AsEvents(keys[1..])
  }

  lemma {:induction false} DeliveredKeys(keys: seq<(int, int)>, tail: seq<D.InputEvent>, drop: bool)
    requires forall i :: 0 <= i < |tail| ==> !tail[i].Key?
    ensures Delivered(AsEvents(keys) + tail, drop) == AsEvents(Kept(keys, drop)) + tail
    decreases |keys| + |tail|
  {
    var evs := AsEvents(keys) + tail;
    if keys != [] {
      assert evs[1..] == AsEvents(keys[1..]) + tail;
      DeliveredKeys(keys[1..], tail, drop);
    } else if tail != [] {
      assert evs == tail && evs[1..] == AsEvents([]) + tail[1..];
      DeliveredKeys([], tail[1..], drop);
    }
  }

  lemma {:induction false} ReadsAppend(a: seq<D.InputEvent>, b: seq<D.InputEvent>)
    ensures D.Reads(a + b) == D.Reads(a) + D.Reads(b)
  {
    if a == [] {
      assert a + b == b;
    } else {
      assert (a + b)[1..] == a[1..] + b;
      ReadsAppend(a[1..], b);
    }
  }

  lemma {:induction false} CollectedKeys(c: D.Collected, keys: seq<(int, int)>, tail: seq<D.InputEvent>)
    requires forall i :: 0 <= i < |tail| ==> !tail[i].Key?
    requires |c.keys| + |keys| <= D.FRAME_KEYS
    ensures D.CollectAll(c, AsEvents(keys) + tail).keys == c.keys + keys
    decreases |keys| + |tail|
  {
    var evs := AsEvents(keys) + tail;
    if keys != [] {
      assert evs[1..] == AsEvents(keys[1..]) + tail;
      CollectedKeys(D.Collect(c, evs[0]), keys[1..], tail);
      assert c.keys + keys == c.keys + [keys[0]] + keys[1..];
    } else if tail != [] {
      assert evs == tail && evs[1..] == AsEvents([]) + tail[1..];
      CollectedKeys(D.Collect(c, evs[0]), [], tail[1..]);
    } else {
      assert evs == [];
    }
  }

  /** A frame made of key events and at most a wheel event hands its key events to the pipeline. */
  lemma FrameOfKeys(keys: seq<(int, int)>, wheel: seq<D.InputEvent>, axes: seq<int>)
    requires |keys| <= 2 && forall i :: 0 <= i < |wheel| ==> wheel[i].Wheel?
    ensures var o := D.ReadFrame(D.Reads(AsEvents(keys) + wheel + [D.Syn]), D.Empty(axes), false);
            o.Frame? && o.c.keys == keys
  {
    var body := AsEvents(keys) + wheel;
    NoSyn(keys, wheel);
    ReadsAppend(body, [D.Syn]);
    ReadsOne(D.Syn);
    D.ReadFrameOf(body, [], D.Empty(axes), false);
    assert D.Reads(body) + [D.Got(D.Syn)] + [] == D.Reads(body + [D.Syn]);
    CollectedKeys(D.Empty(axes), keys, wheel);
  }

  lemma ReadsOne(e: D.InputEvent)
    ensures D.Reads([e]) == [D.Got(e)]
  {
    assert [e][1..] == [];
  }

  lemma ProcessKeys(c: Chain, keys: seq<(int, int)>, wheel: seq<D.InputEvent>, axes: seq<int>)
    requires |keys| <= 2 && forall i :: 0 <= i < |wheel| ==> wheel[i].Wheel?
    ensures var r := P.KeysRun(c.held, c.map_, KeyEvents(keys));
            Process(c, AsEvents(keys) + wheel + [D.Syn], axes) == c.(held := r.0, log := c.log + r.1)
  {
    FrameOfKeys(keys, wheel, axes);
  }

  lemma {:induction false} NoSyn(keys: seq<(int, int)>, wheel: seq<D.InputEvent>)
    requires forall i :: 0 <= i < |wheel| ==> wheel[i].Wheel?
    ensures forall i :: 0 <= i < |AsEvents(keys) + wheel| ==> !(AsEvents(keys) + wheel)[i].Syn?
  {
    if keys != [] {
      NoSyn(keys[1..], wheel);
      assert AsEvents(keys) + wheel == [D.Key(keys[0].0, keys[0].1)] + (AsEvents(keys[1..]) + wheel);
    }
  }

  lemma HidEventsRaw(b: D.Buttons, d: D.Report, cfg: D.Config)
    requires D.Ours(d) && cfg.rawOnly
    ensures var keys, wheel := Presses(b, D.Button(d)), D.WheelEvents(D.Ticks(d), true);
            D.HidEvents(b, d, cfg, D.Motion(false, 0, 0)).1 ==
            AsEvents(keys) + wheel + if keys == [] && wheel == [] then [] else [D.Syn]
  {
    var keys := Presses(b, D.Button(d));
    if |keys| == 2 {
      assert keys == [keys[0], keys[1]] && keys[1..] == [keys[1]] && keys[1..][1..] == [];
      assert AsEvents(keys[1..]) == [D.Key(keys[1].0, keys[1].1)];
    } else if |keys| == 1 {
      assert keys[1..] == [];
    }
  }

  /** A report changes the pipeline exactly as its (kept) key events do. */
  lemma NextReport(c: Chain, d: D.Report, drop: bool, cfg: D.Config, axes: seq<int>)
    requires D.Ours(d) && cfg.rawOnly
    ensures var keys := Kept(Presses(c.buttons, D.Button(d)), drop);
            var r := P.KeysRun(c.held, c.map_, KeyEvents(keys));
            Next(c, Report(d, drop), cfg, axes) ==
            c.(held := r.0, log := c.log + r.1, buttons := D.ButtonEvents(c.buttons, D.Button(d), true).0)
  {
    var keys, wheel := Presses(c.buttons, D.Button(d)), D.WheelEvents(D.Ticks(d), true);
    HidEventsRaw(c.buttons, d, cfg);
    if keys == [] && wheel == [] {
      assert AsEvents(keys) + wheel + [] == [];
      assert D.Reads([]) == [];
    } else {
      DeliveredKeys(keys, wheel + [D.Syn], drop);
      assert AsEvents(keys) + wheel + [D.Syn] == AsEvents(keys) + (wheel + [D.Syn]);
      assert AsEvents(Kept(keys, drop)) + wheel + [D.Syn] == AsEvents(Kept(keys, drop)) + (wheel + [D.Syn]);
      ProcessKeys(c, Kept(keys, drop), wheel, axes);
    }
  }

  /** A report of another kind changes nothing.  A new button map acts as it does on the pipeline alone. */
  lemma OtherInputs(c: Chain, d: D.Report, drop: bool, m: seq<Entry>, cfg: D.Config, axes: seq<int>)
    ensures !(|d| == 20 && d[0] == 0xFD) ==> Next(c, Report(d, drop), cfg, axes) == c
    ensures var n, p := Next(c, Reconfigure(m), cfg, axes), P.Next(P.State(c.held, c.map_, c.log), P.Configure(m));
            P.State(n.held, n.map_, n.log) == p && n.buttons == c.buttons
  {
  }

  // ------------------------------------------------------------------
  // Every run
  // ------------------------------------------------------------------

  /** The pipeline holds nothing, or the decoder's current key; only its virtual code may be down. */
  ghost predicate Inv(c: Chain) {
    && (c.held == [] || (|c.held| == 1 && c.held[0].phys == c.buttons.lastKey))
    && P.Down(c.log) <= P.Virts(c.held)
  }

  lemma {:induction false} KeysRunConcat(h: seq<P.Held>, m: seq<Entry>, a: seq<P.KeyEvent>, b: seq<P.KeyEvent>)
    ensures var r := P.KeysRun(h, m, a);
            var q := P.KeysRun(r.0, m, b);
            P.KeysRun(h, m, a + b) == (q.0, r.1 + q.1)
    decreases |b|
  {
    if b == [] {
      assert a + b == a;
      var r := P.KeysRun(h, m, a);
      assert r.1 + [] == r.1;
    } else {
      var init, e := b[..|b| - 1], b[|b| - 1];
      assert (a + b)[..|a + b| - 1] == a + init && (a + b)[|a + b| - 1] == e;
      KeysRunConcat(h, m, a, init);
      var r := P.KeysRun(h, m, a);
      var q := P.KeysRun(r.0, m, init);
      var s := P.KeyStep(q.0, m, e.code, e.value);
      assert P.KeysRun(r.0, m, b) == (s.held, q.1 + [s.out]);
      assert r.1 + (q.1 + [s.out]) == r.1 + q.1 + [s.out];
    }
  }

  lemma KeysRunOne(h: seq<P.Held>, m: seq<Entry>, e: P.KeyEvent)
    ensures var s := P.KeyStep(h, m, e.code, e.value); P.KeysRun(h, m, [e]) == (s.held, [s.out])
  {
    var ks := [e];
    assert ks[..|ks| - 1] == [];
    var s := P.KeyStep(h, m, e.code, e.value);
    assert [] + [s.out] == [s.out];
  }

  /** The release a report starts with; none when the input core filtered it out. */
  function Ups(lastKey: int, drop: bool): seq<P.KeyEvent> {
    if drop && lastKey == 0 then [] else [P.KeyEvent(lastKey, 0)]
  }

  function Downs(o: Option<int>): seq<P.KeyEvent> {
    match o case None => [] case Some(k) => [P.KeyEvent(k, 1)]
  }

  /** Releasing the decoder's last key empties the pipeline. */
  lemma ReleaseLast(c: Chain, drop: bool)
    requires Inv(c) && Idle(c)
    ensures var r := P.KeysRun(c.held, c.map_, Ups(c.buttons.lastKey, drop));
            r.0 == [] && P.Down(c.log + r.1) == {}
  {
    if drop && c.buttons.lastKey == 0 {
      assert c.log + [] == c.log;
    } else {
      KeysRunOne(c.held, c.map_, P.KeyEvent(c.buttons.lastKey, 0));
      P.DownAppend(c.log, P.KeyStep(c.held, c.map_, c.buttons.lastKey, 0).out);
      if c.held != [] {
        P.VirtsSplit(c.held);
        assert c.held[..0] == [];
      }
    }
  }

  /** In raw mode the decoder reports keycode 0 only when it has no key, and then nothing is held. */
  ghost predicate Idle(c: Chain) {
    c.buttons.lastKey == 0 ==> c.held == []
  }

  lemma PressNew(m: seq<Entry>, log: seq<P.KeyEvent>, o: Option<int>)
    requires P.Down(log) == {}
    ensures var r := P.KeysRun([], m, Downs(o));
            && r.0 == (if o.Some? then [P.Held(o.value, Lookup(m, o.value))] else [])
            && P.Down(log + r.1) <= P.Virts(r.0)
  {
    if o.Some? {
      KeysRunOne([], m, P.KeyEvent(o.value, 1));
      P.DownAppend(log, P.KeyEvent(Lookup(m, o.value), 1));
      P.VirtsSplit([P.Held(o.value, Lookup(m, o.value))]);
    } else {
      assert log + [] == log;
    }
  }

  /** The key the new button stands for. */
  function NewKey(btn: int): Option<int> {
    if btn == 0 then None else D.KeycodeOf(D.BTN_MAP, btn)
  }

  lemma NoKeys(c: Chain, btn: int, drop: bool)
    requires btn == c.buttons.lastBtn
    ensures P.KeysRun(c.held, c.map_, KeyEvents(Kept(Presses(c.buttons, btn), drop))) == (c.held, [])
    ensures c.log + [] == c.log
  {
  }

  lemma ReportInv(c: Chain, d: D.Report, drop: bool, cfg: D.Config, axes: seq<int>)
    requires Inv(c) && Idle(c) && D.Ours(d) && cfg.rawOnly
    ensures var c' := Next(c, Report(d, drop), cfg, axes); Inv(c') && Idle(c')
  {
    hide P.KeysRun, P.KeyStep, D.KeycodeOf, Kept, Presses, Next, P.Down, P.Virts;
    var btn := D.Button(d);
    NextReport(c, d, drop, cfg, axes);
    if btn == c.buttons.lastBtn {
      NoKeys(c, btn, drop);
    } else {
      var ups, downs := Ups(c.buttons.lastKey, drop), Downs(NewKey(btn));
      KeptPresses(c.buttons, btn, drop);
      KeysRunConcat(c.held, c.map_, ups, downs);
      ReleaseLast(c, drop);
      var r := P.KeysRun(c.held, c.map_, ups);
      PressNew(c.map_, c.log + r.1, NewKey(btn));
      var q := P.KeysRun([], c.map_, downs);
      assert c.log + (r.1 + q.1) == c.log + r.1 + q.1;
      KeycodesNonzero(btn);
    }
  }

  lemma KeycodesNonzero(btn: int)
    ensures var o := NewKey(btn); o.Some? ==> o.value != 0
  {
    D.KeycodesNonzero();
    KeycodesNonzeroIn(D.BTN_MAP, btn);
  }

  lemma {:induction false} KeycodesNonzeroIn(table: seq<(int, int)>, btn: int)
    requires forall i :: 0 <= i < |table| ==> table[i].1 != 0
    ensures var o := D.KeycodeOf(table, btn); o.Some? ==> o.value != 0
  {
    if table != [] {
      KeycodesNonzeroIn(table[1..], btn);
    }
  }

  lemma KeptPresses(b: D.Buttons, btn: int, drop: bool)
    requires btn != b.lastBtn
    ensures KeyEvents(Kept(Presses(b, btn), drop)) == Ups(b.lastKey, drop) + Downs(NewKey(btn))
  {
    KeycodesNonzero(btn);
    var o := NewKey(btn);
    var tail := if o.Some? then [(o.value, 1)] else [];
    assert Presses(b, btn) == [(b.lastKey, 0)] + tail;
    assert Presses(b, btn)[1..] == tail;
    if o.Some? {
      assert tail[1..] == [];
      assert Kept(tail, drop) == tail;
      assert KeyEvents(tail) == Downs(o);
    }
    if !(drop && b.lastKey == 0) {
      assert ([(b.lastKey, 0)] + tail)[1..] == tail;
    }
  }

  lemma {:induction false} RunInv(xs: seq<Input>, cfg: D.Config, axes: seq<int>)
    requires cfg.rawOnly
    ensures Inv(Run(xs, cfg, axes)) && Idle(Run(xs, cfg, axes))
    ensures var b := Run(xs, cfg, axes).buttons; b.lastBtn == 0 ==> b.lastKey == 0
    decreases |xs|
  {
    if xs != [] {
      var init, x := xs[..|xs| - 1], xs[|xs| - 1];
      var c := Run(init, cfg, axes);
      RunInv(init, cfg, axes);
      match x
      case Report(d, drop) =>
        if D.Ours(d) {
          ReportInv(c, d, drop, cfg, axes);
          NextReport(c, d, drop, cfg, axes);
        }
      case Reconfigure(m) =>
        P.ReleasesEmptyDown(c.held, c.log);
    }
  }

  lemma OneDown(c: Chain)
    requires Inv(c)
    ensures |P.Down(c.log)| <= 1
  {
    if c.held == [] {
      assert P.Down(c.log) == {};
    } else {
      P.VirtsSplit(c.held);
      assert c.held[..0] == [];
      assert P.Virts(c.held) == {c.held[0].virt};
      if P.Down(c.log) != {} {
        assert P.Down(c.log) == {c.held[0].virt};
      }
    }
  }

  /** At no moment in the log is more than one key down. */
  ghost predicate NeverTwo(log: seq<P.KeyEvent>) {
    forall k :: 0 <= k <= |log| ==> |P.Down(log[..k])| <= 1
  }

  /** One more event, with at most one key down after it. */
  lemma NeverTwoMore(log: seq<P.KeyEvent>, e: P.KeyEvent)
    requires NeverTwo(log) && |P.Down(log + [e])| <= 1
    ensures NeverTwo(log + [e])
  {
    hide P.Down;
    var more := log + [e];
    forall k | 0 <= k <= |more| ensures |P.Down(more[..k])| <= 1 {
      if k <= |log| {
        assert more[..k] == log[..k];
      } else {
        assert more[..k] == more;
      }
    }
  }

  /** A report releases before it presses. */
  lemma ReportNeverTwo(c: Chain, d: D.Report, drop: bool, cfg: D.Config, axes: seq<int>)
    requires Inv(c) && Idle(c) && D.Ours(d) && cfg.rawOnly && NeverTwo(c.log)
    ensures NeverTwo(Next(c, Report(d, drop), cfg, axes).log)
  {
    hide P.KeysRun, P.KeyStep, D.KeycodeOf, Kept, Presses, Next, P.Down, NeverTwo;
    var btn := D.Button(d);
    var c' := Next(c, Report(d, drop), cfg, axes);
    NextReport(c, d, drop, cfg, axes);
    if btn == c.buttons.lastBtn {
      NoKeys(c, btn, drop);
    } else {
      var ups, downs := Ups(c.buttons.lastKey, drop), Downs(NewKey(btn));
      KeptPresses(c.buttons, btn, drop);
      KeysRunConcat(c.held, c.map_, ups, downs);
      ReleaseLast(c, drop);
      var r := P.KeysRun(c.held, c.map_, ups);
      var q := P.KeysRun([], c.map_, downs);
      assert c.log + (r.1 + q.1) == c.log + r.1 + q.1;
      KeysRunShort(c.held, c.map_, ups);
      KeysRunShort([], c.map_, downs);
      assert |P.Down(c.log + r.1)| == 0;
      ShortNeverTwo(c.log, r.1);
      ReportInv(c, d, drop, cfg, axes);
      OneDown(c');
      ShortNeverTwo(c.log + r.1, q.1);
    }
  }

  lemma KeysRunShort(h: seq<P.Held>, m: seq<Entry>, ks: seq<P.KeyEvent>)
    requires |ks| <= 1
    ensures |P.KeysRun(h, m, ks).1| == |ks|
  {
    if ks != [] {
      assert ks == [ks[0]];
      KeysRunOne(h, m, ks[0]);
    }
  }

  lemma ShortNeverTwo(log: seq<P.KeyEvent>, es: seq<P.KeyEvent>)
    requires |es| <= 1 && NeverTwo(log) && |P.Down(log + es)| <= 1
    ensures NeverTwo(log + es)
  {
    hide P.Down, NeverTwo;
    if es == [] {
      assert log + es == log;
    } else {
      assert es == [es[0]];
      NeverTwoMore(log, es[0]);
    }
  }

  /** For every stream of reports, every map and every reconfiguration between frames, at most one
      virtual key is down after every single event that is sent. */
  lemma {:induction false} AtMostOneDown(xs: seq<Input>, cfg: D.Config, axes: seq<int>)
    requires cfg.rawOnly
    ensures NeverTwo(Run(xs, cfg, axes).log)
    decreases |xs|
  {
    if xs != [] {
      var init, x := xs[..|xs| - 1], xs[|xs| - 1];
      var c := Run(init, cfg, axes);
      AtMostOneDown(init, cfg, axes);
      RunInv(init, cfg, axes);
      match x
      case Report(d, drop) =>
        if D.Ours(d) {
          ReportNeverTwo(c, d, drop, cfg, axes);
        }
      case Reconfigure(m) =>
        P.ReleasesEmptyDown(c.held, c.log);
        if c.held == [] {
          assert c.log + P.Releases(c.held) == c.log;
        } else {
          assert c.held[..0] == [] && P.Releases(c.held) == [P.KeyEvent(c.held[0].virt, 0)];
          P.VirtsSplit(c.held);
          NoneLeft(c);
          ShortNeverTwo(c.log, P.Releases(c.held));
        }
    }
  }

  lemma NoneLeft(c: Chain)
    requires Inv(c)
    ensures P.Down(c.log + P.Releases(c.held)) == {}
  {
    P.ReleasesEmptyDown(c.held, c.log);
  }

  /** None is down once a report with button code 0 has been processed. */
  lemma NoneDownAfterZero(xs: seq<Input>, d: D.Report, drop: bool, cfg: D.Config, axes: seq<int>)
    requires cfg.rawOnly && D.Ours(d) && D.Button(d) == 0
    ensures P.Down(Run(xs + [Report(d, drop)], cfg, axes).log) == {}
  {
    var ys := xs + [Report(d, drop)];
    assert ys[..|ys| - 1] == xs;
    RunInv(ys, cfg, axes);
    RunInv(xs, cfg, axes);
    NextReport(Run(xs, cfg, axes), d, drop, cfg, axes);
    assert Run(ys, cfg, axes).buttons.lastBtn == 0;
  }
}
