/**
 The daemon's keyboard pipeline (tools/src/daemon_pipeline.c): the table of held keys with live
 remapping, and the wheel accumulator.
 */
module Pipeline {
  import opened Wrappers
  import opened Reals
  import opened Profiles
  import A = Airmouse

  datatype Held = Held(phys: int, virt: int)
  datatype KeyEvent = KeyEvent(code: int, value: int)

  const HELD_MAX: nat := 32

  // ------------------------------------------------------------------
  // One key event
  // ------------------------------------------------------------------

  /** The last position of phys in the table, or -1. */
  function FindHeld(h: seq<Held>, phys: int): (i: int)
    ensures -1 <= i < |h|
    ensures i >= 0 ==> h[i].phys == phys
    ensures forall k :: i < k < |h| ==> h[k].phys != phys
    decreases |h|
  {
    if h == [] then -1
    else if h[|h| - 1].phys == phys then |h| - 1
    else FindHeld(h[..|h| - 1], phys)
  }

  /** The last entry takes the place of entry i. */
  function SwapRemove(h: seq<Held>, i: nat): seq<Held>
    requires i < |h|
  {
    h[i := h[|h| - 1]][..|h| - 1]
  }

  datatype Step = Step(held: seq<Held>, out: KeyEvent)

  function KeyStep(h: seq<Held>, map_: seq<Entry>, phys: int, val: int): Step {
    var i := FindHeld(h, phys);
    if i >= 0 then
      Step(if val == 0 then SwapRemove(h, i) else h, KeyEvent(h[i].virt, val))
    else
      var to := Lookup(map_, phys);
      Step(if val != 0 && |h| < HELD_MAX then h + [Held(phys, to)] else h, KeyEvent(to, val))
  }

  /** What one key event does.  A key that is held keeps the code of its entry, the last one for it, and its
      release takes that entry out.  Any other key is mapped, and unless it is a release or 32 keys are held
      it is held from now on. */
  lemma KeyStepMeans(h: seq<Held>, map_: seq<Entry>, phys: int, val: int)
    ensures var s := KeyStep(h, map_, phys, val);
            && s.out.value == val
            && ((exists i :: 0 <= i < |h| && h[i].phys == phys) ==>
                  exists i :: 0 <= i < |h| && h[i].phys == phys && (forall k :: i < k < |h| ==> h[k].phys != phys) &&
                    s.out.code == h[i].virt &&
                    if val == 0 then multiset(s.held) == multiset(h) - multiset{h[i]} else s.held == h)
            && ((forall i :: 0 <= i < |h| ==> h[i].phys != phys) ==>
                  && s.out.code == Lookup(map_, phys)
                  && s.held == if val != 0 && |h| < 32 then h + [Held(phys, s.out.code)] else h)
  {
    var i := FindHeld(h, phys);
    if i >= 0 && val == 0 {
      SwapRemoved(h, i);
    }
  }

  lemma SwapRemoved(h: seq<Held>, i: nat)
    requires i < |h|
    ensures multiset(SwapRemove(h, i)) == multiset(h) - multiset{h[i]}
  {
    var last := |h| - 1;
    var init := h[..last];
    assert h == init + [h[last]];
    if i == last {
      assert SwapRemove(h, i) == init;
    } else {
      assert SwapRemove(h, i) == init[i := h[last]];
    }
  }

  /** The releases sent before a new map takes over, last entry first. */
  function Releases(h: seq<Held>): seq<KeyEvent>
    decreases |h|
  {
    if h == [] then [] else [KeyEvent(h[|h| - 1].virt, 0)] + Releases(h[..|h| - 1])
  }

  // ------------------------------------------------------------------
  // Which virtual keys are down
  // ------------------------------------------------------------------

  /** The codes whose latest event is a press or a repeat. */
  function Down(log: seq<KeyEvent>): set<int> {
    if log == [] then {}
    else
      var e := log[|log| - 1];
      if e.value == 0 then Down(log[..|log| - 1]) - {e.code} else Down(log[..|log| - 1]) + {e.code}
  }

  lemma DownAppend(log: seq<KeyEvent>, e: KeyEvent)
    ensures Down(log + [e]) == if e.value == 0 then Down(log) - {e.code} else Down(log) + {e.code}
  {
    assert (log + [e])[..|log|] == log;
  }

  function Virts(h: seq<Held>): set<int> {
    set i | 0 <= i < |h| :: h[i].virt
  }

  function Tracked(h: seq<Held>): set<int> {
    set i | 0 <= i < |h| :: h[i].phys
  }

  ghost predicate Distinct(h: seq<Held>) {
    forall i, j :: 0 <= i < j < |h| ==> h[i].phys != h[j].phys
  }

  /** The table is consistent and every virtual key that is down belongs to a tracked one. */
  ghost predicate Covered(h: seq<Held>, log: seq<KeyEvent>) {
    |h| <= HELD_MAX && Distinct(h) && Down(log) <= Virts(h)
  }

  /** A fresh press that the full table cannot track, of a virtual key nobody else holds. */
  predicate Overflows(h: seq<Held>, map_: seq<Entry>, phys: int, val: int) {
    |h| == HELD_MAX && val != 0 && FindHeld(h, phys) < 0 && Lookup(map_, phys) !in Virts(h)
  }

  lemma SwapRemoveKeeps(h: seq<Held>, i: nat, k: nat)
    requires i < |h| && k < |h| && k != i
    ensures h[k] in SwapRemove(h, i)
  {
    var r := SwapRemove(h, i);
    assert r[if k == |h| - 1 then i else k] == h[k];
  }

  lemma SwapRemoveDistinct(h: seq<Held>, i: nat)
    requires Distinct(h) && i < |h|
    ensures Distinct(SwapRemove(h, i)) && Tracked(SwapRemove(h, i)) == Tracked(h) - {h[i].phys}
  {
    var r := SwapRemove(h, i);
    forall p | p in Tracked(h) && p != h[i].phys
      ensures p in Tracked(r)
    {
      var k :| 0 <= k < |h| && h[k].phys == p;
      SwapRemoveKeeps(h, i, k);
    }
  }

  lemma ReleaseCovered(h: seq<Held>, log: seq<KeyEvent>, i: nat)
    requires Covered(h, log) && i < |h|
    ensures Covered(SwapRemove(h, i), log + [KeyEvent(h[i].virt, 0)])
  {
    SwapRemoveDistinct(h, i);
    DownAppend(log, KeyEvent(h[i].virt, 0));
    forall v | v in Down(log) && v != h[i].virt
      ensures v in Virts(SwapRemove(h, i))
    {
      var k :| 0 <= k < |h| && h[k].virt == v;
      SwapRemoveKeeps(h, i, k);
    }
  }

  lemma PressCovered(h: seq<Held>, log: seq<KeyEvent>, phys: int, to: int, val: int)
    requires Covered(h, log) && |h| < HELD_MAX && FindHeld(h, phys) < 0 && val != 0
    ensures Covered(h + [Held(phys, to)], log + [KeyEvent(to, val)])
  {
    var h' := h + [Held(phys, to)];
    DownAppend(log, KeyEvent(to, val));
    forall v | v in Virts(h) ensures v in Virts(h') {
      var k :| 0 <= k < |h| && h[k].virt == v;
      assert h'[k].virt == v;
    }
    assert h'[|h|].virt == to;
  }

  /** A key event keeps the invariant exactly when it is not an overflow. */
  lemma KeyStepCovered(h: seq<Held>, log: seq<KeyEvent>, map_: seq<Entry>, phys: int, val: int)
    requires Covered(h, log)
    ensures var s := KeyStep(h, map_, phys, val);
            Covered(s.held, log + [s.out]) <==> !Overflows(h, map_, phys, val)
  {
    var s := KeyStep(h, map_, phys, val);
    var i := FindHeld(h, phys);
    DownAppend(log, s.out);
    if i >= 0 && val == 0 {
      ReleaseCovered(h, log, i);
    } else if i >= 0 {
      assert h[i].virt in Virts(h);
    } else if val != 0 && |h| < HELD_MAX {
      PressCovered(h, log, phys, Lookup(map_, phys), val);
    }
  }

  /** The keys down after the events es, when d was down before. */
  function After(d: set<int>, es: seq<KeyEvent>): set<int>
    decreases |es|
  {
    if es == [] then d
    else After(if es[0].value == 0 then d - {es[0].code} else d + {es[0].code}, es[1..])
  }

  lemma {:induction false} DownConcat(log: seq<KeyEvent>, es: seq<KeyEvent>)
    ensures Down(log + es) == After(Down(log), es)
    decreases |es|
  {
    if es == [] {
      assert log + es == log;
    } else {
      assert log + es == (log + [es[0]]) + es[1..];
      DownAppend(log, es[0]);
      DownConcat(log + [es[0]], es[1..]);
    }
  }

  lemma {:induction false} ReleasesEmpty(h: seq<Held>, d: set<int>)
    ensures After(d, Releases(h)) == d - Virts(h)
    decreases |h|
  {
    if h != [] {
      var v, init := h[|h| - 1].virt, h[..|h| - 1];
      assert Releases(h)[1..] == Releases(init);
      ReleasesEmpty(init, d - {v});
      VirtsSplit(h);
    }
  }

  lemma ReleasesEmptyDown(h: seq<Held>, log: seq<KeyEvent>)
    ensures Down(log + Releases(h)) == Down(log) - Virts(h)
  {
    DownConcat(log, Releases(h));
    ReleasesEmpty(h, Down(log));
  }

  lemma VirtsSplit(h: seq<Held>)
    requires h != []
    ensures Virts(h) == Virts(h[..|h| - 1]) + {h[|h| - 1].virt}
  {
    var init := h[..|h| - 1];
    forall v | v in Virts(h) ensures v in Virts(init) + {h[|h| - 1].virt} {
      var k :| 0 <= k < |h| && h[k].virt == v;
      assert k < |h| - 1 ==> init[k].virt == v;
    }
    forall v | v in Virts(init) ensures v in Virts(h) {
      var k :| 0 <= k < |init| && init[k].virt == v;
      assert h[k].virt == v;
    }
  }

  // ------------------------------------------------------------------
  // Runs
  // ------------------------------------------------------------------

  datatype Input = Key(phys: int, val: int) | Configure(map_: seq<Entry>)

  datatype State = State(held: seq<Held>, map_: seq<Entry>, log: seq<KeyEvent>)

  function Next(s: State, x: Input): State {
    match x
    case Key(phys, val) =>
      var t := KeyStep(s.held, s.map_, phys, val);
      s.(held := t.held, log := s.log + [t.out])
    case Configure(m) => State([], m, s.log + Releases(s.held))
  }

  function Run(s: State, xs: seq<Input>): State
    decreases |xs|
  {
    if xs == [] then s else Next(Run(s, xs[..|xs| - 1]), xs[|xs| - 1])
  }

  predicate Overflow(s: State, x: Input) {
    x.Key? && Overflows(s.held, s.map_, x.phys, x.val)
  }

  /** No event of the run overflows the table of held keys. */
  ghost predicate Fits(s: State, xs: seq<Input>) {
    forall i :: 0 <= i < |xs| ==> !Overflow(Run(s, xs[..i]), xs[i])
  }

  ghost predicate Inv(s: State) { Covered(s.held, s.log) }

  lemma NextInv(s: State, x: Input)
    requires Inv(s)
    ensures Inv(Next(s, x)) <==> !Overflow(s, x)
    ensures x.Configure? ==> Down(Next(s, x).log) == {}
  {
    match x
    case Key(phys, val) => KeyStepCovered(s.held, s.log, s.map_, phys, val);
    case Configure(_) => ReleasesEmptyDown(s.held, s.log);
  }

  ghost predicate InvUpTo(s: State, xs: seq<Input>, n: nat)
    requires n <= |xs|
  {
    forall i :: 0 <= i <= n ==> Inv(Run(s, xs[..i]))
  }

  ghost predicate FitsUpTo(s: State, xs: seq<Input>, n: nat)
    requires n <= |xs|
  {
    forall i :: 0 <= i < n ==> !Overflow(Run(s, xs[..i]), xs[i])
  }

  lemma {:induction false} InvWhileFits(s: State, xs: seq<Input>, n: nat)
    requires Inv(s) && n <= |xs|
    ensures InvUpTo(s, xs, n) <==> FitsUpTo(s, xs, n)
  {
    if n == 0 {
      assert xs[..0] == [];
    } else {
      hide Inv, Run, Next, Overflow, InvUpTo, FitsUpTo;
      InvWhileFits(s, xs, n - 1);
      UpToMore(s, xs, n);
      RunMore(s, xs, n);
      if Inv(Run(s, xs[..n - 1])) {
        NextInv(Run(s, xs[..n - 1]), xs[n - 1]);
      }
    }
  }

  lemma RunMore(s: State, xs: seq<Input>, n: nat)
    requires 0 < n <= |xs|
    ensures Run(s, xs[..n]) == Next(Run(s, xs[..n - 1]), xs[n - 1])
  {
    assert xs[..n][..n - 1] == xs[..n - 1];
    hide Next;
  }

  lemma UpToMore(s: State, xs: seq<Input>, n: nat)
    requires 0 < n <= |xs|
    ensures InvUpTo(s, xs, n) <==> InvUpTo(s, xs, n - 1) && Inv(Run(s, xs[..n]))
    ensures InvUpTo(s, xs, n - 1) ==> Inv(Run(s, xs[..n - 1]))
    ensures FitsUpTo(s, xs, n) <==> FitsUpTo(s, xs, n - 1) && !Overflow(Run(s, xs[..n - 1]), xs[n - 1])
  {
    hide Inv, Run, Overflow;
  }

  /** Whatever keys are pressed, repeated and released and however often the map changes: every virtual
      key that is down is held by a tracked physical key, at every moment of the run, exactly when the
      table fits. */
  lemma RunInvIff(s: State, xs: seq<Input>)
    requires Inv(s)
    ensures (forall i :: 0 <= i <= |xs| ==> Inv(Run(s, xs[..i]))) <==> Fits(s, xs)
  {
    InvWhileFits(s, xs, |xs|);
    hide Inv, Run, Overflow;
  }

  /** At the end of a run that fits. */
  lemma RunInv(s: State, xs: seq<Input>)
    requires Inv(s) && Fits(s, xs)
    ensures Inv(Run(s, xs))
  {
    RunInvIff(s, xs);
    assert xs[..|xs|] == xs;
  }

  /** The physical keys that are down after a run. */
  function PhysDown(xs: seq<Input>): set<int>
    decreases |xs|
  {
    if xs == [] then {}
    else
      var p := PhysDown(xs[..|xs| - 1]);
      match xs[|xs| - 1]
      case Key(phys, val) => if val == 0 then p - {phys} else p + {phys}
      case Configure(_) => p
  }

  lemma KeyStepTracked(h: seq<Held>, map_: seq<Entry>, phys: int, val: int)
    requires Distinct(h)
    ensures var r := KeyStep(h, map_, phys, val).held;
            Distinct(r) && Tracked(r) <= if val == 0 then Tracked(h) - {phys} else Tracked(h) + {phys}
  {
    var i := FindHeld(h, phys);
    var r := KeyStep(h, map_, phys, val).held;
    if i >= 0 && val == 0 {
      SwapRemoveDistinct(h, i);
    }
    if i < 0 && val == 0 {
      assert phys !in Tracked(h);
    }
  }

  lemma {:induction false} RunTracked(map_: seq<Entry>, xs: seq<Input>)
    ensures var s := Run(State([], map_, []), xs); Distinct(s.held) && Tracked(s.held) <= PhysDown(xs)
    decreases |xs|
  {
    if xs != [] {
      var init, x := xs[..|xs| - 1], xs[|xs| - 1];
      RunTracked(map_, init);
      if x.Key? {
        var s := Run(State([], map_, []), init);
        KeyStepTracked(s.held, s.map_, x.phys, x.val);
      }
    }
  }

  /** No key gets stuck: once every physical key is up, so is every virtual one. */
  lemma NoStuckKey(map_: seq<Entry>, xs: seq<Input>)
    requires Fits(State([], map_, []), xs) && PhysDown(xs) == {}
    ensures Down(Run(State([], map_, []), xs).log) == {}
  {
    var s := Run(State([], map_, []), xs);
    RunInv(State([], map_, []), xs);
    RunTracked(map_, xs);
    SomeTracked(s.held);
  }

  lemma {:induction false} TrackedCount(h: seq<Held>)
    requires Distinct(h)
    ensures |Tracked(h)| == |h|
    decreases |h|
  {
    if h != [] {
      var init, last := h[..|h| - 1], h[|h| - 1];
      TrackedCount(init);
      TrackedSplit(h);
      assert last.phys !in Tracked(init);
    }
  }

  lemma TrackedSplit(h: seq<Held>)
    requires h != []
    ensures Tracked(h) == Tracked(h[..|h| - 1]) + {h[|h| - 1].phys}
  {
    var init := h[..|h| - 1];
    forall p | p in Tracked(h) ensures p in Tracked(init) + {h[|h| - 1].phys} {
      var k :| 0 <= k < |h| && h[k].phys == p;
      assert k < |h| - 1 ==> init[k].phys == p;
    }
    forall p | p in Tracked(init) ensures p in Tracked(h) {
      var k :| 0 <= k < |init| && init[k].phys == p;
      assert h[k].phys == p;
    }
  }

  lemma SubsetSize(a: set<int>, b: set<int>)
    requires a <= b
    ensures |a| <= |b|
  {
    assert b == a + (b - a);
    assert |a + (b - a)| == |a| + |b - a|;
  }

  /** At no moment are more than 32 keys physically down. */
  ghost predicate FewDown(xs: seq<Input>) {
    forall i :: 0 <= i <= |xs| ==> |PhysDown(xs[..i])| <= HELD_MAX
  }

  /** Then the table fits. */
  lemma FewDownFits(map_: seq<Entry>, xs: seq<Input>)
    requires FewDown(xs)
    ensures Fits(State([], map_, []), xs)
  {
    var start := State([], map_, []);
    forall i | 0 <= i < |xs| ensures !Overflow(Run(start, xs[..i]), xs[i]) {
      NoOverflow(map_, xs, i);
    }
  }

  lemma NoOverflow(map_: seq<Entry>, xs: seq<Input>, i: nat)
    requires FewDown(xs) && i < |xs|
    ensures !Overflow(Run(State([], map_, []), xs[..i]), xs[i])
  {
    var s, x := Run(State([], map_, []), xs[..i]), xs[i];
    RunTracked(map_, xs[..i]);
    TrackedCount(s.held);
    assert xs[..i + 1][..i] == xs[..i] && xs[..i + 1][i] == x;
    assert |PhysDown(xs[..i + 1])| <= HELD_MAX;
    if x.Key? && x.val != 0 && FindHeld(s.held, x.phys) < 0 {
      assert x.phys !in Tracked(s.held);
      SubsetSize(Tracked(s.held) + {x.phys}, PhysDown(xs[..i + 1]));
    }
  }

  /** With at most 32 keys physically down at a time none gets stuck: once all are up, so are the virtual
      ones. */
  lemma NoKeyStuck(map_: seq<Entry>, xs: seq<Input>)
    requires FewDown(xs) && PhysDown(xs) == {}
    ensures Down(Run(State([], map_, []), xs).log) == {}
  {
    FewDownFits(map_, xs);
    NoStuckKey(map_, xs);
  }

  lemma SomeTracked(h: seq<Held>)
    ensures h != [] ==> Tracked(h) != {}
  {
    if h != [] {
      assert h[0].phys in Tracked(h);
    }
  }

  // ------------------------------------------------------------------
  // A press keeps its code until it is released
  // ------------------------------------------------------------------

  lemma KeyStepPins(h: seq<Held>, map_: seq<Entry>, phys: int, val: int, p: int, v: int)
    requires Distinct(h) && Held(p, v) in h && (phys != p || val != 0)
    ensures Held(p, v) in KeyStep(h, map_, phys, val).held
    ensures phys == p ==> KeyStep(h, map_, phys, val).out == KeyEvent(v, val)
  {
    var k :| 0 <= k < |h| && h[k] == Held(p, v);
    var i := FindHeld(h, phys);
    if i >= 0 && val == 0 {
      SwapRemoveKeeps(h, i, k);
    }
  }

  /** Between the press of p and its release or the next reconfiguration, every repeat carries the
      code of the press, and so does the release. */
  lemma {:induction false} PinnedUntilReleased(s: State, xs: seq<Input>, p: int, v: int)
    requires Distinct(s.held) && Held(p, v) in s.held
    requires forall x :: x in xs ==> x.Key? && (x.phys != p || x.val != 0)
    ensures var t := Run(s, xs);
            && Distinct(t.held) && Held(p, v) in t.held
            && (forall val :: KeyStep(t.held, t.map_, p, val).out == KeyEvent(v, val))
            && Next(t, Key(p, 0)).log == t.log + [KeyEvent(v, 0)]
            && forall m :: KeyEvent(v, 0) in Next(t, Configure(m)).log[|t.log|..]
    decreases |xs|
  {
    var t := Run(s, xs);
    if xs != [] {
      var init, x := xs[..|xs| - 1], xs[|xs| - 1];
      PinnedUntilReleased(s, init, p, v);
      assert x in xs;
      var u := Run(s, init);
      KeyStepTracked(u.held, u.map_, x.phys, x.val);
      KeyStepPins(u.held, u.map_, x.phys, x.val, p, v);
    }
    HeldReleased(t, p, v);
    hide KeyStep, Run, Next, Releases;
  }

  lemma HeldReleased(t: State, p: int, v: int)
    requires Distinct(t.held) && Held(p, v) in t.held
    ensures forall val :: KeyStep(t.held, t.map_, p, val).out == KeyEvent(v, val)
    ensures Next(t, Key(p, 0)).log == t.log + [KeyEvent(v, 0)]
    ensures forall m :: KeyEvent(v, 0) in Next(t, Configure(m)).log[|t.log|..]
  {
    var k :| 0 <= k < |t.held| && t.held[k] == Held(p, v);
    ReleasesMention(t.held, k);
  }

  /** The releases of a table are those of its entries, the last one first. */
  lemma {:induction false} ReleasesAre(h: seq<Held>, k: nat)
    requires k < |h|
    ensures |Releases(h)| == |h| && Releases(h)[k] == KeyEvent(h[|h| - 1 - k].virt, 0)
    decreases |h|
  {
    if |h| > 1 {
      ReleasesAre(h[..|h| - 1], if k > 0 then k - 1 else 0);
    }
  }

  /** A new button map releases what is held, the last key first, and nothing is held then. */
  lemma ConfigureMeans(s: State, m: seq<Entry>, k: nat)
    ensures var n := Next(s, Configure(m));
            && n.held == [] && n.map_ == m && |n.log| == |s.log| + |s.held| && n.log[..|s.log|] == s.log
            && (k < |s.held| ==> n.log[|s.log| + k] == KeyEvent(s.held[|s.held| - 1 - k].virt, 0))
  {
    if s.held != [] {
      ReleasesAre(s.held, if k < |s.held| then k else 0);
    }
  }

  lemma {:induction false} ReleasesMention(h: seq<Held>, k: nat)
    requires k < |h|
    ensures KeyEvent(h[k].virt, 0) in Releases(h)
    decreases |h|
  {
    if k < |h| - 1 {
      ReleasesMention(h[..|h| - 1], k);
    }
  }

  // ------------------------------------------------------------------
  // The limit of 32 keys is real
  // ------------------------------------------------------------------

  function Presses(n: nat): (xs: seq<Input>)
    ensures |xs| == n
  {
    if n == 0 then [] else Presses(n - 1) + [Key(n, 1)]
  }

  lemma PressNew(h: seq<Held>, n: nat)
    requires |h| == n < HELD_MAX && forall i :: 0 <= i < n ==> h[i] == Held(i + 1, i + 1)
    ensures KeyStep(h, [], n + 1, 1).held == h + [Held(n + 1, n + 1)]
  {
  }

  lemma {:induction false} PressesRun(n: nat)
    requires n <= HELD_MAX
    ensures var s := Run(State([], [], []), Presses(n));
            && s.map_ == [] && |s.held| == n && (forall i :: 0 <= i < n ==> s.held[i] == Held(i + 1, i + 1))
  {
    if n > 0 {
      var start, xs := State([], [], []), Presses(n);
      assert xs[..n - 1] == Presses(n - 1) && xs[n - 1] == Key(n, 1) && xs[..n] == xs;
      hide Run, KeyStep, Presses;
      PressesRun(n - 1);
      RunMore(start, xs, n);
      PressNew(Run(start, xs[..n - 1]).held, n - 1);
    }
  }

  lemma ThirtyThreePresses()
    ensures |Presses(33)| == 33
    ensures 33 in Down(Run(State([], [], []), Presses(33)).log)
    ensures forall k :: 0 <= k < |Run(State([], [], []), Presses(33)).held| ==>
              Run(State([], [], []), Presses(33)).held[k].virt != 33
  {
    PressesRun(32);
    var s32 := Run(State([], [], []), Presses(32));
    assert Presses(33)[..32] == Presses(32);
    assert FindHeld(s32.held, 33) < 0;
    assert Run(State([], [], []), Presses(33)) == s32.(log := s32.log + [KeyEvent(33, 1)]);
    DownAppend(s32.log, KeyEvent(33, 1));
  }

  /** With 33 keys down, a remap leaves the 33rd stuck: its press was never recorded, so neither the
      reconfiguration nor the release, which follows the new map, lets it go. */
  lemma ThirtyThirdKeySticks()
    ensures var xs := Presses(33) + [Configure([Entry(33, 50)]), Key(33, 0)];
            33 in Down(Run(State([], [], []), xs).log)
  {
    hide *;
    var s, pressed, remap := State([], [], []), Presses(33), Configure([Entry(33, 50)]);
    ThirtyThreePresses();
    RunAppend(s, pressed, remap);
    RunAppend(s, pressed + [remap], Key(33, 0));
    assert pressed + [remap, Key(33, 0)] == pressed + [remap] + [Key(33, 0)];
    StuckByRemap(Run(s, pressed), 33, 50);
  }

  lemma RunAppend(s: State, xs: seq<Input>, x: Input)
    ensures Run(s, xs + [x]) == Next(Run(s, xs), x)
  {
    hide Next;
    assert (xs + [x])[..|xs|] == xs;
  }

  /** A key that is down without being held by any entry of the table outlives its remapping and its
      release. */
  lemma StuckByRemap(s: State, code: int, to: int)
    requires code in Down(s.log) && to != code
    requires forall k :: 0 <= k < |s.held| ==> s.held[k].virt != code
    ensures code in Down(Next(Next(s, Configure([Entry(code, to)])), Key(code, 0)).log)
  {
    hide Down;
    ReleasesEmptyDown(s.held, s.log);
    var s' := Next(s, Configure([Entry(code, to)]));
    assert Next(s', Key(code, 0)).log == s'.log + [KeyEvent(to, 0)];
    DownAppend(s'.log, KeyEvent(to, 0));
  }

  // ------------------------------------------------------------------
  // The wheel
  // ------------------------------------------------------------------

  datatype Wheel = Wheel(accum: real, clicks: int)

  function WheelStep(accum: real, wheel: int, speed: real): Wheel {
    if wheel == 0 then Wheel(accum, 0)
    else
      var a := accum + Times(wheel as real, speed);
      Wheel(a - Trunc(a) as real, Trunc(a))
  }

  datatype Turn = Turn(wheel: int, speed: real)

  /** The accumulator and the clicks sent so far, each frame with the scroll speed in force. */
  function WheelRun(accum: real, ts: seq<Turn>): Wheel
    decreases |ts|
  {
    if ts == [] then Wheel(accum, 0)
    else
      var w := WheelRun(accum, ts[..|ts| - 1]);
      var s := WheelStep(w.accum, ts[|ts| - 1].wheel, ts[|ts| - 1].speed);
      Wheel(s.accum, w.clicks + s.clicks)
  }

  function Motion(ts: seq<Turn>): real
    decreases |ts|
  {
    if ts == [] then 0.0 else Motion(ts[..|ts| - 1]) + ts[|ts| - 1].wheel as real * ts[|ts| - 1].speed
  }

  lemma WheelSent(accum: real, wheel: int, speed: real)
    ensures var w, all := WheelStep(accum, wheel, speed), accum + Times(wheel as real, speed);
            -1.0 < accum < 1.0 ==>
              TruncatesTo(all, w.clicks) && w.clicks as real + w.accum == all && -1.0 < w.accum < 1.0
  {
    if -1.0 < accum < 1.0 {
      WheelTruncates(accum, wheel, speed);
      TimesIs(wheel, speed);
      hide WheelStep, TruncatesTo;
    }
  }

  lemma MotionStep(ts: seq<Turn>)
    requires ts != []
    ensures Motion(ts) == Motion(ts[..|ts| - 1]) + Times(ts[|ts| - 1].wheel as real, ts[|ts| - 1].speed)
  {
  }

  lemma Split(a: int, b: int)
    ensures (a + b) as real == a as real + b as real
  {
  }

  lemma OneTurn(accum: real, ts: seq<Turn>, w: Wheel)
    requires ts != [] && w == WheelRun(accum, ts[..|ts| - 1]) && -1.0 < w.accum < 1.0
    ensures var v, t := WheelRun(accum, ts), ts[|ts| - 1];
            var s := WheelStep(w.accum, t.wheel, t.speed);
            v == Wheel(s.accum, w.clicks + s.clicks)
  {
    hide WheelStep;
  }

  lemma TurnConserved(accum: real, wheel: int, speed: real)
    requires -1.0 < accum < 1.0
    ensures var s := WheelStep(accum, wheel, speed);
            s.clicks as real + s.accum == accum + Times(wheel as real, speed) && -1.0 < s.accum < 1.0
  {
    WheelTruncates(accum, wheel, speed);
    hide WheelStep, TruncatesTo;
  }

  /** Wheel motion is conserved over every run, profile switches included, and the remainder stays
      below one click. */
  lemma {:induction false} WheelConserved(accum: real, ts: seq<Turn>)
    requires -1.0 < accum < 1.0
    ensures var w := WheelRun(accum, ts);
            w.clicks as real + w.accum == accum + Motion(ts) && -1.0 < w.accum < 1.0
    decreases |ts|
  {
    if ts != [] {
      hide WheelRun, WheelStep, Motion, Times;
      var init, t := ts[..|ts| - 1], ts[|ts| - 1];
      var w := WheelRun(accum, init);
      WheelConserved(accum, init);
      OneTurn(accum, ts, w);
      TurnConserved(w.accum, t.wheel, t.speed);
      MotionStep(ts);
      Split(w.clicks, WheelStep(w.accum, t.wheel, t.speed).clicks);
    }
  }

  lemma TimesIs(wheel: int, speed: real)
    ensures Times(wheel as real, speed) == wheel as real * speed
  {
  }

  /** A frame's clicks are the remainder and the frame's motion without their fraction, which is kept.  So the
      remainder never has another sign than what it is left of. */
  lemma WheelTruncates(accum: real, wheel: int, speed: real)
    requires -1.0 < accum < 1.0
    ensures var w := WheelStep(accum, wheel, speed);
            var all := accum + wheel as real * speed;
            && TruncatesTo(all, w.clicks) && w.clicks as real + w.accum == all
            && (all >= 0.0 ==> 0.0 <= w.accum < 1.0) && (all <= 0.0 ==> -1.0 < w.accum <= 0.0)
  {
    TruncIs(accum + wheel as real * speed);
    if wheel == 0 {
      assert wheel as real * speed == 0.0;
    }
  }

  // ------------------------------------------------------------------
  // The pipeline object
  // ------------------------------------------------------------------

  /** An open virtual device: what was written to it so far. */
  class VirtualDevice {
    var keys: seq<KeyEvent>
    var clicks: int
    var moves: seq<(int, int)>

    constructor ()
      ensures keys == [] && clicks == 0 && moves == []
    {
      keys, clicks, moves := [], 0, [];
    }

    method Key(code: int, value: int)
      modifies this`keys
      ensures keys == old(keys) + [KeyEvent(code, value)]
    {
      keys := keys + [KeyEvent(code, value)];
    }

    method Scroll(n: int)
      modifies this`clicks
      ensures clicks == old(clicks) + n
    {
      clicks := clicks + n;
    }

    method Move(dx: int, dy: int)
      modifies this`moves
      ensures moves == old(moves) + [(dx, dy)]
    {
      moves := moves + [(dx, dy)];
    }
  }

  datatype Frame = Frame(keys: seq<KeyEvent>, wheel: int)

  /** The key events of a frame, one after the other. */
  function KeysRun(h: seq<Held>, map_: seq<Entry>, ks: seq<KeyEvent>): (seq<Held>, seq<KeyEvent>)
    decreases |ks|
  {
    if ks == [] then (h, [])
    else
      var (h', out) := KeysRun(h, map_, ks[..|ks| - 1]);
      var s := KeyStep(h', map_, ks[|ks| - 1].code, ks[|ks| - 1].value);
      (s.held, out + [s.out])
  }

  lemma NoKeysRun(h: seq<Held>, map_: seq<Entry>)
    ensures KeysRun(h, map_, []) == (h, [])
  {
  }

  lemma KeysRunNext(h: seq<Held>, map_: seq<Entry>, ks: seq<KeyEvent>, i: nat)
    requires i < |ks|
    ensures var (h', out), s' := KeysRun(h, map_, ks[..i]), KeysRun(h, map_, ks[..i + 1]);
            var s := KeyStep(h', map_, ks[i].code, ks[i].value);
            s' == (s.held, out + [KeyEvent(s.out.code, ks[i].value)])
  {
    assert ks[..i + 1][..i] == ks[..i];
  }

  // ------------------------------------------------------------------
  // The gyroscope
  // ------------------------------------------------------------------

  type Gyro = g: seq<real> | |g| == 3 witness [0.0, 0.0, 0.0]

  /** The gyroscope's part of a calibration file. */
  datatype Calibration = Calibration(bias: Gyro, scale: Gyro)

  /** What became of the calibration of a configuration: there is none, the file is broken, or it was
      loaded. */
  datatype CalibLoad = NoPath | Broken | Fine(c: Calibration)

  /** calib_apply: corrected, turned into the axes of the body, and in radians; `rad` is pi / 180. */
  function Corrected(cal: Option<Calibration>, g: Gyro, rad: real): Gyro {
    match cal
    case None => g
    case Some(c) =>
      [-((g[1] - c.bias[1]) * c.scale[1]) * rad,
       -((g[0] - c.bias[0]) * c.scale[0]) * rad,
       -((g[2] - c.bias[2]) * c.scale[2]) * rad]
  }

  /** Without a calibration readings stay as they are.  With one each is what differs from the bias, scaled and
      in radians, with the first two axes exchanged and all of them reversed. */
  lemma CorrectedIs(cal: Option<Calibration>, g: Gyro, rad: real, axis: nat)
    requires axis < 3
    ensures cal.None? ==> Corrected(cal, g, rad)[axis] == g[axis]
    ensures cal.Some? ==>
              var from := [1, 0, 2][axis];
              var off, scale := g[from] - cal.value.bias[from], cal.value.scale[from];
              Corrected(cal, g, rad)[axis] + off * scale * rad == 0.0
  {
    if cal.Some? {
      var from := [1, 0, 2][axis];
      var p := (g[from] - cal.value.bias[from]) * cal.value.scale[from];
      assert -p * rad + p * rad == 0.0;
    }
  }

  /** The pointer motion after these corrected samples. */
  function MotionOf(alpha: real, scale: real, samples: seq<seq<real>>): (int, int)
    requires forall i :: 0 <= i < |samples| ==> |samples[i]| == 3
  {
    (A.Move(A.Filter(alpha, A.Axis(samples, 2)), scale), A.Move(A.Filter(alpha, A.Axis(samples, 1)), scale))
  }

  /** The pointer moves by the third axis sideways and by the second one up and down: minus the weighted sum of
      its readings times the scale, without the fraction. */
  lemma MotionIs(alpha: real, scale: real, samples: seq<seq<real>>)
    requires forall i :: 0 <= i < |samples| ==> |samples[i]| == 3
    ensures var (dx, dy), n := MotionOf(alpha, scale, samples), |samples|;
            && TruncatesTo(-Times(A.Weighted(alpha, A.Axis(samples, 2), n, n), scale), dx)
            && TruncatesTo(-Times(A.Weighted(alpha, A.Axis(samples, 1), n, n), scale), dy)
  {
    A.FilterIsWeightedSum(alpha, A.Axis(samples, 2));
    A.FilterIsWeightedSum(alpha, A.Axis(samples, 1));
    A.MoveIs(A.Filter(alpha, A.Axis(samples, 2)), scale);
    A.MoveIs(A.Filter(alpha, A.Axis(samples, 1)), scale);
    hide A.Filter, A.Weighted, A.Move, TruncatesTo, Times;
  }

  /** The profile's filter factor when it has one, else the global one. */
  function FilterFactor(hasLpf: bool, lpfAlpha: real, globalLpf: real): real {
    if hasLpf then lpfAlpha else globalLpf
  }

  /** The filter factor that a profile asks for is the one in force after a configuration exactly when the
      profile asks for none, or for the global one. */
  lemma LpfInForceIff(src: ProfileData, globalLpf: real)
    ensures var p := Merged(Fresh("resolved"), src);
            FilterFactor(p.hasLpf, p.lpfAlpha, globalLpf) == FilterFactor(src.hasLpf, src.lpfAlpha, globalLpf) <==>
            !src.hasLpf || src.lpfAlpha == globalLpf
  {
    ResolvedNeverHasLpf(src);
    hide Merged;
  }

  class InputPipeline {
    var wheelAccum: real
    var active: Profile
    const held: array<Held>
    var nheld: nat
    const am: A.Engine
    var airmouseOn: bool
    var cal: Option<Calibration>

    ghost predicate Valid()
      reads this, am, am.prev
    {
      held.Length == HELD_MAX && nheld <= HELD_MAX && am.Valid()
    }

    ghost function HeldKeys(): seq<Held>
      reads this, held, am, am.prev
      requires Valid()
    {
      held[..nheld]
    }

    constructor ()
      ensures Valid() && fresh(held) && fresh(active) && fresh(am) && fresh(am.prev)
      ensures HeldKeys() == [] && wheelAccum == 0.0 && active.Data() == Fresh("resolved")
      ensures !airmouseOn && cal == None && am.samples == []
    {
      held := new Held[HELD_MAX](_ => Held(0, 0));
      nheld, wheelAccum := 0, 0.0;
      active := new Profile("resolved");
      am := new A.Engine();
      airmouseOn, cal := false, None;
    }

    method ReleaseHeld(kbd: VirtualDevice)
      requires Valid()
      modifies this`nheld, kbd`keys
      ensures Valid() && HeldKeys() == [] && kbd.keys == old(kbd.keys) + Releases(old(HeldKeys()))
    {
      while nheld > 0
        invariant Valid() && nheld <= old(nheld)
        invariant kbd.keys + Releases(held[..nheld]) == old(kbd.keys) + Releases(old(HeldKeys()))
      {
        assert held[..nheld][..nheld - 1] == held[..nheld - 1];
        kbd.Key(held[nheld - 1].virt, 0);
        nheld := nheld - 1;
      }
    }

    /** Release what is held on an open keyboard, then install the profile found for the config, the
        calibration and the airmouse settings.  The filter starts afresh with the global factor, whatever
        the profile says; when the calibration file is broken, filter, calibration and switch stay. */
    method Configure(src: Option<ProfileData>, calib: CalibLoad, airmouse: bool, globalLpf: real, kbd: VirtualDevice?)
      returns (rc: int)
      requires Valid()
      modifies this, am, am.prev, kbd
      ensures Valid() && fresh(active) && wheelAccum == old(wheelAccum)
      ensures kbd != null ==> kbd.clicks == old(kbd.clicks) && kbd.moves == old(kbd.moves)
      ensures kbd != null ==> HeldKeys() == [] && kbd.keys == old(kbd.keys) + Releases(old(HeldKeys()))
      ensures rc == if calib.Broken? then -1 else 0
      ensures calib.Broken? ==> cal == old(cal) && airmouseOn == old(airmouseOn) && am.samples == old(am.samples)
                                && am.alpha == old(am.alpha) && am.scale == old(am.scale)
      ensures !calib.Broken? ==> am.samples == [] && am.alpha == globalLpf && am.scale == active.sensitivity
                                 && airmouseOn == airmouse && cal == if calib.Fine? then Some(calib.c) else None
      ensures kbd == null ==> HeldKeys() == old(HeldKeys())
      ensures active.Data() == match src case None => Fresh("resolved") case Some(p) => Merged(Fresh("resolved"), p)
    {
      if kbd != null {
        ReleaseHeld(kbd);
      }
      active := new Profile("resolved");
      if src.Some? {
        active.Merge(src.value);
        ResolvedNeverHasLpf(src.value);
      }
      if calib.Broken? {
        return -1;
      }
      cal := if calib.Fine? then Some(calib.c) else None;
      am.Init(FilterFactor(active.hasLpf, active.lpfAlpha, globalLpf), active.sensitivity);
      airmouseOn := airmouse;
      return 0;
    }

    /** pipeline_imu: one frame of the IMU.  Motion goes to an open mouse; without one it is lost, but the
        filter follows all the same. */
    method Imu(gyro: Gyro, rad: real, mouse: VirtualDevice?) returns (rc: int)
      requires Valid()
      modifies am`samples, am.prev, mouse
      ensures Valid() && (mouse != null ==> mouse.clicks == old(mouse.clicks) && mouse.keys == old(mouse.keys))
      ensures !airmouseOn ==>
                && rc == 0 && am.samples == old(am.samples)
                && (mouse != null ==> mouse.moves == old(mouse.moves))
      ensures airmouseOn ==> am.samples == old(am.samples) + [Corrected(cal, gyro, rad)]
      ensures airmouseOn ==>
                var m := MotionOf(am.alpha, am.scale, am.samples);
                && (mouse != null ==> mouse.moves == old(mouse.moves) + if m == (0, 0) then [] else [m])
                && rc == if mouse == null && m != (0, 0) then -1 else 0
    {
      if !airmouseOn {
        return 0;
      }
      var out := new real[3];
      var dx, dy := am.Process(Corrected(cal, gyro, rad), out);
      if dx == 0 && dy == 0 {
        return 0;
      }
      if mouse == null {
        return -1;
      }
      mouse.Move(dx, dy);
      return 0;
    }

    /** One keyboard frame.  Returns -1 when a write found no open device, as on a closed descriptor. */
    method Keyboard(f: Frame, kbd: VirtualDevice?, mouse: VirtualDevice?) returns (rc: int)
      requires Valid() && (kbd != null ==> kbd != mouse)
      modifies this`nheld, this`wheelAccum, held, kbd, mouse
      ensures Valid()
      ensures HeldKeys() == KeysRun(old(HeldKeys()), active.buttons, f.keys).0
      ensures kbd != null ==> kbd.keys == old(kbd.keys) + KeysRun(old(HeldKeys()), active.buttons, f.keys).1
      ensures var w := WheelStep(old(wheelAccum), f.wheel, active.scrollSpeed);
              wheelAccum == w.accum && (mouse != null ==> mouse.clicks == old(mouse.clicks) + w.clicks)
      ensures -1.0 < old(wheelAccum) < 1.0 ==> -1.0 < wheelAccum < 1.0
      ensures mouse != null && -1.0 < old(wheelAccum) < 1.0 ==>
                var sent, all := mouse.clicks - old(mouse.clicks),
                                 old(wheelAccum) + Times(f.wheel as real, active.scrollSpeed);
                TruncatesTo(all, sent) && sent as real + wheelAccum == all
      ensures rc == if (f.keys != [] && kbd == null)
                       || (mouse == null && WheelStep(old(wheelAccum), f.wheel, active.scrollSpeed).clicks != 0)
                    then -1 else 0
    {
      ghost var was, w, clicks := wheelAccum, WheelStep(wheelAccum, f.wheel, active.scrollSpeed),
                                  if mouse != null then mouse.clicks else 0;
      WheelSent(was, f.wheel, active.scrollSpeed);
      hide WheelStep, TruncatesTo, KeysRun, Times;
      rc := KeyEvents(f.keys, kbd);
      var rc' := Turn(f.wheel, mouse);
      assert wheelAccum == w.accum && (mouse != null ==> mouse.clicks - clicks == w.clicks);
      if rc' < 0 {
        rc := -1;
      }
    }

    method KeyEvents(keys: seq<KeyEvent>, kbd: VirtualDevice?) returns (rc: int)
      requires Valid()
      modifies this`nheld, held, kbd
      ensures Valid()
      ensures HeldKeys() == KeysRun(old(HeldKeys()), active.buttons, keys).0
      ensures kbd != null ==> kbd.clicks == old(kbd.clicks)
      ensures kbd != null ==> kbd.keys == old(kbd.keys) + KeysRun(old(HeldKeys()), active.buttons, keys).1
      ensures rc == if keys != [] && kbd == null then -1 else 0
    {
      hide KeysRun, KeyStep;
      rc := 0;
      ghost var h, m := HeldKeys(), active.buttons;
      ghost var sent: seq<KeyEvent> := if kbd == null then [] else kbd.keys;
      NoKeysRun(h, m);
      for i := 0 to |keys|
        invariant Valid() && active.buttons == m
        invariant HeldKeys() == KeysRun(h, m, keys[..i]).0
        invariant kbd != null ==> kbd.clicks == old(kbd.clicks) && kbd.keys == sent + KeysRun(h, m, keys[..i]).1
        invariant rc == if i > 0 && kbd == null then -1 else 0
      {
        KeysRunNext(h, m, keys, i);
        var to := Translate(keys[i].code, keys[i].value);
        if kbd != null {
          kbd.Key(to, keys[i].value);
        } else {
          rc := -1;
        }
      }
      assert keys[..|keys|] == keys;
    }

    method Turn(wheel: int, mouse: VirtualDevice?) returns (rc: int)
      modifies this`wheelAccum, mouse
      ensures var w := WheelStep(old(wheelAccum), wheel, active.scrollSpeed);
              && wheelAccum == w.accum
              && (mouse != null ==> mouse.clicks == old(mouse.clicks) + w.clicks && mouse.keys == old(mouse.keys))
              && rc == if mouse == null && w.clicks != 0 then -1 else 0
    {
      hide Times, Trunc;
      rc := 0;
      if wheel != 0 {
        wheelAccum := wheelAccum + Times(wheel as real, active.scrollSpeed);
        var clicks := Trunc(wheelAccum);
        wheelAccum := wheelAccum - clicks as real;
        if clicks != 0 {
          if mouse != null {
            mouse.Scroll(clicks);
          } else {
            rc := -1;
          }
        }
      }
    }

    /** The virtual code of one key event; the table of held keys is updated. */
    method Translate(phys: int, val: int) returns (to: int)
      requires Valid()
      modifies this`nheld, held
      ensures Valid()
      ensures var s := KeyStep(old(HeldKeys()), active.buttons, phys, val);
              HeldKeys() == s.held && to == s.out.code
    {
      ghost var h := HeldKeys();
      var heldIdx := -1;
      for k := 0 to nheld
        invariant heldIdx == FindHeld(h[..k], phys)
        invariant held[..] == old(held[..])
      {
        assert h[..k + 1][..k] == h[..k];
        if held[k].phys == phys {
          heldIdx := k;
        }
      }
      assert h[..nheld] == h;
      if heldIdx >= 0 {
        to := held[heldIdx].virt;
        if val == 0 {
          held[heldIdx] := held[nheld - 1];
          nheld := nheld - 1;
        }
      } else {
        to := MapKey(phys);
        if val != 0 && nheld < HELD_MAX {
          held[nheld] := Held(phys, to);
          nheld := nheld + 1;
        }
      }
    }

    method MapKey(phys: int) returns (to: int)
      ensures to == Lookup(active.buttons, phys)
    {
      to := phys;
      var m := active.buttons;
      var k := 0;
      while k < |m|
        invariant 0 <= k <= |m| && to == phys && Lookup(m, phys) == Lookup(m[k..], phys)
      {
        if m[k].from == phys {
          return m[k].to;
        }
        assert m[k..][1..] == m[k + 1..];
        k := k + 1;
      }
    }
  }
}
