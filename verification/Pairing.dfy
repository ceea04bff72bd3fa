/**
 Pairing keyboards with IMUs (tools/src/pairing.c).
 */
module Pairing {
  import opened Wrappers

  /** One input device; `uniq` is "" when there is none. */
  datatype Device = Device(path: string, name: string, uniq: string, vendor: nat, product: nat)

  predicate IsKeyboard(d: Device) {
    d.name == "LG Magic Remote" && d.vendor == 0x000f && d.product == 0x3412
  }

  predicate IsImu(d: Device) { d.name == "LG Magic Remote IMU" }

  function Lower(c: char): char { if 'A' <= c <= 'Z' then c + ('a' - 'A') else c }

  /** Equal up to the case of letters. */
  predicate SameUniq(a: string, b: string) {
    |a| == |b| && forall i :: 0 <= i < |a| ==> Lower(a[i]) == Lower(b[i])
  }

  /** The IMU names the keyboard's address. */
  predicate SameMac(imu: Device, kbd: Device) { imu.uniq != "" && SameUniq(imu.uniq, kbd.uniq) }

  // ------------------------------------------------------------------
  // The algorithm as a function
  // ------------------------------------------------------------------

  /** The indices of the keyboards among the first n devices. */
  function Keyboards(devs: seq<Device>, n: nat): seq<nat>
    requires n <= |devs|
  {
    if n == 0 then []
    else Keyboards(devs, n - 1) + if IsKeyboard(devs[n - 1]) then [n - 1] else []
  }

  /** The devices are keyboards, in input order. */
  ghost predicate AreKeyboards(devs: seq<Device>, kbds: seq<nat>) {
    && (forall k :: 0 <= k < |kbds| ==> kbds[k] < |devs| && IsKeyboard(devs[kbds[k]]))
    && (forall k, l :: 0 <= k < l < |kbds| ==> kbds[k] < kbds[l])
  }

  lemma {:induction false} KeyboardsInOrder(devs: seq<Device>, n: nat)
    requires n <= |devs|
    ensures AreKeyboards(devs, Keyboards(devs, n))
    ensures forall k :: 0 <= k < |Keyboards(devs, n)| ==> Keyboards(devs, n)[k] < n
    ensures forall i :: 0 <= i < n && IsKeyboard(devs[i]) ==> i in Keyboards(devs, n)
  {
    if n > 0 {
      KeyboardsInOrder(devs, n - 1);
    }
  }

  /** Which IMU each keyboard has got so far. */
  type Assignment = seq<Option<nat>>

  /** What the scan over the first n keyboards finds for one IMU: the free ones and the free ones with
      its address, each by number and last index. */
  datatype Candidates = Candidates(free: nat, lastFree: int, matches: nat, lastMatch: int)

  function Survey(devs: seq<Device>, kbds: seq<nat>, a: Assignment, imu: Device, n: nat): Candidates
    requires n <= |kbds| == |a| && forall k :: 0 <= k < |kbds| ==> kbds[k] < |devs|
  {
    if n == 0 then Candidates(0, -1, 0, -1)
    else
      var c := Survey(devs, kbds, a, imu, n - 1);
      if a[n - 1].Some? then c
      else
        var d := c.(free := c.free + 1, lastFree := n - 1);
        if SameMac(imu, devs[kbds[n - 1]]) then d.(matches := d.matches + 1, lastMatch := n - 1) else d
  }

  /** What is surveyed is there. */
  lemma {:induction false} SurveyFinds(devs: seq<Device>, kbds: seq<nat>, a: Assignment, imu: Device, n: nat)
    requires n <= |kbds| == |a| && forall k :: 0 <= k < |kbds| ==> kbds[k] < |devs|
    ensures var c := Survey(devs, kbds, a, imu, n);
            && (c.free == 0 ==> forall k :: 0 <= k < n ==> a[k].Some?)
            && (c.free > 0 ==> 0 <= c.lastFree < n && a[c.lastFree].None?)
            && (c.free == 1 ==> forall k :: 0 <= k < n && a[k].None? ==> k == c.lastFree)
            && (c.matches > 0 ==> 0 <= c.lastMatch < n && a[c.lastMatch].None? && SameMac(imu, devs[kbds[c.lastMatch]]))
            && (c.matches == 0 ==> forall k :: 0 <= k < n && a[k].None? ==> !SameMac(imu, devs[kbds[k]]))
            && (c.matches == 1 ==>
                  forall k :: 0 <= k < n && a[k].None? && SameMac(imu, devs[kbds[k]]) ==> k == c.lastMatch)
  {
    if n > 0 {
      SurveyFinds(devs, kbds, a, imu, n - 1);
    }
  }

  /** One device: an IMU goes to its keyboard, or to the only free one; None when that is ambiguous. */
  function Place(devs: seq<Device>, kbds: seq<nat>, a: Assignment, i: nat): (r: Option<Assignment>)
    requires i < |devs| && |kbds| == |a| && forall k :: 0 <= k < |kbds| ==> kbds[k] < |devs|
    ensures r.Some? ==> |r.value| == |a|
  {
    if !IsImu(devs[i]) then Some(a)
    else
      var c := Survey(devs, kbds, a, devs[i], |kbds|);
      if c.matches > 1 then None
      else if c.matches == 1 then if 0 <= c.lastMatch < |a| then Some(a[c.lastMatch := Some(i)]) else None
      else if c.free == 1 then if 0 <= c.lastFree < |a| then Some(a[c.lastFree := Some(i)]) else None
      else if c.free == 0 then Some(a)
      else None
  }

  /** Letters count as equal in either case, and nothing else does. */
  lemma CaseIs(x: char, y: char)
    ensures Lower(x) == Lower(y) <==>
            || x == y
            || ('A' <= x <= 'Z' && y as int == x as int + 32)
            || ('A' <= y <= 'Z' && x as int == y as int + 32)
  {
  }

  lemma {:induction false} SeveralSurveyed(devs: seq<Device>, kbds: seq<nat>, a: Assignment, imu: Device, n: nat,
                                           k: nat, l: nat)
    requires n <= |kbds| == |a| && (forall k :: 0 <= k < |kbds| ==> kbds[k] < |devs|) && k < l < |a|
    requires a[k].None? && a[l].None?
    ensures var c := Survey(devs, kbds, a, imu, n);
            && (k < n ==> c.free >= 1) && (l < n ==> c.free >= 2)
            && (SameMac(imu, devs[kbds[k]]) && k < n ==> c.matches >= 1)
            && (SameMac(imu, devs[kbds[k]]) && SameMac(imu, devs[kbds[l]]) && l < n ==> c.matches >= 2)
  {
    hide SameMac;
    if n > 0 {
      SeveralSurveyed(devs, kbds, a, imu, n - 1, k, l);
    }
  }

  /** Keyboard k has no IMU yet, and its address is the IMU's. */
  predicate Matches(devs: seq<Device>, kbds: seq<nat>, a: Assignment, imu: Device, k: nat)
    requires |kbds| == |a| && forall k :: 0 <= k < |kbds| ==> kbds[k] < |devs|
  {
    k < |a| && a[k].None? && imu.uniq != "" && SameUniq(imu.uniq, devs[kbds[k]].uniq)
  }

  /** What becomes of one device.  An IMU goes to the free keyboard with its address; without one to the only
      free keyboard; it is left over when none is free; and it is ambiguous when there are several. */
  lemma PlaceMeans(devs: seq<Device>, kbds: seq<nat>, a: Assignment, i: nat, k: nat, l: nat)
    requires i < |devs| && |kbds| == |a| && forall k :: 0 <= k < |kbds| ==> kbds[k] < |devs|
    ensures var r, imu := Place(devs, kbds, a, i), devs[i];
            && (imu.name != "LG Magic Remote IMU" ==> r == Some(a))
            && (imu.name == "LG Magic Remote IMU" ==>
                  && (k < l && Matches(devs, kbds, a, imu, k) && Matches(devs, kbds, a, imu, l) ==> r == None)
                  && (Matches(devs, kbds, a, imu, k) && (forall j: nat :: Matches(devs, kbds, a, imu, j) ==> j == k) ==>
                        r == Some(a[k := Some(i)]))
                  && ((forall j: nat :: !Matches(devs, kbds, a, imu, j)) ==>
                        && (k < l < |a| && a[k].None? && a[l].None? ==> r == None)
                        && (k < |a| && a[k].None? && (forall j :: 0 <= j < |a| && a[j].None? ==> j == k) ==>
                              r == Some(a[k := Some(i)]))
                        && ((forall j :: 0 <= j < |a| ==> a[j].Some?) ==> r == Some(a))))
  {
    var imu, c := devs[i], Survey(devs, kbds, a, devs[i], |kbds|);
    SurveyFinds(devs, kbds, a, imu, |kbds|);
    if k < l < |a| && a[k].None? && a[l].None? {
      SeveralSurveyed(devs, kbds, a, imu, |kbds|, k, l);
    }
    hide SameUniq, Survey;
    if c.matches > 0 {
      assert Matches(devs, kbds, a, imu, c.lastMatch);
      if c.matches > 1 {
        TwoMatches(devs, kbds, a, imu, |kbds|);
      }
    } else if c.free > 1 {
      NotAlone(devs, kbds, a, imu, |kbds|);
    }
  }

  lemma {:induction false} TwoMatches(devs: seq<Device>, kbds: seq<nat>, a: Assignment, imu: Device, n: nat)
    requires n <= |kbds| == |a| && forall k :: 0 <= k < |kbds| ==> kbds[k] < |devs|
    requires Survey(devs, kbds, a, imu, n).matches > 1
    ensures exists k: nat, l: nat :: k < l < n && Matches(devs, kbds, a, imu, k) && Matches(devs, kbds, a, imu, l)
  {
    hide SameUniq;
    SurveyFinds(devs, kbds, a, imu, n - 1);
    var c := Survey(devs, kbds, a, imu, n - 1);
    if c.matches > 1 {
      TwoMatches(devs, kbds, a, imu, n - 1);
    } else {
      assert Matches(devs, kbds, a, imu, c.lastMatch) && Matches(devs, kbds, a, imu, n - 1);
    }
  }

  function Unassigned(n: nat): (r: Assignment)
    ensures |r| == n && forall k :: 0 <= k < n ==> r[k] == None
  {
    if n == 0 then [] else Unassigned(n - 1) + [None]
  }

  /** The assignment after the first n devices. */
  function Assign(devs: seq<Device>, kbds: seq<nat>, n: nat): (r: Option<Assignment>)
    requires n <= |devs| && forall k :: 0 <= k < |kbds| ==> kbds[k] < |devs|
    ensures r.Some? ==> |r.value| == |kbds|
  {
    if n == 0 then Some(Unassigned(|kbds|))
    else
      match Assign(devs, kbds, n - 1)
      case None => None
      case Some(a) => Place(devs, kbds, a, n - 1)
  }

  /** The whole pairing; None when it is ambiguous. */
  function Assigned(devs: seq<Device>): Option<Assignment> {
    KeyboardsInOrder(devs, |devs|);
    Assign(devs, Keyboards(devs, |devs|), |devs|)
  }

  /** One remote; its identity is the keyboard's address, else the IMU's. */
  datatype Remote = Remote(uniq: string, keyboard: Device, imu: Option<Device>)

  const UNIQ_MAX: nat := 63

  function Truncated(s: string): string { if |s| <= UNIQ_MAX then s else s[..UNIQ_MAX] }

  function RemoteOf(devs: seq<Device>, k: nat, imu: Option<nat>): Remote
    requires k < |devs| && (imu.Some? ==> imu.value < |devs|)
  {
    var i := if imu.Some? then Some(devs[imu.value]) else None;
    var u := if devs[k].uniq == "" && i.Some? then i.value.uniq else devs[k].uniq;
    Remote(Truncated(u), devs[k], i)
  }

  /** A keyboard of the right name, vendor and product, with an IMU of the right name or none, both among the
      devices.  The remote goes by the keyboard's address, or the IMU's when the keyboard has none, cut to 63
      characters. */
  predicate RemoteIs(devs: seq<Device>, r: Remote) {
    && r.keyboard in devs && r.keyboard.name == "LG Magic Remote"
    && r.keyboard.vendor == 15 && r.keyboard.product == 13330
    && (r.imu.Some? ==> r.imu.value in devs && r.imu.value.name == "LG Magic Remote IMU")
    && var u := if r.keyboard.uniq == "" && r.imu.Some? then r.imu.value.uniq else r.keyboard.uniq;
       r.uniq == if |u| <= 63 then u else u[..63]
  }

  lemma RemoteMeans(devs: seq<Device>, k: nat, imu: Option<nat>)
    requires k < |devs| && IsKeyboard(devs[k]) && (imu.Some? ==> imu.value < |devs| && IsImu(devs[imu.value]))
    ensures var r := RemoteOf(devs, k, imu);
            RemoteIs(devs, r) && r.keyboard == devs[k] && r.imu == if imu.Some? then Some(devs[imu.value]) else None
  {
  }

  /** Every device that can be a keyboard is taken for one. */
  lemma KeyboardFound(devs: seq<Device>, i: nat)
    requires i < |devs|
    ensures i in Keyboards(devs, |devs|) <==>
            devs[i].name == "LG Magic Remote" && devs[i].vendor == 15 && devs[i].product == 13330
  {
    KeyboardsInOrder(devs, |devs|);
  }

  ghost predicate InRange(devs: seq<Device>, kbds: seq<nat>, a: Assignment) {
    && |a| == |kbds|
    && (forall k :: 0 <= k < |kbds| ==> kbds[k] < |devs|)
    && (forall k :: 0 <= k < |a| && a[k].Some? ==> a[k].value < |devs|)
  }

  /** The remotes that pairing_match emits. */
  ghost predicate Emitted(devs: seq<Device>, kbds: seq<nat>, a: Assignment, out: seq<Remote>, outsz: nat) {
    && InRange(devs, kbds, a)
    && |out| == (if |kbds| <= outsz then |kbds| else outsz)
    && forall k :: 0 <= k < |out| ==> out[k] == RemoteOf(devs, kbds[k], a[k])
  }

  // ------------------------------------------------------------------
  // What a successful pairing looks like
  // ------------------------------------------------------------------

  /** Every assigned IMU is one of the first n devices, an IMU, and assigned once. */
  ghost predicate Injective(devs: seq<Device>, a: Assignment, n: nat) {
    && (forall k :: 0 <= k < |a| && a[k].Some? ==> a[k].value < n && n <= |devs| && IsImu(devs[a[k].value]))
    && (forall k, l :: 0 <= k < l < |a| && a[k].Some? && a[l].Some? ==> a[k].value != a[l].value)
  }

  lemma {:induction false} AssignInjective(devs: seq<Device>, kbds: seq<nat>, n: nat)
    requires n <= |devs| && (forall k :: 0 <= k < |kbds| ==> kbds[k] < |devs|) && Assign(devs, kbds, n).Some?
    ensures Injective(devs, Assign(devs, kbds, n).value, n)
  {
    if n > 0 {
      AssignInjective(devs, kbds, n - 1);
      SurveyFinds(devs, kbds, Assign(devs, kbds, n - 1).value, devs[n - 1], |kbds|);
    }
  }

  // ------------------------------------------------------------------
  // The join by address
  // ------------------------------------------------------------------

  /** Every keyboard has an address of its own. */
  ghost predicate KeyboardsNamed(devs: seq<Device>) {
    && (forall i :: 0 <= i < |devs| && IsKeyboard(devs[i]) ==> devs[i].uniq != "")
    && (forall i, j :: 0 <= i < j < |devs| && IsKeyboard(devs[i]) && IsKeyboard(devs[j]) ==>
          !SameUniq(devs[i].uniq, devs[j].uniq))
  }

  /** Keyboards have distinct addresses, and every IMU has one of them, each a different one. */
  ghost predicate Addressed(devs: seq<Device>) {
    && KeyboardsNamed(devs)
    && (forall i :: 0 <= i < |devs| && IsImu(devs[i]) ==>
          exists k :: 0 <= k < |devs| && IsKeyboard(devs[k]) && SameMac(devs[i], devs[k]))
    && (forall i, j :: 0 <= i < j < |devs| && IsImu(devs[i]) && IsImu(devs[j]) ==>
          !SameUniq(devs[i].uniq, devs[j].uniq))
  }

  /** The assignment after n devices joins exactly the IMUs among them with their keyboards. */
  ghost predicate Joined(devs: seq<Device>, kbds: seq<nat>, a: Assignment, n: nat) {
    && InRange(devs, kbds, a) && n <= |devs|
    && forall k, i :: 0 <= k < |kbds| && 0 <= i < |devs| ==>
         (a[k] == Some(i) <==> i < n && IsImu(devs[i]) && SameMac(devs[i], devs[kbds[k]]))
  }

  lemma SameUniqVia(a: string, b: string, c: string)
    requires SameUniq(a, c) && SameUniq(b, c)
    ensures SameUniq(a, b)
  {
  }

  /** The keyboard of an addressed IMU is free, and the only match. */
  lemma OneMatch(devs: seq<Device>, kbds: seq<nat>, a: Assignment, i: nat) returns (k: nat)
    requires Addressed(devs) && i < |devs| && IsImu(devs[i]) && kbds == Keyboards(devs, |devs|)
    requires Joined(devs, kbds, a, i)
    ensures k < |kbds| && a[k].None? && SameMac(devs[i], devs[kbds[k]])
    ensures forall l :: 0 <= l < |kbds| && SameMac(devs[i], devs[kbds[l]]) ==> l == k
  {
    KeyboardsInOrder(devs, |devs|);
    var d :| 0 <= d < |devs| && IsKeyboard(devs[d]) && SameMac(devs[i], devs[d]);
    assert d in kbds;
    k :| 0 <= k < |kbds| && kbds[k] == d;
    if a[k].Some? {
      var j := a[k].value;
      assert IsImu(devs[j]) && SameMac(devs[j], devs[d]) && j < i;
      SameUniqVia(devs[j].uniq, devs[i].uniq, devs[d].uniq);
      assert false;
    }
    forall l | 0 <= l < |kbds| && SameMac(devs[i], devs[kbds[l]]) ensures l == k {
      SameSides(devs[i].uniq, devs[kbds[l]].uniq, devs[d].uniq);
    }
  }

  lemma SameSides(a: string, b: string, c: string)
    requires SameUniq(a, b) && SameUniq(a, c)
    ensures SameUniq(b, c) && SameUniq(c, b)
  {
  }

  lemma {:induction false} SurveyOne(devs: seq<Device>, kbds: seq<nat>, a: Assignment, imu: Device, n: nat, k: nat)
    requires n <= |kbds| == |a| && forall l :: 0 <= l < |kbds| ==> kbds[l] < |devs|
    requires k < |kbds| && a[k].None? && SameMac(imu, devs[kbds[k]])
    requires forall l :: 0 <= l < |kbds| && SameMac(imu, devs[kbds[l]]) ==> l == k
    ensures var c := Survey(devs, kbds, a, imu, n);
            c.matches == (if k < n then 1 else 0) && (k < n ==> c.lastMatch == k)
  {
    if n > 0 {
      SurveyOne(devs, kbds, a, imu, n - 1, k);
    }
  }

  lemma JoinedMore(devs: seq<Device>, kbds: seq<nat>, a: Assignment, i: nat, k: nat)
    requires Joined(devs, kbds, a, i) && i < |devs| && IsImu(devs[i])
    requires k < |kbds| && a[k].None? && SameMac(devs[i], devs[kbds[k]])
    requires forall l :: 0 <= l < |kbds| && SameMac(devs[i], devs[kbds[l]]) ==> l == k
    ensures Joined(devs, kbds, a[k := Some(i)], i + 1)
  {
    hide SameMac, IsImu;
    var b := a[k := Some(i)];
    forall l, j | 0 <= l < |kbds| && 0 <= j < |devs|
      ensures b[l] == Some(j) <==> j < i + 1 && IsImu(devs[j]) && SameMac(devs[j], devs[kbds[l]])
    {
      assert a[l] == Some(j) <==> j < i && IsImu(devs[j]) && SameMac(devs[j], devs[kbds[l]]);
    }
  }

  lemma JoinedSkip(devs: seq<Device>, kbds: seq<nat>, a: Assignment, i: nat)
    requires Joined(devs, kbds, a, i) && i < |devs| && !IsImu(devs[i])
    ensures Joined(devs, kbds, a, i + 1)
  {
    hide SameMac, IsImu;
    forall l, j | 0 <= l < |kbds| && 0 <= j < |devs|
      ensures a[l] == Some(j) <==> j < i + 1 && IsImu(devs[j]) && SameMac(devs[j], devs[kbds[l]])
    {
    }
  }

  lemma JoinedStart(devs: seq<Device>, kbds: seq<nat>)
    requires forall k :: 0 <= k < |kbds| ==> kbds[k] < |devs|
    ensures Joined(devs, kbds, Unassigned(|kbds|), 0)
  {
  }

  lemma {:induction false} AssignJoins(devs: seq<Device>, n: nat)
    requires Addressed(devs) && n <= |devs|
    ensures var kbds := Keyboards(devs, |devs|);
            && (forall k :: 0 <= k < |kbds| ==> kbds[k] < |devs|)
            && Assign(devs, kbds, n).Some? && Joined(devs, kbds, Assign(devs, kbds, n).value, n)
  {
    hide SameMac, IsImu, Keyboards, Survey, Joined, Addressed, InRange;
    var kbds := Keyboards(devs, |devs|);
    KeyboardsInOrder(devs, |devs|);
    if n == 0 {
      JoinedStart(devs, kbds);
    } else {
      AssignJoins(devs, n - 1);
      var a := Assign(devs, kbds, n - 1).value;
      var i := n - 1;
      if IsImu(devs[i]) {
        var k := OneMatch(devs, kbds, a, i);
        SurveyOne(devs, kbds, a, devs[i], |kbds|, k);
        assert Assign(devs, kbds, n) == Some(a[k := Some(i)]);
        JoinedMore(devs, kbds, a, i, k);
      } else {
        JoinedSkip(devs, kbds, a, i);
      }
    }
  }

  /** With distinct addresses everywhere, pairing succeeds and pairs exactly the devices with equal
      addresses, whatever order they come in. */
  lemma AddressJoin(devs: seq<Device>)
    requires Addressed(devs)
    ensures Assigned(devs).Some? && InRange(devs, Keyboards(devs, |devs|), Assigned(devs).value)
    ensures forall kbd, imu :: Paired(devs, Keyboards(devs, |devs|), Assigned(devs).value, kbd, imu) <==>
              kbd in devs && IsKeyboard(kbd) && imu in devs && IsImu(imu) && SameMac(imu, kbd)
  {
    var kbds := Keyboards(devs, |devs|);
    AssignJoins(devs, |devs|);
    KeyboardsInOrder(devs, |devs|);
    var a := Assign(devs, kbds, |devs|).value;
    forall kbd, imu | kbd in devs && IsKeyboard(kbd) && imu in devs && IsImu(imu) && SameMac(imu, kbd)
      ensures Paired(devs, kbds, a, kbd, imu)
    {
      var d :| 0 <= d < |devs| && devs[d] == kbd;
      var i :| 0 <= i < |devs| && devs[i] == imu;
      assert d in kbds;
      var k :| 0 <= k < |kbds| && kbds[k] == d;
      assert a[k] == Some(i);
    }
  }

  /** Some remote has this keyboard and this IMU. */
  ghost predicate Paired(devs: seq<Device>, kbds: seq<nat>, a: Assignment, kbd: Device, imu: Device)
    requires InRange(devs, kbds, a)
  {
    exists k :: 0 <= k < |kbds| && devs[kbds[k]] == kbd && a[k].Some? && devs[a[k].value] == imu
  }

  // ------------------------------------------------------------------
  // When pairing goes by address
  // ------------------------------------------------------------------

  /** None of the first n devices is an IMU with the keyboard's address. */
  ghost predicate Unclaimed(devs: seq<Device>, kbd: Device, n: nat)
    requires n <= |devs|
  {
    forall j :: 0 <= j < n && IsImu(devs[j]) ==> !SameMac(devs[j], kbd)
  }

  /** Device i is the first IMU with the address of some keyboard, or comes when every keyboard has been
      claimed. */
  ghost predicate Served(devs: seq<Device>, i: nat)
    requires i < |devs|
  {
    || (exists d :: 0 <= d < |devs| && IsKeyboard(devs[d]) && SameMac(devs[i], devs[d]) && Unclaimed(devs, devs[d], i))
    || (forall d :: 0 <= d < |devs| && IsKeyboard(devs[d]) ==> !Unclaimed(devs, devs[d], i))
  }

  ghost predicate AllServed(devs: seq<Device>, n: nat)
    requires n <= |devs|
  {
    forall i :: 0 <= i < n && IsImu(devs[i]) ==> Served(devs, i)
  }

  /** Every assigned IMU has its keyboard's address. */
  ghost predicate ByAddress(devs: seq<Device>, kbds: seq<nat>, a: Assignment) {
    && InRange(devs, kbds, a)
    && forall k :: 0 <= k < |a| && a[k].Some? ==> SameMac(devs[a[k].value], devs[kbds[k]])
  }

  /** Each keyboard has the first IMU with its address among the first n devices, if there is one. */
  ghost predicate FirstCome(devs: seq<Device>, kbds: seq<nat>, a: Assignment, n: nat) {
    && InRange(devs, kbds, a) && n <= |devs|
    && forall k :: 0 <= k < |a| ==>
         match a[k]
         case None => Unclaimed(devs, devs[kbds[k]], n)
         case Some(i) => i < n && IsImu(devs[i]) && SameMac(devs[i], devs[kbds[k]]) && Unclaimed(devs, devs[kbds[k]], i)
  }

  /** Keyboard k alone is still free, and the IMU that takes it has another address or none. */
  ghost predicate TakenBy(devs: seq<Device>, kbds: seq<nat>, a: Assignment, i: nat, k: nat)
    requires InRange(devs, kbds, a) && i < |devs|
  {
    && k < |a| && a[k].None? && !SameMac(devs[i], devs[kbds[k]])
    && forall l :: 0 <= l < |a| && a[l].None? ==> l == k
  }

  lemma KeyboardSlots(devs: seq<Device>, kbds: seq<nat>)
    requires kbds == Keyboards(devs, |devs|) && KeyboardsNamed(devs)
    ensures forall k :: 0 <= k < |kbds| ==> kbds[k] < |devs| && IsKeyboard(devs[kbds[k]])
    ensures forall d :: 0 <= d < |devs| && IsKeyboard(devs[d]) ==> d in kbds
    ensures forall k, l :: 0 <= k < l < |kbds| ==> !SameUniq(devs[kbds[k]].uniq, devs[kbds[l]].uniq)
  {
    KeyboardsInOrder(devs, |devs|);
    hide SameUniq, IsKeyboard, Keyboards;
  }

  /** The step of an IMU that has the address of a free keyboard. */
  lemma MatchTaken(devs: seq<Device>, kbds: seq<nat>, a: Assignment, i: nat, k: nat)
    requires KeyboardsNamed(devs) && kbds == Keyboards(devs, |devs|) && FirstCome(devs, kbds, a, i)
    requires i < |devs| && IsImu(devs[i]) && k < |kbds| && a[k].None? && SameMac(devs[i], devs[kbds[k]])
    ensures Served(devs, i) && Place(devs, kbds, a, i) == Some(a[k := Some(i)])
    ensures FirstCome(devs, kbds, a[k := Some(i)], i + 1)
  {
    KeyboardSlots(devs, kbds);
    forall l | 0 <= l < |kbds| && SameMac(devs[i], devs[kbds[l]]) ensures l == k {
      SameSides(devs[i].uniq, devs[kbds[l]].uniq, devs[kbds[k]].uniq);
    }
    SurveyOne(devs, kbds, a, devs[i], |kbds|, k);
    hide IsKeyboard, IsImu, SameMac, Keyboards, Survey, KeyboardsNamed;
    assert Unclaimed(devs, devs[kbds[k]], i);
    FirstComeKept(devs, kbds, a, i, k);
  }

  lemma FirstComeKept(devs: seq<Device>, kbds: seq<nat>, a: Assignment, i: nat, k: nat)
    requires FirstCome(devs, kbds, a, i) && i < |devs| && k < |kbds| && a[k].None? && IsImu(devs[i])
    requires SameMac(devs[i], devs[kbds[k]])
    requires forall l :: 0 <= l < |kbds| && SameMac(devs[i], devs[kbds[l]]) ==> l == k
    ensures FirstCome(devs, kbds, a[k := Some(i)], i + 1)
  {
    hide IsImu, SameMac;
  }

  lemma FirstComeSkip(devs: seq<Device>, kbds: seq<nat>, a: Assignment, i: nat)
    requires FirstCome(devs, kbds, a, i) && i < |devs|
    requires !IsImu(devs[i]) || forall k :: 0 <= k < |a| ==> a[k].Some?
    ensures FirstCome(devs, kbds, a, i + 1)
  {
    hide IsImu, SameMac;
  }

  /** The step of an IMU none of the free keyboards has the address of. */
  lemma NoMatch(devs: seq<Device>, kbds: seq<nat>, a: Assignment, i: nat)
    requires KeyboardsNamed(devs) && kbds == Keyboards(devs, |devs|) && FirstCome(devs, kbds, a, i)
    requires i < |devs| && IsImu(devs[i])
    requires forall k :: 0 <= k < |kbds| && a[k].None? ==> !SameMac(devs[i], devs[kbds[k]])
    ensures Served(devs, i) <==> forall k :: 0 <= k < |a| ==> a[k].Some?
    ensures Served(devs, i) ==> Place(devs, kbds, a, i) == Some(a)
    ensures !Served(devs, i) ==>
              if exists k: nat :: TakenBy(devs, kbds, a, i, k) then
                exists k: nat :: TakenBy(devs, kbds, a, i, k) && Place(devs, kbds, a, i) == Some(a[k := Some(i)])
              else Place(devs, kbds, a, i) == None
  {
    KeyboardSlots(devs, kbds);
    SurveyFinds(devs, kbds, a, devs[i], |kbds|);
    hide IsKeyboard, IsImu, SameMac, Keyboards, Survey, KeyboardsNamed;
    ClaimedSlots(devs, kbds, a, i);
    var c := Survey(devs, kbds, a, devs[i], |kbds|);
    if c.free == 1 {
      assert TakenBy(devs, kbds, a, i, c.lastFree);
    } else if c.free > 1 {
      NotAlone(devs, kbds, a, devs[i], |kbds|);
    }
  }

  /** Which keyboards have been claimed can be read off the slots. */
  lemma ClaimedSlots(devs: seq<Device>, kbds: seq<nat>, a: Assignment, i: nat)
    requires FirstCome(devs, kbds, a, i) && i < |devs|
    requires forall k :: 0 <= k < |kbds| ==> kbds[k] < |devs| && IsKeyboard(devs[kbds[k]])
    requires forall d :: 0 <= d < |devs| && IsKeyboard(devs[d]) ==> d in kbds
    requires forall k :: 0 <= k < |kbds| && a[k].None? ==> !SameMac(devs[i], devs[kbds[k]])
    ensures Served(devs, i) <==> forall k :: 0 <= k < |a| ==> a[k].Some?
  {
    hide IsKeyboard, IsImu, SameMac;
    forall k | 0 <= k < |a| ensures a[k].None? <==> Unclaimed(devs, devs[kbds[k]], i) {
    }
  }

  /** With more than one free keyboard none is alone. */
  lemma {:induction false} NotAlone(devs: seq<Device>, kbds: seq<nat>, a: Assignment, imu: Device, n: nat)
    requires n <= |kbds| == |a| && forall k :: 0 <= k < |kbds| ==> kbds[k] < |devs|
    requires Survey(devs, kbds, a, imu, n).free > 1
    ensures exists k, l :: 0 <= k < l < n && a[k].None? && a[l].None?
  {
    SurveyFinds(devs, kbds, a, imu, n - 1);
    if Survey(devs, kbds, a, imu, n - 1).free > 1 {
      NotAlone(devs, kbds, a, imu, n - 1);
    }
  }

  /** As long as every IMU is served, each keyboard has the first IMU with its address. */
  lemma {:induction false} ServedInOrder(devs: seq<Device>, kbds: seq<nat>, n: nat)
    requires KeyboardsNamed(devs) && kbds == Keyboards(devs, |devs|) && n <= |devs| && AllServed(devs, n)
    ensures forall k :: 0 <= k < |kbds| ==> kbds[k] < |devs|
    ensures Assign(devs, kbds, n).Some? && FirstCome(devs, kbds, Assign(devs, kbds, n).value, n)
  {
    hide *;
    KeyboardSlots(devs, kbds);
    if n == 0 {
      NothingAssigned(devs, kbds);
    } else {
      ServedBefore(devs, n);
      ServedInOrder(devs, kbds, n - 1);
      var a := Assign(devs, kbds, n - 1).value;
      AssignStep(devs, kbds, n);
      ServedStep(devs, kbds, a, n - 1);
    }
  }

  lemma NothingAssigned(devs: seq<Device>, kbds: seq<nat>)
    requires forall k :: 0 <= k < |kbds| ==> kbds[k] < |devs|
    ensures Assign(devs, kbds, 0).Some? && FirstCome(devs, kbds, Assign(devs, kbds, 0).value, 0)
  {
  }

  lemma ServedBefore(devs: seq<Device>, n: nat)
    requires 0 < n <= |devs| && AllServed(devs, n)
    ensures AllServed(devs, n - 1) && (IsImu(devs[n - 1]) ==> Served(devs, n - 1))
  {
    hide Served, IsImu;
  }

  lemma AssignStep(devs: seq<Device>, kbds: seq<nat>, n: nat)
    requires 0 < n <= |devs| && forall k :: 0 <= k < |kbds| ==> kbds[k] < |devs|
    requires Assign(devs, kbds, n - 1).Some?
    ensures Assign(devs, kbds, n) == Place(devs, kbds, Assign(devs, kbds, n - 1).value, n - 1)
  {
    hide Place;
  }

  /** A served IMU is placed, by its address or nowhere. */
  lemma ServedStep(devs: seq<Device>, kbds: seq<nat>, a: Assignment, i: nat)
    requires KeyboardsNamed(devs) && kbds == Keyboards(devs, |devs|) && FirstCome(devs, kbds, a, i)
    requires i < |devs| && |a| == |kbds| && (IsImu(devs[i]) ==> Served(devs, i))
    requires forall k :: 0 <= k < |kbds| ==> kbds[k] < |devs|
    ensures var b := Place(devs, kbds, a, i);
            b.Some? && FirstCome(devs, kbds, b.value, i + 1)
  {
    hide *;
    if !IsImu(devs[i]) {
      PlaceOther(devs, kbds, a, i);
      FirstComeSkip(devs, kbds, a, i);
    } else if k :| 0 <= k < |kbds| && a[k].None? && SameMac(devs[i], devs[kbds[k]]) {
      MatchTaken(devs, kbds, a, i, k);
    } else {
      NoMatch(devs, kbds, a, i);
      FirstComeSkip(devs, kbds, a, i);
    }
  }

  lemma PlaceOther(devs: seq<Device>, kbds: seq<nat>, a: Assignment, i: nat)
    requires i < |devs| && |kbds| == |a| && !IsImu(devs[i])
    requires forall k :: 0 <= k < |kbds| ==> kbds[k] < |devs|
    ensures Place(devs, kbds, a, i) == Some(a)
  {
    hide IsImu;
  }

  /** What happens to the first IMU that is not served: when a single keyboard is left, it takes it
      although the addresses differ; otherwise the set is ambiguous. */
  lemma FallbackTakes(devs: seq<Device>, kbds: seq<nat>, i: nat)
    requires KeyboardsNamed(devs) && kbds == Keyboards(devs, |devs|)
    requires i < |devs| && IsImu(devs[i]) && AllServed(devs, i) && !Served(devs, i)
    ensures forall k :: 0 <= k < |kbds| ==> kbds[k] < |devs|
    ensures Assign(devs, kbds, i).Some?
    ensures var a := Assign(devs, kbds, i).value;
            && FirstCome(devs, kbds, a, i)
            && if exists k: nat :: TakenBy(devs, kbds, a, i, k) then
                 exists k: nat :: TakenBy(devs, kbds, a, i, k) && Assign(devs, kbds, i + 1) == Some(a[k := Some(i)])
               else Assign(devs, kbds, i + 1) == None
  {
    ServedInOrder(devs, kbds, i);
    var a := Assign(devs, kbds, i).value;
    hide IsKeyboard, SameMac, Keyboards, Survey, Served, KeyboardsNamed, FirstCome;
    if k :| 0 <= k < |kbds| && a[k].None? && SameMac(devs[i], devs[kbds[k]]) {
      MatchTaken(devs, kbds, a, i, k);
      assert false;
    }
    NoMatch(devs, kbds, a, i);
  }

  /** Once an IMU has been left unserved, pairing fails or pairs by something else than the address. */
  lemma {:induction false} Misfit(devs: seq<Device>, kbds: seq<nat>, n: nat)
    requires KeyboardsNamed(devs) && kbds == Keyboards(devs, |devs|) && n <= |devs| && !AllServed(devs, n)
    ensures forall k :: 0 <= k < |kbds| ==> kbds[k] < |devs|
    ensures Assign(devs, kbds, n).Some? ==> !ByAddress(devs, kbds, Assign(devs, kbds, n).value)
  {
    KeyboardSlots(devs, kbds);
    hide IsKeyboard, SameMac, Keyboards, Served, KeyboardsNamed;
    var i := n - 1;
    if AllServed(devs, i) {
      FallbackTakes(devs, kbds, i);
      var a := Assign(devs, kbds, i).value;
      if Assign(devs, kbds, n).Some? {
        var k: nat :| TakenBy(devs, kbds, a, i, k) && Assign(devs, kbds, n) == Some(a[k := Some(i)]);
        assert a[k := Some(i)][k] == Some(i);
      }
    } else {
      Misfit(devs, kbds, i);
      if Assign(devs, kbds, n).Some? {
        MisfitStays(devs, kbds, Assign(devs, kbds, i).value, i);
      }
    }
  }

  /** Assignments are never undone. */
  lemma MisfitStays(devs: seq<Device>, kbds: seq<nat>, a: Assignment, i: nat)
    requires i < |devs| && |a| == |kbds| && forall k :: 0 <= k < |kbds| ==> kbds[k] < |devs|
    requires Place(devs, kbds, a, i).Some? && !ByAddress(devs, kbds, a)
    ensures !ByAddress(devs, kbds, Place(devs, kbds, a, i).value)
  {
    SurveyFinds(devs, kbds, a, devs[i], |kbds|);
    hide Survey, SameMac, IsImu;
    var b := Place(devs, kbds, a, i).value;
    assert forall k :: 0 <= k < |a| && a[k].Some? ==> b[k] == a[k];
  }

  /** With keyboards that have addresses of their own: pairing succeeds and pairs by address exactly when
      every IMU is the first with the address of some keyboard, or comes after all keyboards have been
      claimed; each keyboard then has the first IMU with its address. */
  lemma AddressJoinIff(devs: seq<Device>)
    requires KeyboardsNamed(devs)
    ensures var kbds := Keyboards(devs, |devs|);
            Assigned(devs).Some? && ByAddress(devs, kbds, Assigned(devs).value) <==> AllServed(devs, |devs|)
    ensures AllServed(devs, |devs|) ==>
              FirstCome(devs, Keyboards(devs, |devs|), Assigned(devs).value, |devs|)
  {
    var kbds := Keyboards(devs, |devs|);
    KeyboardSlots(devs, kbds);
    hide IsKeyboard, SameMac, IsImu, Keyboards, Served, KeyboardsNamed, AllServed, Assign, Unclaimed;
    if AllServed(devs, |devs|) {
      ServedInOrder(devs, kbds, |devs|);
    } else {
      Misfit(devs, kbds, |devs|);
    }
  }

  // ------------------------------------------------------------------
  // The fallback is greedy
  // ------------------------------------------------------------------

  const KBD: Device := Device("/dev/input/event1", "LG Magic Remote", "A", 0x000f, 0x3412)
  const NAMELESS: Device := Device("/dev/input/event2", "LG Magic Remote IMU", "", 0x000f, 0x3412)
  const NAMED: Device := Device("/dev/input/event3", "LG Magic Remote IMU", "A", 0x000f, 0x3412)

  lemma NamesDiffer()
    ensures IsKeyboard(KBD) && !IsImu(KBD) && !IsKeyboard(NAMELESS) && IsImu(NAMELESS)
    ensures !IsKeyboard(NAMED) && IsImu(NAMED)
    ensures SameMac(NAMED, KBD) && !SameMac(NAMELESS, KBD)
  {
    assert |"LG Magic Remote"| != |"LG Magic Remote IMU"|;
  }

  /** An IMU without an address takes the only keyboard when it comes before the IMU that has the
      keyboard's address, so the result depends on the order. */
  lemma FallbackIsGreedy()
    ensures Keyboards([KBD, NAMELESS, NAMED], 3) == [0] && Keyboards([KBD, NAMED, NAMELESS], 3) == [0]
    ensures Assign([KBD, NAMELESS, NAMED], [0], 3) == Some([Some(1)])
    ensures Assign([KBD, NAMED, NAMELESS], [0], 3) == Some([Some(1)])
    ensures RemoteOf([KBD, NAMELESS, NAMED], 0, Some(1)).imu == Some(NAMELESS)
    ensures RemoteOf([KBD, NAMED, NAMELESS], 0, Some(1)).imu == Some(NAMED)
    ensures KeyboardsNamed([KBD, NAMELESS, NAMED]) && !AllServed([KBD, NAMELESS, NAMED], 3)
    ensures KeyboardsNamed([KBD, NAMED, NAMELESS]) && AllServed([KBD, NAMED, NAMELESS], 3)
    ensures Assigned([KBD, NAMELESS, NAMED]).Some? && !ByAddress([KBD, NAMELESS, NAMED], [0], [Some(1)])
    ensures Assigned([KBD, NAMED, NAMELESS]).Some? && ByAddress([KBD, NAMED, NAMELESS], [0], [Some(1)])
  {
    NamesDiffer();
    Fallback([KBD, NAMELESS, NAMED]);
    Fallback([KBD, NAMED, NAMELESS]);
    OrderDecides();
    hide SameMac, IsImu, IsKeyboard, Served, Place, ByAddress;
    AddressJoinIff([KBD, NAMELESS, NAMED]);
    AddressJoinIff([KBD, NAMED, NAMELESS]);
  }

  /** Only the order in which the two IMUs come decides whether the condition holds. */
  lemma OrderDecides()
    ensures KeyboardsNamed([KBD, NAMELESS, NAMED]) && !AllServed([KBD, NAMELESS, NAMED], 3)
    ensures KeyboardsNamed([KBD, NAMED, NAMELESS]) && AllServed([KBD, NAMED, NAMELESS], 3)
  {
    NamesDiffer();
    hide IsKeyboard, IsImu, SameMac;
    var bad, good := [KBD, NAMELESS, NAMED], [KBD, NAMED, NAMELESS];
    assert bad[1] == NAMELESS && Unclaimed(bad, bad[0], 1);
    assert !Served(bad, 1);
    assert Unclaimed(good, good[0], 1) && SameMac(good[1], good[0]);
    assert Served(good, 1);
    assert !Unclaimed(good, good[0], 2);
    assert Served(good, 2);
  }

  lemma Fallback(devs: seq<Device>)
    requires |devs| == 3 && devs[0] == KBD
    requires forall i :: 1 <= i < 3 ==> devs[i] == NAMED || devs[i] == NAMELESS
    ensures Keyboards(devs, 3) == [0] && Assign(devs, [0], 3) == Some([Some(1)])
  {
    hide IsKeyboard, IsImu, SameMac;
    NamesDiffer();
    assert Keyboards(devs, 0) == [];
    assert Keyboards(devs, 1) == [0];
    assert Keyboards(devs, 2) == [0];
    var kbds: seq<nat> := [0];
    assert Unassigned(0) == [];
    assert Unassigned(1) == [None];
    var a1: Assignment := [None];
    assert Assign(devs, kbds, 0) == Some(a1);
    assert Assign(devs, kbds, 1) == Some(a1);
    assert Survey(devs, kbds, a1, devs[1], 0) == Candidates(0, -1, 0, -1);
    assert Place(devs, kbds, a1, 1) == Some(a1[0 := Some(1)]);
    var a2: Assignment := [Some(1)];
    assert a1[0 := Some(1)] == a2;
    assert Assign(devs, kbds, 2) == Some(a2);
    assert Survey(devs, kbds, a2, devs[2], 0) == Candidates(0, -1, 0, -1);
    assert Place(devs, kbds, a2, 2) == Some(a2);
  }

  // ------------------------------------------------------------------
  // The program
  // ------------------------------------------------------------------

  /** uniq_eq. */
  method UniqEq(a: string, b: string) returns (eq: bool)
    ensures eq <==> SameUniq(a, b)
  {
    var i := 0;
    while i < |a| && i < |b|
      invariant 0 <= i <= |a| && i <= |b|
      invariant forall j :: 0 <= j < i ==> Lower(a[j]) == Lower(b[j])
    {
      if Lower(a[i]) != Lower(b[i]) {
        return false;
      }
      i := i + 1;
    }
    return i == |a| && i == |b|;
  }

  /** The candidates of one IMU. */
  method FindCandidates(devs: seq<Device>, kbds: seq<nat>, a: Assignment, imu: Device) returns (c: Candidates)
    requires |kbds| == |a| && forall k :: 0 <= k < |kbds| ==> kbds[k] < |devs|
    ensures c == Survey(devs, kbds, a, imu, |kbds|)
  {
    c := Candidates(0, -1, 0, -1);
    for k := 0 to |kbds|
      invariant c == Survey(devs, kbds, a, imu, k)
    {
      if a[k].Some? {
        continue;
      }
      c := c.(free := c.free + 1, lastFree := k);
      if imu.uniq != "" {
        var eq := UniqEq(imu.uniq, devs[kbds[k]].uniq);
        if eq {
          c := c.(matches := c.matches + 1, lastMatch := k);
        }
      }
    }
  }

  /** The pairing loop: the assignment, or None on an ambiguous set. */
  method PairImus(devs: seq<Device>, kbds: seq<nat>) returns (r: Option<Assignment>)
    requires forall k :: 0 <= k < |kbds| ==> kbds[k] < |devs|
    ensures r == Assign(devs, kbds, |devs|)
  {
    var a := Unassigned(|kbds|);
    for i := 0 to |devs|
      invariant Assign(devs, kbds, i) == Some(a)
    {
      if !IsImu(devs[i]) {
        continue;
      }
      var c := FindCandidates(devs, kbds, a, devs[i]);
      SurveyFinds(devs, kbds, a, devs[i], |kbds|);
      if c.matches > 1 {
        StaysAmbiguous(devs, kbds, i + 1);
        return None;
      }
      if c.matches == 1 {
        a := a[c.lastMatch := Some(i)];
      } else if c.free == 1 {
        a := a[c.lastFree := Some(i)];
      } else if c.free != 0 {
        StaysAmbiguous(devs, kbds, i + 1);
        return None;
      }
    }
    return Some(a);
  }

  lemma {:induction false} StaysAmbiguous(devs: seq<Device>, kbds: seq<nat>, n: nat)
    requires n <= |devs| && (forall k :: 0 <= k < |kbds| ==> kbds[k] < |devs|) && Assign(devs, kbds, n).None?
    ensures Assign(devs, kbds, |devs|).None?
    decreases |devs| - n
  {
    if n < |devs| {
      StaysAmbiguous(devs, kbds, n + 1);
    }
  }

  lemma {:induction false} RemotesMean(devs: seq<Device>, kbds: seq<nat>, a: Assignment, out: seq<Remote>, outsz: nat)
    requires kbds == Keyboards(devs, |devs|) && Emitted(devs, kbds, a, out, outsz)
    requires forall k :: 0 <= k < |a| && a[k].Some? ==> IsImu(devs[a[k].value])
    ensures forall r :: r in out ==> RemoteIs(devs, r)
  {
    KeyboardsInOrder(devs, |devs|);
    forall r | r in out ensures RemoteIs(devs, r) {
      var k :| 0 <= k < |out| && out[k] == r;
      RemoteMeans(devs, kbds[k], a[k]);
    }
  }

  /** pairing_match: one remote per keyboard in input order, up to outsz of them; None when the set is
      ambiguous. */
  method Match(devs: seq<Device>, outsz: nat) returns (out: Option<seq<Remote>>)
    ensures out.Some? <==> Assigned(devs).Some?
    ensures out.Some? ==> Emitted(devs, Keyboards(devs, |devs|), Assigned(devs).value, out.value, outsz)
    ensures out.Some? ==> forall r :: r in out.value ==> RemoteIs(devs, r)
  {
    hide RemoteIs, RemoteOf, IsImu, Survey, Place, Assign;
    var kbds: seq<nat> := [];
    for i := 0 to |devs|
      invariant kbds == Keyboards(devs, i)
    {
      if IsKeyboard(devs[i]) {
        kbds := kbds + [i];
      } else {
        assert kbds + [] == kbds;
      }
    }
    KeyboardsInOrder(devs, |devs|);
    var r := PairImus(devs, kbds);
    if r.None? {
      return None;
    }
    AssignInjective(devs, kbds, |devs|);
    var remotes: seq<Remote> := [];
    var k := 0;
    while k < |kbds| && k < outsz
      invariant 0 <= k <= |kbds| && k <= outsz && |remotes| == k
      invariant forall l :: 0 <= l < k ==> remotes[l] == RemoteOf(devs, kbds[l], r.value[l])
    {
      remotes := remotes + [RemoteOf(devs, kbds[k], r.value[k])];
      k := k + 1;
    }
    RemotesMean(devs, kbds, r.value, remotes, outsz);
    return Some(remotes);
  }
}
