/**
 The daemon's remotes across a rescan of the input devices (tools/src/daemon_devices.c): which remote
 owns which file descriptor, and which poll entry stands for which descriptor.
 */
module Devices {
  import opened Wrappers
  import opened Strings
  import opened Pairing
  import opened DaemonConfig

  /** A remote with its descriptors, -1 where there is none.  `session` stands for its configuration and
      pipeline, which move with it. */
  datatype OpenRemote = OpenRemote(
    identity: string,
    kbdPath: string,
    imuPath: string,
    kbd: int,
    imu: int,
    kbdUinput: int,
    mouseUinput: int,
    grabbed: bool,
    session: int)

  /** A slot that has been moved out of. */
  const VACANT: OpenRemote := OpenRemote("", "", "", -1, -1, -1, -1, false, 0)

  function One(fd: int): multiset<int> { if fd >= 0 then multiset{fd} else multiset{} }

  lemma OneNone(fd: int)
    ensures fd < 0 ==> One(fd) == multiset{}
  {
  }

  /** The descriptors of a remote. */
  function Owned(r: OpenRemote): multiset<int> { One(r.kbd) + One(r.imu) + One(r.kbdUinput) + One(r.mouseUinput) }

  function Total(rs: seq<OpenRemote>): multiset<int> {
    if rs == [] then multiset{} else Owned(rs[0]) + Total(rs[1..])
  }

  lemma {:induction false} TotalAppend(rs: seq<OpenRemote>, r: OpenRemote)
    ensures Total(rs + [r]) == Total(rs) + Owned(r)
  {
    if rs == [] {
      assert rs + [r] == [r];
    } else {
      assert (rs + [r])[1..] == rs[1..] + [r];
      TotalAppend(rs[1..], r);
    }
  }

  lemma {:induction false} TotalUpdate(rs: seq<OpenRemote>, j: nat, r: OpenRemote)
    requires j < |rs|
    ensures Total(rs[j := r]) + Owned(rs[j]) == Total(rs) + Owned(r)
  {
    hide Owned;
    var s := rs[j := r];
    if j == 0 {
      assert s[1..] == rs[1..];
    } else {
      assert s[0] == rs[0] && s[1..] == rs[1..][j - 1 := r];
      TotalUpdate(rs[1..], j - 1, r);
      assert Total(s) + Owned(rs[j]) == Owned(rs[0]) + (Total(s[1..]) + Owned(rs[j]));
      assert Total(rs) + Owned(r) == Owned(rs[0]) + (Total(rs[1..]) + Owned(r));
    }
  }

  lemma {:induction false} TotalHas(rs: seq<OpenRemote>, j: nat)
    requires j < |rs|
    ensures Owned(rs[j]) <= Total(rs)
  {
    hide Owned;
    if j > 0 {
      TotalHas(rs[1..], j - 1);
    }
  }

  /** Taking the descriptors of r away one by one. */
  lemma OwnedParts(r: OpenRemote, m: multiset<int>)
    ensures Owned(r) <= m ==>
              && One(r.kbd) <= m && One(r.imu) <= m - One(r.kbd)
              && One(r.kbdUinput) <= m - One(r.kbd) - One(r.imu)
              && One(r.mouseUinput) <= m - One(r.kbd) - One(r.imu) - One(r.kbdUinput)
              && m - Owned(r) == m - One(r.kbd) - One(r.imu) - One(r.kbdUinput) - One(r.mouseUinput)
  {
    hide One;
  }

  // ------------------------------------------------------------------
  // Descriptors
  // ------------------------------------------------------------------

  /** The descriptor table.  Numbers are never reused, so that a second close shows. */
  class Kernel {
    var open_: set<int>
    var next: int
    /** Closes of descriptors that were not open. */
    ghost var stale: seq<int>

    constructor ()
      ensures Valid() && open_ == {} && stale == []
    {
      open_, next, stale := {}, 0, [];
    }

    ghost predicate Valid()
      reads this
    {
      next >= 0 && forall fd :: fd in open_ ==> 0 <= fd < next
    }

    method Open(ok: bool) returns (fd: int)
      requires Valid()
      modifies this
      ensures Valid() && stale == old(stale)
      ensures ok ==> fd == old(next) && next == fd + 1 && open_ == old(open_) + {fd} && fd !in old(open_)
      ensures !ok ==> fd == -1 && next == old(next) && open_ == old(open_)
      ensures multiset(open_) == multiset(old(open_)) + One(fd)
    {
      if !ok {
        return -1;
      }
      fd := next;
      next := next + 1;
      open_ := open_ + {fd};
    }

    method Close(fd: int)
      requires Valid()
      modifies this
      ensures Valid() && next == old(next)
      ensures One(fd) <= multiset(old(open_)) ==>
                multiset(open_) == multiset(old(open_)) - One(fd) && stale == old(stale)
      ensures fd !in old(open_) ==>
                open_ == old(open_) && stale == old(stale) + if fd >= 0 then [fd] else []
    {
      if fd < 0 {
        return;
      }
      if fd !in open_ {
        stale := stale + [fd];
      }
      open_ := open_ - {fd};
    }

    /** remote_free: evdev_close forgets its descriptors, uinput_close does not. */
    method Free(r: OpenRemote) returns (after: OpenRemote)
      requires Valid()
      modifies this
      ensures Valid() && next == old(next) && after == r.(kbd := -1, imu := -1)
      ensures Owned(r) <= multiset(old(open_)) ==>
                multiset(open_) == multiset(old(open_)) - Owned(r) && stale == old(stale)
      ensures r.kbd < 0 && r.imu < 0 && r.kbdUinput !in old(open_) && r.mouseUinput !in old(open_) ==>
                open_ == old(open_) &&
                stale == old(stale) + (if r.kbdUinput >= 0 then [r.kbdUinput] else [])
                                    + (if r.mouseUinput >= 0 then [r.mouseUinput] else [])
    {
      OwnedParts(r, multiset(open_));
      OneNone(r.kbd);
      OneNone(r.imu);
      hide One, Owned;
      Close(r.kbd);
      Close(r.imu);
      Close(r.kbdUinput);
      Close(r.mouseUinput);
      after := r.(kbd := -1, imu := -1);
    }
  }

  // ------------------------------------------------------------------
  // Opening and rescanning
  // ------------------------------------------------------------------

  /** How the system calls of opening one remote turn out. */
  datatype OpenLuck = OpenLuck(kbdUinput: bool, mouseUinput: bool, kbd: bool, grab: bool, imu: bool)

  /** The virtual pair is made, but then the keyboard cannot be opened. */
  predicate PairWasted(luck: OpenLuck) { luck.kbdUinput && luck.mouseUinput && !luck.kbd }

  /** What became of an old remote. */
  datatype Fate = Kept | Moved(slot: nat)

  /** A grabbed keyboard has an open virtual pair to go to. */
  predicate Safe(r: OpenRemote, noUinput: bool) {
    r.grabbed ==> noUinput || (r.kbdUinput >= 0 && r.mouseUinput >= 0)
  }

  predicate AllSafe(rs: seq<OpenRemote>, noUinput: bool) { forall i :: 0 <= i < |rs| ==> Safe(rs[i], noUinput) }

  predicate AllNamed(rs: seq<OpenRemote>) { forall i :: 0 <= i < |rs| ==> rs[i].identity != "" }

  /** Every descriptor of r was opened after `start`. */
  ghost predicate Since(r: OpenRemote, start: int) {
    && (r.kbd < 0 || r.kbd >= start) && (r.imu < 0 || r.imu >= start)
    && (r.kbdUinput < 0 || r.kbdUinput >= start) && (r.mouseUinput < 0 || r.mouseUinput >= start)
  }

  predicate Unchanged(e: OpenRemote, identity: string, kbdPath: string, imuPath: string) {
    e.identity == identity && e.kbdPath == kbdPath && e.imuPath == imuPath
  }

  /** Identities reach file paths, so anything but an address becomes "unknown". */
  function IdentityOf(uniq: string): (r: string)
    ensures r != ""
  {
    if ValidIdentity(uniq) then uniq else "unknown"
  }

  predicate HexIn(c: char) { c in "0123456789" || c in "abcdef" || c in "ABCDEF" }

  lemma HexIs(c: char)
    ensures IsHex(c) <==> HexIn(c)
  {
    if IsDigit(c) {
      assert c == "0123456789"[c as int - '0' as int];
    }
    if 'a' <= c <= 'f' {
      assert c == "abcdef"[c as int - 'a' as int];
    }
    if 'A' <= c <= 'F' {
      assert c == "ABCDEF"[c as int - 'A' as int];
    }
  }

  predicate PairAt(s: string, i: nat) { i + 1 < |s| && HexIn(s[i]) && HexIn(s[i + 1]) }

  /** Six pairs of hexadecimal digits with colons between them. */
  predicate IsAddress(s: string) {
    && |s| == 17 && PairAt(s, 0) && s[2] == ':' && PairAt(s, 3) && s[5] == ':' && PairAt(s, 6) && s[8] == ':'
    && PairAt(s, 9) && s[11] == ':' && PairAt(s, 12) && s[14] == ':' && PairAt(s, 15)
  }

  predicate Third(s: string, g: nat)
    requires |s| == 17 && g < 6
  {
    PairAt(s, 3 * g) && (g < 5 ==> s[3 * g + 2] == ':')
  }

  lemma AddressThirds(s: string)
    requires |s| == 17
    ensures IsAddress(s) <==> forall g :: 0 <= g < 6 ==> Third(s, g)
  {
    hide PairAt;
    assert IsAddress(s) <==> Third(s, 0) && Third(s, 1) && Third(s, 2) && Third(s, 3) && Third(s, 4) && Third(s, 5);
    hide Third;
  }

  predicate CharAt(s: string, i: nat)
    requires i < |s|
  {
    if i % 3 == 2 then s[i] == ':' else IsHex(s[i])
  }

  lemma ThirdIs(s: string, g: nat)
    requires |s| == 17 && g < 6
    ensures Third(s, g) <==> CharAt(s, 3 * g) && CharAt(s, 3 * g + 1) && (g < 5 ==> CharAt(s, 3 * g + 2))
  {
    HexIs(s[3 * g]);
    HexIs(s[3 * g + 1]);
    hide HexIn, IsHex;
    assert (3 * g) % 3 == 0 && (3 * g + 1) % 3 == 1 && (3 * g + 2) % 3 == 2;
  }

  lemma CharsAre(s: string)
    requires |s| == 17
    ensures ValidIdentity(s) <==> forall i :: 0 <= i < 17 ==> CharAt(s, i)
  {
    hide IsHex;
    if ValidIdentity(s) {
      forall i | 0 <= i < 17 ensures CharAt(s, i) {
        var _ := s[i];
      }
    } else {
      var i :| 0 <= i < 17 && !(if i % 3 == 2 then s[i] == ':' else IsHex(s[i]));
      assert !CharAt(s, i);
    }
  }

  lemma ThirdsHold(s: string)
    requires |s| == 17
    ensures (forall g :: 0 <= g < 6 ==> Third(s, g)) <==> forall i :: 0 <= i < 17 ==> CharAt(s, i)
  {
    hide CharAt, Third;
    if forall i :: 0 <= i < 17 ==> CharAt(s, i) {
      forall g | 0 <= g < 6 ensures Third(s, g) {
        ThirdIs(s, g);
      }
    }
    if forall g :: 0 <= g < 6 ==> Third(s, g) {
      forall i | 0 <= i < 17 ensures CharAt(s, i) {
        ThirdIs(s, i / 3);
      }
    }
  }

  lemma AddressIs(s: string)
    requires |s| == 17
    ensures ValidIdentity(s) <==> IsAddress(s)
  {
    AddressThirds(s);
    CharsAre(s);
    ThirdsHold(s);
    hide *;
  }

  /** A remote is known by its address, and by "unknown" when it has none. */
  lemma IdentityIs(uniq: string)
    ensures IdentityOf(uniq) == if IsAddress(uniq) then uniq else "unknown"
  {
    if |uniq| == 17 {
      AddressIs(uniq);
    }
  }

  function ImuPathOf(pr: Remote): string { if pr.imu.Some? then pr.imu.value.path else "" }

  predicate MatchesPair(e: OpenRemote, pr: Remote) {
    Unchanged(e, IdentityOf(pr.uniq), pr.keyboard.path, ImuPathOf(pr))
  }

  /** The first old remote from slot i on that the pair leaves unchanged. */
  function FirstUnchanged(olds: seq<OpenRemote>, pr: Remote, i: nat): (j: nat)
    requires i <= |olds|
    ensures i <= j <= |olds| && (j < |olds| ==> MatchesPair(olds[j], pr))
    ensures forall l :: i <= l < j ==> !MatchesPair(olds[l], pr)
    decreases |olds| - i
  {
    if i == |olds| || MatchesPair(olds[i], pr) then i else FirstUnchanged(olds, pr, i + 1)
  }

  predicate Opens(luck: OpenLuck, noUinput: bool) {
    (noUinput || (luck.kbdUinput && luck.mouseUinput)) && luck.kbd
  }

  /** r is what opening the pair leaves: its IMU, too, unless that failed. */
  predicate OpenedAs(r: OpenRemote, pr: Remote, luck: OpenLuck) {
    && r.identity == IdentityOf(pr.uniq) && r.kbdPath == pr.keyboard.path && r.kbd >= 0
    && r.imuPath == (if luck.imu then ImuPathOf(pr) else "") && (r.imuPath != "" <==> r.imu >= 0)
    && r.grabbed == luck.grab
  }

  /** What has been opened for a pair is recognised as unchanged by the next rescan exactly when its IMU did
      not fail to open. */
  lemma ReopenedIff(r: OpenRemote, pr: Remote, luck: OpenLuck)
    requires OpenedAs(r, pr, luck)
    ensures MatchesPair(r, pr) <==> luck.imu || ImuPathOf(pr) == ""
  {
  }

  /** Where a new remote comes from: an old slot, or the i-th pair. */
  datatype Origin = Old(j: nat) | Opened(i: nat)

  /** The origins of the new remotes, what is left of the old ones, and whether a virtual pair has been
      made in vain. */
  datatype Plan = Plan(origins: seq<Origin>, olds: seq<OpenRemote>, wasted: bool)

  /** What becomes of the first i pairs, and what they leave of the old remotes. */
  function PlanOf(prs: seq<Remote>, lucks: seq<OpenLuck>, pinned: Option<string>, noUinput: bool,
                  was: seq<OpenRemote>, i: nat): Plan
    requires i <= |prs| <= |lucks|
  {
    if i == 0 then Plan([], was, false)
    else
      var before, pr := PlanOf(prs, lucks, pinned, noUinput, was, i - 1), prs[i - 1];
      if pinned.Some? && pr.keyboard.path != pinned.value then before
      else
        var j := FirstUnchanged(before.olds, pr, 0);
        if j < |before.olds| then before.(origins := before.origins + [Old(j)], olds := before.olds[j := VACANT])
        else if Opens(lucks[i - 1], noUinput) then before.(origins := before.origins + [Opened(i - 1)])
        else before.(wasted := before.wasted || (!noUinput && PairWasted(lucks[i - 1])))
  }

  /** The old remote goes by the pair's name and has its keyboard's path and its IMU's, "" without an IMU. */
  ghost predicate Fits(e: OpenRemote, pr: Remote) {
    && e.identity == IdentityOf(pr.uniq) && e.kbdPath == pr.keyboard.path
    && (pr.imu.Some? ==> e.imuPath == pr.imu.value.path) && (pr.imu.None? ==> e.imuPath == "")
  }

  /** What the rescan does about one pair.  With a pinned keyboard any other pair is passed over.  The first
      old remote that fits is moved and an empty slot is left behind.  When none fits the pair is opened, which
      needs its keyboard and, unless virtual devices are off, both of those; they are made in vain when only
      the keyboard fails. */
  lemma PlanMeans(prs: seq<Remote>, lucks: seq<OpenLuck>, pinned: Option<string>, noUinput: bool,
                  was: seq<OpenRemote>, i: nat)
    requires i < |prs| <= |lucks|
    ensures PlanOf(prs, lucks, pinned, noUinput, was, 0) == Plan([], was, false)
    ensures var p, q := PlanOf(prs, lucks, pinned, noUinput, was, i), PlanOf(prs, lucks, pinned, noUinput, was, i + 1);
            var pr, luck := prs[i], lucks[i];
            if pinned.Some? && pr.keyboard.path != pinned.value then q == p
            else
              && (forall j: nat :: j < |p.olds| && Fits(p.olds[j], pr)
                                   && (forall l :: 0 <= l < j ==> !Fits(p.olds[l], pr)) ==>
                    q == Plan(p.origins + [Old(j)],
                              p.olds[j := OpenRemote("", "", "", -1, -1, -1, -1, false, 0)], p.wasted))
              && ((forall l :: 0 <= l < |p.olds| ==> !Fits(p.olds[l], pr)) ==>
                    && q.olds == p.olds
                    && q.origins == p.origins + (if luck.kbd && (noUinput || (luck.kbdUinput && luck.mouseUinput))
                                                 then [Opened(i)] else [])
                    && q.wasted == (p.wasted || (!noUinput && luck.kbdUinput && luck.mouseUinput && !luck.kbd)))
  {
    var p, pr := PlanOf(prs, lucks, pinned, noUinput, was, i), prs[i];
    PlanUnfolds(prs, lucks, pinned, noUinput, was, i);
    hide PlanOf;
    forall j: nat | j <= |p.olds| && (j < |p.olds| ==> Fits(p.olds[j], pr))
                    && forall l :: 0 <= l < j ==> !Fits(p.olds[l], pr)
      ensures FirstUnchanged(p.olds, pr, 0) == j
    {
      FirstFits(p.olds, pr, j);
    }
    hide Fits, MatchesPair, FirstUnchanged;
    assert p.origins + [] == p.origins;
  }

  lemma PlanUnfolds(prs: seq<Remote>, lucks: seq<OpenLuck>, pinned: Option<string>, noUinput: bool,
                    was: seq<OpenRemote>, i: nat)
    requires i < |prs| <= |lucks|
    ensures PlanOf(prs, lucks, pinned, noUinput, was, 0) == Plan([], was, false)
    ensures var p, q := PlanOf(prs, lucks, pinned, noUinput, was, i), PlanOf(prs, lucks, pinned, noUinput, was, i + 1);
            var j := FirstUnchanged(p.olds, prs[i], 0);
            q == if pinned.Some? && prs[i].keyboard.path != pinned.value then p
                 else if j < |p.olds| then p.(origins := p.origins + [Old(j)], olds := p.olds[j := VACANT])
                 else if Opens(lucks[i], noUinput) then p.(origins := p.origins + [Opened(i)])
                 else p.(wasted := p.wasted || (!noUinput && PairWasted(lucks[i])))
  {
    hide FirstUnchanged, Opens, PairWasted;
  }

  lemma FirstFits(olds: seq<OpenRemote>, pr: Remote, j: nat)
    requires j <= |olds| && (j < |olds| ==> Fits(olds[j], pr)) && forall l :: 0 <= l < j ==> !Fits(olds[l], pr)
    ensures FirstUnchanged(olds, pr, 0) == j
  {
    forall e: OpenRemote ensures Fits(e, pr) <==> MatchesPair(e, pr) {
    }
    hide Fits, MatchesPair;
    var first := FirstUnchanged(olds, pr, 0);
  }

  /** The new remotes come from where the plan says. */
  ghost predicate Planned(prs: seq<Remote>, lucks: seq<OpenLuck>, was: seq<OpenRemote>, news: seq<OpenRemote>,
                          origins: seq<Origin>)
  {
    && |news| == |origins|
    && forall k :: 0 <= k < |news| ==>
         match origins[k]
         case Old(j) => j < |was| && news[k] == was[j]
         case Opened(i) => i < |prs| && i < |lucks| && OpenedAs(news[k], prs[i], lucks[i])
  }

  lemma PlannedStart(prs: seq<Remote>, lucks: seq<OpenLuck>, was: seq<OpenRemote>)
    ensures Planned(prs, lucks, was, [], [])
  {
  }

  /** The pairs that pairing_match emits for a scan. */
  ghost predicate Pairs(devs: seq<Device>, prs: seq<Remote>) {
    Assigned(devs).Some? && Emitted(devs, Keyboards(devs, |devs|), Assigned(devs).value, prs, |devs|)
  }

  /** One round of the rescan follows the plan. */
  lemma PlannedNext(prs: seq<Remote>, lucks: seq<OpenLuck>, noUinput: bool, was: seq<OpenRemote>, news: seq<OpenRemote>,
                    news': seq<OpenRemote>, plan: Plan, i: nat)
    requires i < |prs| <= |lucks| && Planned(prs, lucks, was, news, plan.origins)
    requires var j := FirstUnchanged(plan.olds, prs[i], 0);
             if j < |plan.olds| then j < |was| && news' == news + [was[j]]
             else if Opens(lucks[i], noUinput) then
               news' != [] && news' == news + [news'[|news'| - 1]] && OpenedAs(news'[|news'| - 1], prs[i], lucks[i])
             else news' == news
    ensures var j := FirstUnchanged(plan.olds, prs[i], 0);
            Planned(prs, lucks, was, news',
                    if j < |plan.olds| then plan.origins + [Old(j)]
                    else if Opens(lucks[i], noUinput) then plan.origins + [Opened(i)]
                    else plan.origins)
  {
    hide Planned, Opens, OpenedAs;
    var j := FirstUnchanged(plan.olds, prs[i], 0);
    if j < |plan.olds| {
      PlannedOld(prs, lucks, was, news, plan.origins, j);
    } else if Opens(lucks[i], noUinput) {
      PlannedOpened(prs, lucks, was, news, plan.origins, i, news'[|news'| - 1]);
    }
  }

  lemma PlannedOld(prs: seq<Remote>, lucks: seq<OpenLuck>, was: seq<OpenRemote>, news: seq<OpenRemote>,
                   origins: seq<Origin>, j: nat)
    requires Planned(prs, lucks, was, news, origins) && j < |was|
    ensures Planned(prs, lucks, was, news + [was[j]], origins + [Old(j)])
  {
    hide OpenedAs;
  }

  lemma PlannedOpened(prs: seq<Remote>, lucks: seq<OpenLuck>, was: seq<OpenRemote>, news: seq<OpenRemote>,
                      origins: seq<Origin>, i: nat, r: OpenRemote)
    requires Planned(prs, lucks, was, news, origins) && i < |prs| && i < |lucks| && OpenedAs(r, prs[i], lucks[i])
    ensures Planned(prs, lucks, was, news + [r], origins + [Opened(i)])
  {
    hide OpenedAs;
  }

  // ------------------------------------------------------------------
  // Grabs across a rescan
  // ------------------------------------------------------------------

  /** The remote has grabbed the keyboard at this path. */
  predicate Holds(e: OpenRemote, path: string) { e.kbd >= 0 && e.grabbed && e.kbdPath == path }

  ghost predicate Held(rs: seq<OpenRemote>, path: string) {
    exists j :: 0 <= j < |rs| && Holds(rs[j], path)
  }

  /** Grabs exclude each other: one works exactly when no remote still open holds the keyboard. */
  ghost predicate GrabsExclude(prs: seq<Remote>, lucks: seq<OpenLuck>, pinned: Option<string>, noUinput: bool,
                               was: seq<OpenRemote>)
    requires |prs| <= |lucks|
  {
    forall i :: 0 <= i < |prs| ==>
      (lucks[i].grab <==> !Held(PlanOf(prs, lucks, pinned, noUinput, was, i).olds, prs[i].keyboard.path))
  }

  /** A remote that is moved leaves no grab behind; the others hold theirs until the rescan ends. */
  lemma {:induction false} HeldUntilReleased(prs: seq<Remote>, lucks: seq<OpenLuck>, pinned: Option<string>,
                                             noUinput: bool, was: seq<OpenRemote>, i: nat, path: string)
    requires i <= |prs| <= |lucks| && forall l :: 0 <= l < i ==> prs[l].keyboard.path != path
    ensures Held(PlanOf(prs, lucks, pinned, noUinput, was, i).olds, path) <==> Held(was, path)
  {
    hide Opens, PairWasted, Held;
    if i > 0 {
      HeldUntilReleased(prs, lucks, pinned, noUinput, was, i - 1, path);
      var olds := PlanOf(prs, lucks, pinned, noUinput, was, i - 1).olds;
      var j := FirstUnchanged(olds, prs[i - 1], 0);
      if j < |olds| {
        HeldVacated(olds, j, path);
      }
    }
  }

  lemma HeldVacated(olds: seq<OpenRemote>, j: nat, path: string)
    requires j < |olds| && olds[j].kbdPath != path
    ensures Held(olds[j := VACANT], path) <==> Held(olds, path)
  {
    var left := olds[j := VACANT];
    forall l | 0 <= l < |olds| ensures Holds(left[l], path) <==> Holds(olds[l], path) {
    }
  }

  /** A moved remote keeps its grab.  An opened one has grabbed its keyboard exactly when no remote of before
      the rescan held it: reopening loses the grab. */
  lemma GrabbedIff(prs: seq<Remote>, lucks: seq<OpenLuck>, pinned: Option<string>, noUinput: bool,
                   was: seq<OpenRemote>, news: seq<OpenRemote>, origins: seq<Origin>, k: nat)
    requires |prs| <= |lucks| && GrabsExclude(prs, lucks, pinned, noUinput, was)
    requires forall i, l :: 0 <= i < l < |prs| ==> prs[i].keyboard.path != prs[l].keyboard.path
    requires Planned(prs, lucks, was, news, origins) && k < |news|
    ensures match origins[k]
            case Old(j) => j < |was| && news[k].grabbed == was[j].grabbed
            case Opened(i) => i < |prs| && (news[k].grabbed <==> !Held(was, prs[i].keyboard.path))
  {
    hide PlanOf, Held;
    match origins[k]
    case Old(_) =>
    case Opened(i) => HeldUntilReleased(prs, lucks, pinned, noUinput, was, i, prs[i].keyboard.path);
  }

  function OldUpTo(n: nat): (r: seq<Origin>)
    ensures |r| == n && forall k :: 0 <= k < n ==> r[k] == Old(k)
  {
    if n == 0 then [] else OldUpTo(n - 1) + [Old(n - 1)]
  }

  function VacantUpTo(was: seq<OpenRemote>, n: nat): (r: seq<OpenRemote>)
    requires n <= |was|
    ensures |r| == |was| && forall k :: 0 <= k < |was| ==> r[k] == if k < n then VACANT else was[k]
  {
    if n == 0 then was else VacantUpTo(was, n - 1)[n - 1 := VACANT]
  }

  /** Pairs that each leave the old remote of their slot unchanged take the old remotes over in order. */
  lemma {:induction false} UnchangedStays(prs: seq<Remote>, lucks: seq<OpenLuck>, noUinput: bool, was: seq<OpenRemote>,
                                          i: nat)
    requires i <= |prs| == |was| <= |lucks|
    requires forall k :: 0 <= k < |was| ==> MatchesPair(was[k], prs[k])
    ensures PlanOf(prs, lucks, None, noUinput, was, i) == Plan(OldUpTo(i), VacantUpTo(was, i), false)
  {
    hide MatchesPair, FirstUnchanged, Opens, PairWasted;
    if i > 0 {
      UnchangedStays(prs, lucks, noUinput, was, i - 1);
      FirstLeft(VacantUpTo(was, i - 1), prs[i - 1], i - 1);
    }
  }

  lemma FirstLeft(olds: seq<OpenRemote>, pr: Remote, i: nat)
    requires i < |olds| && MatchesPair(olds[i], pr) && forall k :: 0 <= k < i ==> olds[k] == VACANT
    ensures FirstUnchanged(olds, pr, 0) == i
  {
    assert !MatchesPair(VACANT, pr);
    hide FirstUnchanged, MatchesPair;
  }

  /** A rescan that finds the devices as they were keeps every remote in its slot. */
  lemma UnchangedRemotes(prs: seq<Remote>, lucks: seq<OpenLuck>, noUinput: bool, was: seq<OpenRemote>,
                         news: seq<OpenRemote>)
    requires |prs| == |was| <= |lucks|
    requires forall k :: 0 <= k < |was| ==> MatchesPair(was[k], prs[k])
    requires Planned(prs, lucks, was, news, PlanOf(prs, lucks, None, noUinput, was, |prs|).origins)
    ensures news == was && !PlanOf(prs, lucks, None, noUinput, was, |prs|).wasted
  {
    UnchangedStays(prs, lucks, noUinput, was, |prs|);
    hide PlanOf, OpenedAs;
  }

  /** Where the old remotes are: still in their slots, or each in a new slot of its own.  All other new
      slots hold nothing that was open at the start. */
  ghost predicate Accounted(was: seq<OpenRemote>, olds: seq<OpenRemote>, news: seq<OpenRemote>, fates: seq<Fate>,
                            start: int)
  {
    && |olds| == |was| == |fates|
    && (forall j :: 0 <= j < |was| ==>
          match fates[j]
          case Kept => olds[j] == was[j]
          case Moved(k) => olds[j] == VACANT && k < |news| && news[k] == was[j])
    && (forall j, l :: 0 <= j < l < |fates| && fates[j].Moved? && fates[l].Moved? ==> fates[j].slot != fates[l].slot)
    && (forall k :: 0 <= k < |news| ==> Since(news[k], start) || Moved(k) in fates)
  }

  lemma MovedAccounted(was: seq<OpenRemote>, olds: seq<OpenRemote>, news: seq<OpenRemote>, fates: seq<Fate>, start: int,
                       j: nat)
    requires Accounted(was, olds, news, fates, start) && j < |olds| && olds[j].identity != ""
    ensures Accounted(was, olds[j := VACANT], news + [olds[j]], fates[j := Moved(|news|)], start)
  {
    hide Since;
    var fates' := fates[j := Moved(|news|)];
    assert fates[j].Kept?;
    assert fates'[j] == Moved(|news|);
    forall k | 0 <= k < |news| + 1 ensures Since((news + [olds[j]])[k], start) || Moved(k) in fates' {
      if k < |news| && Moved(k) in fates {
        var l :| 0 <= l < |fates| && fates[l] == Moved(k);
        assert fates'[l] == Moved(k);
      }
    }
  }

  lemma OldIsWas(was: seq<OpenRemote>, olds: seq<OpenRemote>, news: seq<OpenRemote>, fates: seq<Fate>, start: int,
                 j: nat)
    requires Accounted(was, olds, news, fates, start) && j < |olds| && olds[j].identity != ""
    ensures j < |was| && olds[j] == was[j]
  {
  }

  lemma OpenedAccounted(was: seq<OpenRemote>, olds: seq<OpenRemote>, news: seq<OpenRemote>, fates: seq<Fate>,
                        start: int, r: OpenRemote)
    requires Accounted(was, olds, news, fates, start) && Since(r, start)
    ensures Accounted(was, olds, news + [r], fates, start)
  {
  }

  lemma TotalMoved(news: seq<OpenRemote>, olds: seq<OpenRemote>, j: nat)
    requires j < |olds|
    ensures Total(news + [olds[j]]) + Total(olds[j := VACANT]) == Total(news) + Total(olds)
  {
    TotalAppend(news, olds[j]);
    TotalUpdate(olds, j, VACANT);
    assert Owned(VACANT) == multiset{};
    Regroup(Total(news), Owned(olds[j]), Total(olds[j := VACANT]), Total(olds));
  }

  lemma Regroup(a: multiset<int>, b: multiset<int>, c: multiset<int>, d: multiset<int>)
    requires c + b == d + multiset{}
    ensures a + b + c == a + d
  {
    assert a + b + c == a + (c + b);
  }

  lemma SameMembers(a: set<int>, b: set<int>)
    requires multiset(a) == multiset(b)
    ensures a == b
  {
    forall x ensures x in a <==> x in b {
      assert x in multiset(a) <==> x in multiset(b);
    }
  }

  /** Closes of descriptors that were not open concern only ones opened since. */
  ghost predicate LaterStale(before: seq<int>, now: seq<int>, start: int) {
    |before| <= |now| && now[..|before|] == before && forall i :: |before| <= i < |now| ==> now[i] >= start
  }

  lemma NothingStale(stale: seq<int>, start: int)
    ensures LaterStale(stale, stale, start)
  {
  }

  lemma AccountedLengths(was: seq<OpenRemote>, olds: seq<OpenRemote>, news: seq<OpenRemote>, fates: seq<Fate>,
                         start: int)
    requires Accounted(was, olds, news, fates, start)
    ensures |was| == |olds| == |fates|
  {
  }

  lemma SafeOld(was: seq<OpenRemote>, olds: seq<OpenRemote>, news: seq<OpenRemote>, fates: seq<Fate>, start: int,
                j: nat, noUinput: bool)
    requires Accounted(was, olds, news, fates, start) && AllSafe(was, noUinput)
    requires j < |olds| && olds[j].identity != ""
    ensures Safe(olds[j], noUinput)
  {
  }

  /** None of the remote's descriptors is open. */
  ghost predicate Gone(r: OpenRemote, open_: set<int>) { forall fd :: fd in Owned(r) ==> fd !in open_ }

  lemma NowGone(r: OpenRemote, before: set<int>, now: set<int>)
    requires Owned(r) <= multiset(before) && multiset(now) == multiset(before) - Owned(r)
    ensures Gone(r, now) && now <= before
  {
    hide Owned;
    forall fd | fd in Owned(r) ensures fd !in now {
      assert multiset(before)[fd] <= 1 && Owned(r)[fd] >= 1;
      assert multiset(now)[fd] == 0;
    }
    forall fd | fd in now ensures fd in before {
      assert fd in multiset(now);
    }
  }

  lemma StillGone(was: seq<OpenRemote>, fates: seq<Fate>, i: nat, before: set<int>, now: set<int>)
    requires |was| == |fates| && i <= |was| && now <= before
    requires forall j :: 0 <= j < i && fates[j].Kept? ==> Gone(was[j], before)
    ensures forall j :: 0 <= j < i && fates[j].Kept? ==> Gone(was[j], now)
  {
  }

  lemma TotalRest(a: multiset<int>, olds: seq<OpenRemote>, i: nat)
    requires i < |olds|
    ensures Owned(olds[i]) <= a + Total(olds[i..])
    ensures a + Total(olds[i..]) - Owned(olds[i]) == a + Total(olds[i + 1..])
    ensures Owned(olds[i]) == multiset{} ==> a + Total(olds[i..]) == a + Total(olds[i + 1..])
  {
    hide Owned;
    assert olds[i..][1..] == olds[i + 1..];
    var o, t := Owned(olds[i]), Total(olds[i + 1..]);
    assert Total(olds[i..]) == o + t;
    assert a + (o + t) - o == a + t;
  }

  lemma OwnedVacant(r: OpenRemote, was: seq<OpenRemote>, olds: seq<OpenRemote>, news: seq<OpenRemote>, fates: seq<Fate>,
                    start: int, i: nat)
    requires Accounted(was, olds, news, fates, start) && AllNamed(was)
    requires i < |olds| && r == olds[i] && r.identity == ""
    ensures Owned(r) == multiset{} && fates[i].Moved?
  {
  }

  function AllKept(n: nat): (r: seq<Fate>)
    ensures |r| == n && forall j :: 0 <= j < n ==> r[j] == Kept
  {
    if n == 0 then [] else AllKept(n - 1) + [Kept]
  }

  /** The old slots once the moved remotes have left them. */
  function Remaining(was: seq<OpenRemote>, fates: seq<Fate>): (r: seq<OpenRemote>)
    ensures |r| == |was|
  {
    if was == [] then []
    else if fates == [] then was
    else [if fates[0].Kept? then was[0] else VACANT] + Remaining(was[1..], fates[1..])
  }

  lemma {:induction false} RemainingAt(was: seq<OpenRemote>, fates: seq<Fate>, j: nat)
    requires |was| == |fates| && j < |was|
    ensures Remaining(was, fates)[j] == if fates[j].Kept? then was[j] else VACANT
  {
    if j > 0 {
      RemainingAt(was[1..], fates[1..], j - 1);
    }
  }

  lemma RemainingIs(was: seq<OpenRemote>, olds: seq<OpenRemote>, news: seq<OpenRemote>, fates: seq<Fate>, start: int)
    requires Accounted(was, olds, news, fates, start)
    ensures Remaining(was, fates) == olds
  {
    forall j | 0 <= j < |was| ensures Remaining(was, fates)[j] == olds[j] {
      RemainingAt(was, fates, j);
    }
  }

  lemma AccountedStart(was: seq<OpenRemote>, start: int)
    ensures Accounted(was, was, [], AllKept(|was|), start)
  {
  }

  lemma TotalNone(olds: seq<OpenRemote>)
    ensures Total([]) + Total(olds) == Total(olds)
  {
  }

  lemma LaterStaleTrans(a: seq<int>, b: seq<int>, c: seq<int>, start: int)
    requires LaterStale(a, b, start) && LaterStale(b, c, start)
    ensures LaterStale(a, c, start) && (c == a <==> a == b && b == c)
  {
    assert c[..|a|] == c[..|b|][..|a|];
    forall i | |a| <= i < |c| ensures c[i] >= start {
      if i < |b| {
        assert c[i] == c[..|b|][i];
      }
    }
  }

  lemma {:induction false} KeyboardsCount(devs: seq<Device>, n: nat)
    requires n <= |devs|
    ensures |Keyboards(devs, n)| <= n
  {
    if n > 0 {
      KeyboardsCount(devs, n - 1);
    }
  }

  class Devices {
    const kernel: Kernel
    const noUinput: bool
    const kbdOverride: Option<string>
    var remotes: seq<OpenRemote>
    var sessions: int

    constructor (kernel: Kernel, noUinput: bool, kbdOverride: Option<string>)
      requires kernel.Valid() && kernel.open_ == {}
      ensures this.kernel == kernel && this.noUinput == noUinput && this.kbdOverride == kbdOverride
      ensures Valid() && remotes == []
    {
      this.kernel, this.noUinput, this.kbdOverride, remotes, sessions := kernel, noUinput, kbdOverride, [], 0;
    }

    /** Every open descriptor is owned by exactly one remote, and every grabbed keyboard has its pair. */
    ghost predicate Valid()
      reads this, kernel
    {
      kernel.Valid() && Total(remotes) == multiset(kernel.open_) && AllNamed(remotes) && AllSafe(remotes, noUinput)
    }

    /** remote_uinput_open: both virtual devices or none. */
    method OpenPair(luck: OpenLuck) returns (ok: bool, kbd: int, mouse: int)
      requires kernel.Valid()
      modifies kernel
      ensures kernel.Valid() && kernel.stale == old(kernel.stale) && kernel.next >= old(kernel.next)
      ensures ok <==> noUinput || (luck.kbdUinput && luck.mouseUinput)
      ensures ok && !noUinput ==> kbd >= old(kernel.next) && mouse > kbd
      ensures !ok || noUinput ==> kbd == -1 && mouse == -1
      ensures multiset(kernel.open_) == multiset(old(kernel.open_)) + One(kbd) + One(mouse)
    {
      if noUinput {
        return true, -1, -1;
      }
      kbd := kernel.Open(luck.kbdUinput);
      if kbd < 0 {
        return false, -1, -1;
      }
      mouse := kernel.Open(luck.mouseUinput);
      if mouse < 0 {
        kernel.Close(kbd);
        return false, -1, -1;
      }
      return true, kbd, mouse;
    }

    /** The keyboard, which is grabbed when that works, and the IMU, which is not. */
    method OpenInputs(r0: OpenRemote, luck: OpenLuck) returns (r: OpenRemote)
      requires kernel.Valid() && r0.kbd == -1 && r0.imu == -1 && !r0.grabbed
      modifies kernel, this`sessions
      ensures kernel.Valid() && kernel.stale == old(kernel.stale) && kernel.next >= old(kernel.next)
      ensures multiset(kernel.open_) == multiset(old(kernel.open_)) + One(r.kbd) + One(r.imu)
      ensures !luck.kbd ==> r == r0
      ensures luck.kbd ==>
                && r.kbd >= old(kernel.next) && (r.imu < 0 || r.imu > r.kbd)
                && r == r0.(kbd := r.kbd, imu := r.imu, imuPath := r.imuPath, grabbed := luck.grab,
                            session := r.session)
                && r.imuPath == (if luck.imu then r0.imuPath else "") && (r.imuPath != "" <==> r.imu >= 0)
    {
      r := r0;
      var kbd := kernel.Open(luck.kbd);
      if kbd < 0 {
        return;
      }
      r := r.(kbd := kbd, grabbed := luck.grab);
      if r.imuPath != "" {
        var imu := kernel.Open(luck.imu);
        r := r.(imu := imu);
        if imu < 0 {
          r := r.(imuPath := "");
        }
      }
      sessions := sessions + 1;
      r := r.(session := sessions);
    }

    /** remote_open: the virtual pair before the grab.  On failure the descriptors have been closed, but
        those of the virtual pair are still in r. */
    method Open(identity: string, kbdPath: string, imuPath: string, luck: OpenLuck) returns (ok: bool, r: OpenRemote)
      requires kernel.Valid() && identity != ""
      modifies kernel, this`sessions
      ensures kernel.Valid() && kernel.stale == old(kernel.stale) && kernel.next >= old(kernel.next)
      ensures ok <==> (noUinput || (luck.kbdUinput && luck.mouseUinput)) && luck.kbd
      ensures ok ==>
                && multiset(kernel.open_) == multiset(old(kernel.open_)) + Owned(r)
                && r.identity == identity && r.kbdPath == kbdPath && r.kbd >= 0
                && r.imuPath == (if luck.imu then imuPath else "") && (r.imuPath != "" <==> r.imu >= 0)
                && r.grabbed == luck.grab && Safe(r, noUinput)
      ensures !ok ==> multiset(kernel.open_) == multiset(old(kernel.open_)) && r.kbd < 0 && r.imu < 0
      ensures !ok ==>
                if !noUinput && PairWasted(luck) then r.kbdUinput >= old(kernel.next) && r.mouseUinput > r.kbdUinput
                else r.kbdUinput < 0 && r.mouseUinput < 0
      ensures Since(r, old(kernel.next))
    {
      hide One;
      ghost var before := multiset(kernel.open_);
      OneNone(-1);
      r := VACANT.(identity := identity, kbdPath := kbdPath, imuPath := imuPath);
      var pair, kbdUinput, mouseUinput := OpenPair(luck);
      if !pair {
        assert Owned(r) == multiset{};
        r := kernel.Free(r);
        return false, r;
      }
      r := r.(kbdUinput := kbdUinput, mouseUinput := mouseUinput);
      assert Owned(r) == One(kbdUinput) + One(mouseUinput);
      r := OpenInputs(r, luck);
      if r.kbd < 0 {
        assert multiset(kernel.open_) == before + Owned(r);
        r := kernel.Free(r);
        assert before + Owned(r) - Owned(r) == before;
        return false, r;
      }
      return true, r;
    }

    /** The old remote with this identity and these paths, or the number of old remotes. */
    method FindOld(olds: seq<OpenRemote>, pr: Remote) returns (j: nat)
      ensures j == FirstUnchanged(olds, pr, 0)
    {
      j := 0;
      while j < |olds|
        invariant j <= |olds|
        invariant FirstUnchanged(olds, pr, 0) == FirstUnchanged(olds, pr, j)
      {
        if MatchesPair(olds[j], pr) {
          return;
        }
        j := j + 1;
      }
    }

    /** remote_open as the rescan uses it: what a failed open leaves is freed once more. */
    method TryOpen(pr: Remote, luck: OpenLuck, ghost start: int) returns (r: Option<OpenRemote>, ghost wasted: bool)
      requires kernel.Valid() && start <= kernel.next
      modifies kernel, this`sessions
      ensures kernel.Valid() && start <= kernel.next
      ensures r.Some? ==>
                && multiset(kernel.open_) == multiset(old(kernel.open_)) + Owned(r.value)
                && Since(r.value, start) && Safe(r.value, noUinput) && OpenedAs(r.value, pr, luck)
                && r.value.identity != ""
      ensures r.Some? <==> Opens(luck, noUinput)
      ensures r.None? ==> multiset(kernel.open_) == multiset(old(kernel.open_))
      ensures wasted <==> !noUinput && PairWasted(luck)
      ensures wasted <==> kernel.stale != old(kernel.stale)
      ensures LaterStale(old(kernel.stale), kernel.stale, start)
    {
      wasted := !noUinput && PairWasted(luck);
      var ok, got := Open(IdentityOf(pr.uniq), pr.keyboard.path, ImuPathOf(pr), luck);
      if ok {
        return Some(got), wasted;
      }
      SameMembers(kernel.open_, old(kernel.open_));
      FreeFailed(got, start);
      return None, wasted;
    }

    /** Freeing what a failed open left closes the virtual devices a second time. */
    method FreeFailed(got: OpenRemote, ghost start: int)
      requires kernel.Valid() && got.kbd < 0 && got.imu < 0
      requires got.kbdUinput !in kernel.open_ && got.mouseUinput !in kernel.open_
      requires || (got.kbdUinput < 0 && got.mouseUinput < 0)
               || (0 <= got.kbdUinput < got.mouseUinput && start <= got.kbdUinput)
      modifies kernel
      ensures kernel.Valid() && kernel.next == old(kernel.next) && kernel.open_ == old(kernel.open_)
      ensures LaterStale(old(kernel.stale), kernel.stale, start)
      ensures got.kbdUinput >= 0 <==> kernel.stale != old(kernel.stale)
    {
      hide Owned, One;
      var _ := kernel.Free(got);
      assert got.kbdUinput >= 0 ==> |kernel.stale| > |old(kernel.stale)|;
    }

    /** One paired remote: moved out of the old ones when nothing about it has changed, else opened. */
    method PlaceOne(pr: Remote, luck: OpenLuck, olds: seq<OpenRemote>, news: seq<OpenRemote>,
                    ghost was: seq<OpenRemote>, ghost fates: seq<Fate>, ghost start: int)
      returns (olds': seq<OpenRemote>, news': seq<OpenRemote>, ghost fates': seq<Fate>, ghost wasted: bool)
      requires kernel.Valid() && start <= kernel.next && AllNamed(was)
      requires Total(news) + Total(olds) == multiset(kernel.open_)
      requires Accounted(was, olds, news, fates, start) && AllNamed(news) && AllSafe(news, noUinput)
      requires AllSafe(was, noUinput)
      modifies kernel, this`sessions
      ensures kernel.Valid() && start <= kernel.next
      ensures Total(news') + Total(olds') == multiset(kernel.open_)
      ensures Accounted(was, olds', news', fates', start) && AllNamed(news') && AllSafe(news', noUinput)
      ensures wasted ==> !noUinput && PairWasted(luck)
      ensures wasted <==> kernel.stale != old(kernel.stale)
      ensures LaterStale(old(kernel.stale), kernel.stale, start)
      ensures var j := FirstUnchanged(olds, pr, 0);
              if j < |olds| then
                && news' == news + [was[j]] && olds' == olds[j := VACANT] && j < |was|
                && !wasted && kernel.open_ == old(kernel.open_)
              else
                && (wasted <==> !noUinput && PairWasted(luck)) && olds' == olds && fates' == fates
                && (if Opens(luck, noUinput) then news' != [] && news' == news + [news'[|news'| - 1]] &&
                                                  OpenedAs(news'[|news'| - 1], pr, luck)
                    else news' == news)
    {
      hide Accounted, Owned, Total, Since, Safe, PairWasted, LaterStale, Opens, OpenedAs;
      NothingStale(kernel.stale, start);
      var j := FindOld(olds, pr);
      if j < |olds| {
        OldIsWas(was, olds, news, fates, start, j);
        news' := news + [olds[j]];
        olds' := olds[j := VACANT];
        assert |fates| == |olds| by {
          AccountedLengths(was, olds, news, fates, start);
        }
        fates' := fates[j := Moved(|news|)];
        wasted := false;
        SafeOld(was, olds, news, fates, start, j, noUinput);
        TotalMoved(news, olds, j);
        MovedAccounted(was, olds, news, fates, start, j);
        return;
      }
      olds', news', fates' := olds, news, fates;
      var r;
      r, wasted := TryOpen(pr, luck, start);
      if r.Some? {
        news' := news + [r.value];
        TotalAppend(news, r.value);
        assert Total(news') + Total(olds) == Total(news) + Total(olds) + Owned(r.value);
        OpenedAccounted(was, olds, news, fates, start, r.value);
      }
    }

    /** Where the rescan stands after the first i pairs. */
    ghost predicate Placing(prs: seq<Remote>, lucks: seq<OpenLuck>, was: seq<OpenRemote>, olds: seq<OpenRemote>,
                            news: seq<OpenRemote>, fates: seq<Fate>, start: int, stale: seq<int>, i: nat)
      requires i <= |prs| <= |lucks|
      reads this, kernel
    {
      && kernel.Valid() && start <= kernel.next && AllNamed(was) && AllSafe(was, noUinput)
      && Total(news) + Total(olds) == multiset(kernel.open_)
      && Accounted(was, olds, news, fates, start) && AllNamed(news) && AllSafe(news, noUinput)
      && LaterStale(stale, kernel.stale, start)
      && var plan := PlanOf(prs, lucks, kbdOverride, noUinput, was, i);
         plan.olds == olds && Planned(prs, lucks, was, news, plan.origins) && (plan.wasted <==> kernel.stale != stale)
    }

    /** One round of the rescan's loop. */
    method PlaceNext(prs: seq<Remote>, lucks: seq<OpenLuck>, i: nat, olds: seq<OpenRemote>, news: seq<OpenRemote>,
                     ghost was: seq<OpenRemote>, ghost fates: seq<Fate>, ghost start: int, ghost stale: seq<int>)
      returns (olds': seq<OpenRemote>, news': seq<OpenRemote>, ghost fates': seq<Fate>)
      requires i < |prs| <= |lucks| && Placing(prs, lucks, was, olds, news, fates, start, stale, i)
      modifies kernel, this`sessions
      ensures Placing(prs, lucks, was, olds', news', fates', start, stale, i + 1)
    {
      olds', news', fates' := olds, news, fates;
      var pr := prs[i];
      if kbdOverride.Some? && pr.keyboard.path != kbdOverride.value {
        return;
      }
      hide Accounted, Total, LaterStale, PairWasted, Planned, OpenedAs, Opens, AllNamed, AllSafe, FirstUnchanged;
      hide Kernel.Valid;
      ghost var mid, plan := kernel.stale, PlanOf(prs, lucks, kbdOverride, noUinput, was, i);
      ghost var w;
      olds', news', fates', w := PlaceOne(pr, lucks[i], olds, news, was, fates, start);
      LaterStaleTrans(stale, mid, kernel.stale, start);
      PlannedNext(prs, lucks, noUinput, was, news, news', plan, i);
    }

    /** The rescan's loop. */
    method PlaceAll(prs: seq<Remote>, lucks: seq<OpenLuck>)
      returns (olds: seq<OpenRemote>, news: seq<OpenRemote>, ghost fates: seq<Fate>)
      requires Valid() && |prs| <= |lucks|
      modifies kernel, this`sessions
      ensures Placing(prs, lucks, remotes, olds, news, fates, old(kernel.next), old(kernel.stale), |prs|)
    {
      hide Accounted, Total, LaterStale, Planned;
      PlannedStart(prs, lucks, remotes);
      ghost var was, start, stale := remotes, kernel.next, kernel.stale;
      olds, news := remotes, [];
      fates := AllKept(|was|);
      AccountedStart(was, start);
      NothingStale(stale, start);
      TotalNone(olds);
      for i := 0 to |prs|
        invariant Placing(prs, lucks, was, olds, news, fates, start, stale, i)
      {
        hide Placing;
        olds, news, fates := PlaceNext(prs, lucks, i, olds, news, was, fates, start, stale);
      }
    }

    /** Frees the old remotes that have not been moved. */
    method ReleaseRest(olds: seq<OpenRemote>, news: seq<OpenRemote>, ghost was: seq<OpenRemote>,
                       ghost fates: seq<Fate>, ghost start: int)
      requires kernel.Valid() && start <= kernel.next && AllNamed(was)
      requires Total(news) + Total(olds) == multiset(kernel.open_) && Accounted(was, olds, news, fates, start)
      modifies kernel
      ensures kernel.Valid() && kernel.stale == old(kernel.stale) && Total(news) == multiset(kernel.open_)
      ensures kernel.open_ <= old(kernel.open_)
      ensures forall j :: 0 <= j < |was| && fates[j].Kept? ==> Gone(was[j], kernel.open_)
    {
      hide Owned, Since;
      var i := 0;
      assert olds[0..] == olds;
      while i < |olds|
        invariant 0 <= i <= |olds|
        invariant kernel.Valid() && kernel.stale == old(kernel.stale) && kernel.next == old(kernel.next)
        invariant Total(news) + Total(olds[i..]) == multiset(kernel.open_) && kernel.open_ <= old(kernel.open_)
        invariant forall j :: 0 <= j < i && fates[j].Kept? ==> Gone(was[j], kernel.open_)
      {
        TotalRest(Total(news), olds, i);
        if olds[i].identity != "" {
          ghost var before := kernel.open_;
          var _ := kernel.Free(olds[i]);
          NowGone(olds[i], before, kernel.open_);
          StillGone(was, fates, i, before, kernel.open_);
        } else {
          OwnedVacant(olds[i], was, olds, news, fates, start, i);
        }
        i := i + 1;
      }
      assert olds[i..] == [];
      assert Total(news) + multiset{} == Total(news);
    }

    method PairDevices(devs: seq<Device>) returns (paired: Option<seq<Remote>>)
      ensures paired.Some? <==> Assigned(devs).Some?
      ensures paired.Some? ==> |paired.value| <= |devs| && Pairs(devs, paired.value)
    {
      paired := Match(devs, |devs|);
      KeyboardsCount(devs, |devs|);
    }

    /** daemon_devices_rescan.  `scan` is None when /dev/input could not be read.  A failed scan or an
        ambiguous pairing leaves everything as it was.  Otherwise every old remote has either been moved
        whole into a new slot of its own, or all its descriptors have been closed, once. */
    method Rescan(scan: Option<seq<Device>>, lucks: seq<OpenLuck>)
      returns (rc: int, ghost prs: seq<Remote>, ghost fates: seq<Fate>)
      requires Valid() && (scan.Some? ==> |lucks| >= |scan.value|)
      modifies this, kernel
      ensures Valid()
      ensures rc < 0 <==> scan.None? || Assigned(scan.value).None?
      ensures rc < 0 ==>
                && remotes == old(remotes)
                && kernel.open_ == old(kernel.open_) && kernel.stale == old(kernel.stale)
      ensures rc == 0 ==>
                && Pairs(scan.value, prs) && |prs| <= |lucks|
                && var plan := PlanOf(prs, lucks, kbdOverride, noUinput, old(remotes), |prs|);
                   && Planned(prs, lucks, old(remotes), remotes, plan.origins)
                   && Remaining(old(remotes), fates) == plan.olds
                   && (plan.wasted <==> kernel.stale != old(kernel.stale))
      ensures rc == 0 ==>
                && Accounted(old(remotes), Remaining(old(remotes), fates), remotes, fates, old(kernel.next))
                && (forall j :: 0 <= j < |old(remotes)| && fates[j].Kept? ==> Gone(old(remotes)[j], kernel.open_))
                && LaterStale(old(kernel.stale), kernel.stale, old(kernel.next))
    {
      prs, fates := [], [];
      if scan.None? {
        return -1, prs, fates;
      }
      var devs := scan.value;
      var paired := PairDevices(devs);
      if paired.None? {
        return -1, prs, fates;
      }
      hide Accounted, Total, Assigned, Since, LaterStale, PairWasted, Pairs, Planned, OpenedAs, Opens, FirstUnchanged;
      prs := paired.value;
      ghost var was, start := remotes, kernel.next;
      var olds, news;
      olds, news, fates := PlaceAll(paired.value, lucks);
      hide PlanOf;
      ReleaseRest(olds, news, was, fates, start);
      RemainingIs(was, olds, news, fates, start);
      remotes := news;
      return 0, prs, fates;
    }

    /** daemon_devices_pollfds: the entries, as many as fit. */
    method PollFds(inotify: bool, nfds: nat) returns (fds: seq<Entry>)
      ensures fds == Prefix(Layout(inotify, remotes), nfds)
      ensures fds <= Layout(inotify, remotes)
      ensures |fds| == if |Layout(inotify, remotes)| <= nfds then |Layout(inotify, remotes)| else nfds
    {
      ghost var done: seq<Entry> := if inotify then [Inotify] else [];
      fds := if inotify && nfds > 0 then [Inotify] else [];
      assert fds == Prefix(done, nfds);
      hide LayoutFrom, Prefix;
      for i := 0 to |remotes|
        invariant done + LayoutFrom(remotes, i) == Layout(inotify, remotes)
        invariant fds == Prefix(done, nfds)
      {
        LayoutStep(done, remotes, i);
        fds := AddRemote(fds, remotes[i], i, nfds, done);
        done := done + EntriesOf(remotes[i], i);
        hide EntriesOf, Layout;
      }
      LayoutEnd(remotes);
    }

    static method AddRemote(fds: seq<Entry>, r: OpenRemote, i: nat, nfds: nat, ghost done: seq<Entry>)
      returns (all: seq<Entry>)
      requires fds == Prefix(done, nfds)
      ensures all == Prefix(done + EntriesOf(r, i), nfds)
    {
      all := fds;
      hide Prefix;
      ghost var d := done;
      if r.kbd >= 0 {
        all := AddEntry(all, Kbd(i), nfds, d);
        d := d + [Kbd(i)];
      }
      if r.imu >= 0 {
        all := AddEntry(all, Imu(i), nfds, d);
        d := d + [Imu(i)];
      }
      assert d == done + EntriesOf(r, i);
    }

    static method AddEntry(fds: seq<Entry>, e: Entry, nfds: nat, ghost done: seq<Entry>) returns (r: seq<Entry>)
      requires fds == Prefix(done, nfds)
      ensures r == Prefix(done + [e], nfds)
    {
      return if |fds| < nfds then fds + [e] else fds;
    }

    /** daemon_devices_handle for an entry with an event.  When reading finds the device `lost`, its
        descriptor is closed; the remote stays. */
    method Handle(inotify: bool, idx: nat, lost: bool) returns (e: Option<Entry>)
      requires Valid()
      modifies this`remotes, kernel
      ensures Valid() && kernel.stale == old(kernel.stale) && kernel.next == old(kernel.next)
      ensures e == Meaning(inotify, old(remotes), idx)
      ensures remotes == AfterHit(inotify, old(remotes), Hit(idx, lost))
    {
      e := Target(inotify, idx);
      if !lost || e.None? || e.value.Inotify? {
        return;
      }
      MeaningOpen(inotify, remotes, idx);
      hide *;
      CloseEntry(e.value);
    }

    /** The daemon's round over the poll list after a poll. */
    method HandleBatch(inotify: bool, hits: seq<Hit>)
      requires Valid()
      modifies this`remotes, kernel
      ensures Valid() && kernel.stale == old(kernel.stale) && kernel.next == old(kernel.next)
      ensures remotes == AfterHits(inotify, old(remotes), hits)
    {
      hide AfterHit;
      for k := 0 to |hits|
        invariant Valid() && kernel.stale == old(kernel.stale) && kernel.next == old(kernel.next)
        invariant remotes == AfterHits(inotify, old(remotes), hits[..k])
      {
        HitsNext(inotify, old(remotes), hits, k);
        var _ := Handle(inotify, hits[k].idx, hits[k].lost);
      }
      assert hits[..|hits|] == hits;
    }

    /** handle_kbd and handle_imu at the end of their device. */
    method CloseEntry(e: Entry)
      requires Valid() && !e.Inotify? && e.i < |remotes| && DescriptorOf(remotes[e.i], e) >= 0
      modifies this`remotes, kernel
      ensures Valid() && kernel.stale == old(kernel.stale) && kernel.next == old(kernel.next)
      ensures remotes == CloseAll(old(remotes), {e})
    {
      var r, fd := remotes[e.i], DescriptorOf(remotes[e.i], e);
      CloseAccounted(remotes, e);
      CloseKeeps(remotes, e, noUinput);
      ghost var after := CloseAll(remotes, {e});
      assert One(fd) <= multiset(kernel.open_) && Total(after) == multiset(kernel.open_) - One(fd);
      hide Total, One, AllNamed, AllSafe, CloseAll, Closed, DescriptorOf;
      kernel.Close(fd);
      remotes := remotes[e.i := if e.Kbd? then r.(kbd := -1) else r.(imu := -1)];
      assert remotes == after;
    }

    /** The entry that daemon_devices_handle takes an index for; None when it handles nothing. */
    method Target(inotify: bool, idx: nat) returns (e: Option<Entry>)
      ensures e == Meaning(inotify, remotes, idx)
    {
      hide LayoutFrom;
      LayoutEnd(remotes);
      var n := 0;
      ghost var done: seq<Entry> := if inotify then [Inotify] else [];
      if inotify {
        if idx == 0 {
          return Some(Inotify);
        }
        n := 1;
      }
      for i := 0 to |remotes|
        invariant n == |done| && n <= idx
        invariant done + LayoutFrom(remotes, i) == Layout(inotify, remotes)
      {
        LayoutStep(done, remotes, i);
        if remotes[i].kbd >= 0 {
          if idx == n {
            return Some(Kbd(i));
          }
          n := n + 1;
          done := done + [Kbd(i)];
        }
        if remotes[i].imu >= 0 {
          if idx == n {
            return Some(Imu(i));
          }
          n := n + 1;
          done := done + [Imu(i)];
        }
      }
      return None;
    }
  }

  // ------------------------------------------------------------------
  // Remotes whose keyboard is gone
  // ------------------------------------------------------------------

  /** A moved remote has an open keyboard exactly when it had one before: closing a descriptor leaves the
      identity and the paths, by which the rescan recognises a remote. */
  lemma MovedAsItWas(was: seq<OpenRemote>, olds: seq<OpenRemote>, news: seq<OpenRemote>, fates: seq<Fate>, start: int,
                     j: nat)
    requires Accounted(was, olds, news, fates, start) && j < |was| && fates[j].Moved?
    ensures fates[j].slot < |news|
    ensures news[fates[j].slot].kbd >= 0 <==> was[j].kbd >= 0
  {
  }

  /** However often the devices are scanned, as long as the same ones are listed every remote stays as it
      was: a keyboard that has been closed is never opened again. */
  lemma {:induction false} ClosedStaysClosed(prs: seq<Remote>, lucks: seq<seq<OpenLuck>>, noUinput: bool,
                                             rss: seq<seq<OpenRemote>>, n: nat)
    requires n <= |lucks| && |rss| == |lucks| + 1 && |prs| == |rss[0]|
    requires forall i :: 0 <= i < |lucks| ==> |prs| <= |lucks[i]|
    requires forall k :: 0 <= k < |prs| ==> MatchesPair(rss[0][k], prs[k])
    requires forall i :: 0 <= i < |lucks| && |rss[i]| == |prs| ==>
               Planned(prs, lucks[i], rss[i], rss[i + 1], PlanOf(prs, lucks[i], None, noUinput, rss[i], |prs|).origins)
    ensures rss[n] == rss[0]
  {
    hide MatchesPair, PlanOf, Planned;
    if n > 0 {
      ClosedStaysClosed(prs, lucks, noUinput, rss, n - 1);
      UnchangedRemotes(prs, lucks[n - 1], noUinput, rss[n - 1], rss[n]);
    }
  }

  // ------------------------------------------------------------------
  // Poll entries
  // ------------------------------------------------------------------

  datatype Entry = Inotify | Kbd(i: nat) | Imu(i: nat)

  function EntriesOf(r: OpenRemote, i: nat): seq<Entry> {
    (if r.kbd >= 0 then [Kbd(i)] else []) + (if r.imu >= 0 then [Imu(i)] else [])
  }

  function LayoutFrom(rs: seq<OpenRemote>, i: nat): seq<Entry>
    requires i <= |rs|
    decreases |rs| - i
  {
    if i == |rs| then [] else EntriesOf(rs[i], i) + LayoutFrom(rs, i + 1)
  }

  /** The entries in the order both the poll list and the handler count them. */
  function Layout(inotify: bool, rs: seq<OpenRemote>): seq<Entry> {
    (if inotify then [Inotify] else []) + LayoutFrom(rs, 0)
  }

  lemma LayoutStep(done: seq<Entry>, rs: seq<OpenRemote>, i: nat)
    requires i < |rs|
    ensures var k := if rs[i].kbd >= 0 then [Kbd(i)] else [];
            var m := if rs[i].imu >= 0 then [Imu(i)] else [];
            done + LayoutFrom(rs, i) == done + k + m + LayoutFrom(rs, i + 1)
    ensures done + LayoutFrom(rs, i) == done + EntriesOf(rs[i], i) + LayoutFrom(rs, i + 1)
  {
    var k, m: seq<Entry> := if rs[i].kbd >= 0 then [Kbd(i)] else [], if rs[i].imu >= 0 then [Imu(i)] else [];
    var rest := LayoutFrom(rs, i + 1);
    assert LayoutFrom(rs, i) == k + m + rest;
    hide LayoutFrom;
    Assoc(done, k + m, rest);
    Assoc(done, k, m);
  }

  lemma LayoutEnd(rs: seq<OpenRemote>)
    ensures LayoutFrom(rs, |rs|) == []
  {
  }

  /** A place in the order of the entries. */
  function Order(e: Entry): int {
    match e
    case Inotify => 0
    case Kbd(i) => 2 * i + 1
    case Imu(i) => 2 * i + 2
  }

  lemma {:induction false} LayoutFromHas(rs: seq<OpenRemote>, i: nat, e: Entry)
    requires i <= |rs|
    ensures e in LayoutFrom(rs, i) <==>
            !e.Inotify? && i <= e.i < |rs| && if e.Kbd? then rs[e.i].kbd >= 0 else rs[e.i].imu >= 0
    decreases |rs| - i
  {
    if i < |rs| {
      LayoutFromHas(rs, i + 1, e);
      EntriesHas(rs[i], i, e);
      assert LayoutFrom(rs, i) == EntriesOf(rs[i], i) + LayoutFrom(rs, i + 1);
      hide LayoutFrom, EntriesOf;
    }
  }

  lemma EntriesHas(r: OpenRemote, i: nat, e: Entry)
    ensures e in EntriesOf(r, i) <==> !e.Inotify? && e.i == i && if e.Kbd? then r.kbd >= 0 else r.imu >= 0
  {
  }

  ghost predicate Ordered(s: seq<Entry>) { forall p, q :: 0 <= p < q < |s| ==> Order(s[p]) < Order(s[q]) }

  lemma OrderedConcat(a: seq<Entry>, b: seq<Entry>, low: int, n: int)
    requires Ordered(a) && Ordered(b) && low <= n
    requires (forall e :: e in a ==> low < Order(e) <= n) && forall e :: e in b ==> Order(e) > n
    ensures Ordered(a + b) && forall e :: e in a + b ==> Order(e) > low
  {
    hide Order;
  }

  lemma EntriesOrdered(r: OpenRemote, i: nat)
    ensures Ordered(EntriesOf(r, i)) && forall e :: e in EntriesOf(r, i) ==> 2 * i < Order(e) <= 2 * i + 2
  {
  }

  lemma {:induction false} LayoutFromOrdered(rs: seq<OpenRemote>, i: nat)
    requires i <= |rs|
    ensures Ordered(LayoutFrom(rs, i)) && forall e :: e in LayoutFrom(rs, i) ==> Order(e) > 2 * i
    decreases |rs| - i
  {
    if i < |rs| {
      LayoutFromOrdered(rs, i + 1);
      EntriesOrdered(rs[i], i);
      assert LayoutFrom(rs, i) == EntriesOf(rs[i], i) + LayoutFrom(rs, i + 1);
      hide Ordered, EntriesOf, Order, LayoutFrom;
      OrderedConcat(EntriesOf(rs[i], i), LayoutFrom(rs, i + 1), 2 * i, 2 * i + 2);
    }
  }

  /** The poll list: the watch first, if there is one, then slot by slot the open keyboard and the open IMU. */
  lemma LayoutIs(inotify: bool, rs: seq<OpenRemote>)
    ensures var l := Layout(inotify, rs);
            && Ordered(l) && (Inotify in l <==> inotify)
            && (forall i: nat :: Kbd(i) in l <==> i < |rs| && rs[i].kbd >= 0)
            && (forall i: nat :: Imu(i) in l <==> i < |rs| && rs[i].imu >= 0)
  {
    LayoutFromOrdered(rs, 0);
    OrderedConcat(if inotify then [Inotify] else [], LayoutFrom(rs, 0), -1, 0);
    forall e ensures e in LayoutFrom(rs, 0) <==>
                     !e.Inotify? && e.i < |rs| && if e.Kbd? then rs[e.i].kbd >= 0 else rs[e.i].imu >= 0
    {
      LayoutFromHas(rs, 0, e);
    }
    hide LayoutFrom, Ordered;
  }

  function Prefix(s: seq<Entry>, n: nat): seq<Entry> { if |s| <= n then s else s[..n] }

  // ------------------------------------------------------------------
  // Closing entries inside a poll batch
  // ------------------------------------------------------------------

  /** The remote in slot i once these entries have been closed. */
  function Closed(r: OpenRemote, i: nat, gone: set<Entry>): OpenRemote {
    r.(kbd := if Kbd(i) in gone then -1 else r.kbd, imu := if Imu(i) in gone then -1 else r.imu)
  }

  function CloseAll(rs: seq<OpenRemote>, gone: set<Entry>): (r: seq<OpenRemote>)
    ensures |r| == |rs| && forall i :: 0 <= i < |rs| ==> r[i] == Closed(rs[i], i, gone)
  {
    seq(|rs|, i requires 0 <= i < |rs| => Closed(rs[i], i, gone))
  }

  /** Closing one entry after others is closing all of them. */
  lemma CloseMore(rs: seq<OpenRemote>, gone: set<Entry>, e: Entry)
    ensures CloseAll(CloseAll(rs, gone), {e}) == CloseAll(rs, gone + {e})
  {
  }

  lemma CloseNone(rs: seq<OpenRemote>)
    ensures CloseAll(rs, {}) == rs
  {
  }

  function DescriptorOf(r: OpenRemote, e: Entry): int
    requires !e.Inotify?
  {
    if e.Kbd? then r.kbd else r.imu
  }

  /** Closing an entry gives up its descriptor and no other. */
  lemma CloseAccounted(rs: seq<OpenRemote>, e: Entry)
    requires !e.Inotify? && e.i < |rs| && DescriptorOf(rs[e.i], e) >= 0
    ensures CloseAll(rs, {e}) == rs[e.i := if e.Kbd? then rs[e.i].(kbd := -1) else rs[e.i].(imu := -1)]
    ensures var fd := DescriptorOf(rs[e.i], e);
            One(fd) <= Total(rs) && Total(CloseAll(rs, {e})) == Total(rs) - One(fd)
  {
    var r, fd := rs[e.i], DescriptorOf(rs[e.i], e);
    var r' := if e.Kbd? then r.(kbd := -1) else r.(imu := -1);
    assert CloseAll(rs, {e}) == rs[e.i := r'];
    OwnedLess(r, e);
    TotalUpdate(rs, e.i, r');
    hide Total, Owned, One, CloseAll;
    Cancel(Total(rs[e.i := r']), Total(rs), Owned(r'), One(fd));
  }

  lemma OwnedLess(r: OpenRemote, e: Entry)
    requires !e.Inotify?
    ensures Owned(r) == Owned(if e.Kbd? then r.(kbd := -1) else r.(imu := -1)) + One(DescriptorOf(r, e))
  {
    OneNone(-1);
    hide One;
  }

  lemma Cancel(a: multiset<int>, b: multiset<int>, c: multiset<int>, d: multiset<int>)
    requires a + (c + d) == b + c
    ensures d <= b && a == b - d
  {
    assert a + (c + d) == (a + d) + c;
    assert a + d == (a + d) + c - c && b == b + c - c;
  }

  lemma CloseKeeps(rs: seq<OpenRemote>, e: Entry, noUinput: bool)
    requires AllNamed(rs) && AllSafe(rs, noUinput)
    ensures AllNamed(CloseAll(rs, {e})) && AllSafe(CloseAll(rs, {e}), noUinput)
  {
  }

  /** An index means an entry with an open descriptor. */
  lemma MeaningOpen(inotify: bool, rs: seq<OpenRemote>, idx: nat)
    ensures var e := Meaning(inotify, rs, idx);
            e.Some? && !e.value.Inotify? ==>
              e.value.i < |rs| && DescriptorOf(rs[e.value.i], e.value) >= 0
  {
    LayoutFromOpen(rs, 0);
    hide LayoutFrom;
  }

  lemma {:induction false} LayoutFromOpen(rs: seq<OpenRemote>, i: nat)
    requires i <= |rs|
    ensures forall p :: 0 <= p < |LayoutFrom(rs, i)| ==>
              var e := LayoutFrom(rs, i)[p];
              !e.Inotify? && e.i < |rs| && DescriptorOf(rs[e.i], e) >= 0
    decreases |rs| - i
  {
    if i < |rs| {
      LayoutFromOpen(rs, i + 1);
    }
  }

  /** The entries that have not been closed, in order. */
  function Without(all: seq<Entry>, gone: set<Entry>): (r: seq<Entry>)
    ensures |r| <= |all|
    decreases |all|
  {
    if all == [] then []
    else Without(all[..|all| - 1], gone) + if all[|all| - 1] in gone then [] else [all[|all| - 1]]
  }

  /** The number of closed entries among these. */
  function Lost(all: seq<Entry>, gone: set<Entry>): nat { |all| - |Without(all, gone)| }

  lemma {:induction false} WithoutConcat(a: seq<Entry>, b: seq<Entry>, gone: set<Entry>)
    ensures Without(a + b, gone) == Without(a, gone) + Without(b, gone)
    decreases |b|
  {
    if b == [] {
      assert a + b == a && Without(a, gone) + [] == Without(a, gone);
    } else {
      var init, last := b[..|b| - 1], b[|b| - 1];
      var kept: seq<Entry> := if last in gone then [] else [last];
      assert (a + b)[..|a + b| - 1] == a + init && (a + b)[|a + b| - 1] == last;
      WithoutConcat(a, init, gone);
      Assoc(Without(a, gone), Without(init, gone), kept);
    }
  }

  lemma EntriesWithout(r: OpenRemote, i: nat, gone: set<Entry>)
    ensures EntriesOf(Closed(r, i, gone), i) == Without(EntriesOf(r, i), gone)
  {
    var k, m: seq<Entry> := if r.kbd >= 0 then [Kbd(i)] else [], if r.imu >= 0 then [Imu(i)] else [];
    WithoutConcat(k, m, gone);
    WithoutOne(Kbd(i), gone);
    WithoutOne(Imu(i), gone);
    assert Without([], gone) == [];
    hide Without;
  }

  lemma WithoutOne(e: Entry, gone: set<Entry>)
    ensures Without([e], gone) == if e in gone then [] else [e]
  {
    assert [e][..0] == [];
  }

  /** After any closes the handler counts the entries that are left. */
  lemma {:induction false} LayoutFromClosed(rs: seq<OpenRemote>, i: nat, gone: set<Entry>)
    requires i <= |rs|
    ensures LayoutFrom(CloseAll(rs, gone), i) == Without(LayoutFrom(rs, i), gone)
    decreases |rs| - i
  {
    hide EntriesOf, Closed, Without;
    if i == |rs| {
      NothingWithout(gone);
    } else {
      LayoutFromClosed(rs, i + 1, gone);
      EntriesWithout(rs[i], i, gone);
      WithoutConcat(EntriesOf(rs[i], i), LayoutFrom(rs, i + 1), gone);
    }
  }

  lemma NothingWithout(gone: set<Entry>)
    ensures Without([], gone) == []
  {
  }

  lemma LayoutClosed(inotify: bool, rs: seq<OpenRemote>, gone: set<Entry>)
    requires Inotify !in gone
    ensures Layout(inotify, CloseAll(rs, gone)) == Without(Layout(inotify, rs), gone)
  {
    LayoutFromClosed(rs, 0, gone);
    NothingWithout(gone);
    WithoutOne(Inotify, gone);
    WithoutConcat(if inotify then [Inotify] else [], LayoutFrom(rs, 0), gone);
    hide LayoutFrom, Without, CloseAll;
  }

  /** Entry number idx of those that are left: as many places on as entries before it have been closed. */
  lemma {:induction false} Survivor(all: seq<Entry>, gone: set<Entry>, idx: nat) returns (q: nat)
    requires idx < |Without(all, gone)|
    ensures q < |all| && Without(all, gone)[idx] == all[q] && all[q] !in gone
    ensures q == idx + Lost(all[..q], gone)
    decreases |all|
  {
    var n := |all| - 1;
    var init := all[..n];
    if idx < |Without(init, gone)| {
      q := Survivor(init, gone, idx);
      assert all[..q] == init[..q];
    } else {
      q := n;
    }
  }

  /** None is lost exactly when none has been closed. */
  lemma {:induction false} NoneLost(all: seq<Entry>, gone: set<Entry>)
    ensures Lost(all, gone) == 0 <==> forall p :: 0 <= p < |all| ==> all[p] !in gone
    decreases |all|
  {
    if all != [] {
      NoneLost(all[..|all| - 1], gone);
    }
  }

  lemma {:induction false} NothingGone(all: seq<Entry>, gone: set<Entry>)
    requires forall p :: 0 <= p < |all| ==> all[p] !in gone
    ensures Without(all, gone) == all
    decreases |all|
  {
    if all != [] {
      var init := all[..|all| - 1];
      NothingGone(init, gone);
      assert all == init + [all[|all| - 1]];
    }
  }

  /** No entry comes twice. */
  lemma {:induction false} LayoutFromDistinct(rs: seq<OpenRemote>, i: nat)
    requires i <= |rs|
    ensures forall p :: 0 <= p < |LayoutFrom(rs, i)| ==>
              (LayoutFrom(rs, i)[p].Kbd? || LayoutFrom(rs, i)[p].Imu?) && LayoutFrom(rs, i)[p].i >= i
    ensures forall p, q :: 0 <= p < q < |LayoutFrom(rs, i)| ==> LayoutFrom(rs, i)[p] != LayoutFrom(rs, i)[q]
    decreases |rs| - i
  {
    if i < |rs| {
      LayoutFromDistinct(rs, i + 1);
      var head, rest := EntriesOf(rs[i], i), LayoutFrom(rs, i + 1);
      assert LayoutFrom(rs, i) == head + rest;
      assert forall p :: 0 <= p < |head| ==> (head[p].Kbd? || head[p].Imu?) && head[p].i == i;
    }
  }

  lemma LayoutDistinct(inotify: bool, rs: seq<OpenRemote>)
    ensures forall p, q :: 0 <= p < q < |Layout(inotify, rs)| ==> Layout(inotify, rs)[p] != Layout(inotify, rs)[q]
  {
    LayoutFromDistinct(rs, 0);
    hide LayoutFrom;
  }

  /** Which entry an index of the batch stands for after some entries, keyboards or IMUs, have been closed
      earlier in the batch. */
  function Meaning(inotify: bool, rs: seq<OpenRemote>, idx: nat): Option<Entry> {
    var all := Layout(inotify, rs);
    if idx < |all| then Some(all[idx]) else None
  }

  /** After any closes an index still means the entry it was polled for exactly when no entry up to its own
      has been closed.  Otherwise it means the entry as many places on as entries before that one have been
      closed, or nothing when there are not that many left. */
  lemma CloseShifts(inotify: bool, rs: seq<OpenRemote>, gone: set<Entry>, idx: nat)
    requires Inotify !in gone && idx < |Layout(inotify, rs)|
    ensures var all, now := Layout(inotify, rs), Meaning(inotify, CloseAll(rs, gone), idx);
            && (now == Some(all[idx]) <==> forall p :: 0 <= p <= idx ==> all[p] !in gone)
            && (now.None? <==> idx + Lost(all, gone) >= |all|)
            && (now.Some? ==> exists q :: idx <= q < |all| && now == Some(all[q]) && all[q] !in gone &&
                                          q == idx + Lost(all[..q], gone))
  {
    var all := Layout(inotify, rs);
    LayoutClosed(inotify, rs, gone);
    LayoutDistinct(inotify, rs);
    hide Layout, CloseAll;
    IndexShifts(all, gone, idx);
  }

  /** An index of the batch that has an event, and whether reading finds the device gone. */
  datatype Hit = Hit(idx: nat, lost: bool)

  /** The remotes after handling one index. */
  function AfterHit(inotify: bool, rs: seq<OpenRemote>, h: Hit): (r: seq<OpenRemote>)
    ensures |r| == |rs|
  {
    var e := Meaning(inotify, rs, h.idx);
    if h.lost && e.Some? && !e.value.Inotify? then CloseAll(rs, {e.value}) else rs
  }

  /** The remotes after handling the batch. */
  function AfterHits(inotify: bool, rs: seq<OpenRemote>, hits: seq<Hit>): (r: seq<OpenRemote>)
    ensures |r| == |rs|
    decreases |hits|
  {
    if hits == [] then rs
    else AfterHit(inotify, AfterHits(inotify, rs, hits[..|hits| - 1]), hits[|hits| - 1])
  }

  lemma HitsNext(inotify: bool, rs: seq<OpenRemote>, hits: seq<Hit>, k: nat)
    requires k < |hits|
    ensures AfterHits(inotify, rs, hits[..k + 1]) == AfterHit(inotify, AfterHits(inotify, rs, hits[..k]), hits[k])
  {
    hide AfterHit;
    assert hits[..k + 1][..k] == hits[..k];
  }

  /** The indices of a batch, in the order of the poll list. */
  ghost predicate Batch(hits: seq<Hit>, all: seq<Entry>) {
    && (forall k :: 0 <= k < |hits| ==> hits[k].idx < |all|)
    && forall k, l :: 0 <= k < l < |hits| ==> hits[k].idx < hits[l].idx
  }

  /** Handling this index closes its entry. */
  predicate Closes(h: Hit, all: seq<Entry>)
    requires h.idx < |all|
  {
    h.lost && !all[h.idx].Inotify?
  }

  ghost predicate HandledAsPolled(inotify: bool, rs: seq<OpenRemote>, hits: seq<Hit>, k: nat)
    requires Batch(hits, Layout(inotify, rs)) && k < |hits|
  {
    Meaning(inotify, AfterHits(inotify, rs, hits[..k]), hits[k].idx) == Some(Layout(inotify, rs)[hits[k].idx])
  }

  /** Every event of a batch is handled for the entry it was polled for exactly when no device but the last
      one of the batch turns out to be gone. */
  lemma BatchHandled(inotify: bool, rs: seq<OpenRemote>, hits: seq<Hit>)
    requires Batch(hits, Layout(inotify, rs))
    ensures (forall k :: 0 <= k < |hits| ==> HandledAsPolled(inotify, rs, hits, k)) <==>
            (forall k :: 0 <= k < |hits| - 1 ==> !Closes(hits[k], Layout(inotify, rs)))
  {
    hide Layout, HandledAsPolled, Closes;
    if forall k :: 0 <= k < |hits| - 1 ==> !Closes(hits[k], Layout(inotify, rs)) {
      forall k | 0 <= k < |hits| ensures HandledAsPolled(inotify, rs, hits, k) {
        NoneClosed(inotify, rs, hits, k);
      }
    }
    forall k | 0 <= k < |hits| - 1 && Closes(hits[k], Layout(inotify, rs))
      ensures exists l :: 0 <= l < |hits| && !HandledAsPolled(inotify, rs, hits, l)
    {
      CloseMisleads(inotify, rs, hits, k);
    }
  }

  /** As long as nothing is closed the remotes stay as they are. */
  lemma {:induction false} NoneClosed(inotify: bool, rs: seq<OpenRemote>, hits: seq<Hit>, k: nat)
    requires Batch(hits, Layout(inotify, rs)) && k < |hits|
    requires forall j :: 0 <= j < k ==> !Closes(hits[j], Layout(inotify, rs))
    ensures AfterHits(inotify, rs, hits[..k]) == rs && HandledAsPolled(inotify, rs, hits, k)
  {
    hide Layout;
    if k > 0 {
      NoneClosed(inotify, rs, hits, k - 1);
      HitsNext(inotify, rs, hits, k - 1);
    }
  }

  /** A close makes the next event, at the latest, go astray. */
  lemma CloseMisleads(inotify: bool, rs: seq<OpenRemote>, hits: seq<Hit>, k: nat)
    requires Batch(hits, Layout(inotify, rs)) && 0 <= k < |hits| - 1 && Closes(hits[k], Layout(inotify, rs))
    ensures !HandledAsPolled(inotify, rs, hits, k) || !HandledAsPolled(inotify, rs, hits, k + 1)
  {
    hide Layout, AfterHits;
    var all := Layout(inotify, rs);
    if HandledAsPolled(inotify, rs, hits, k) {
      var gone := GoneAfter(inotify, rs, hits[..k]);
      HitsNext(inotify, rs, hits, k);
      CloseMore(rs, gone, all[hits[k].idx]);
      CloseShifts(inotify, rs, gone + {all[hits[k].idx]}, hits[k + 1].idx);
    }
  }

  /** Handling a batch does nothing to the remotes but close some of their entries. */
  lemma {:induction false} GoneAfter(inotify: bool, rs: seq<OpenRemote>, hits: seq<Hit>) returns (gone: set<Entry>)
    ensures Inotify !in gone && AfterHits(inotify, rs, hits) == CloseAll(rs, gone)
    decreases |hits|
  {
    hide CloseAll, Meaning;
    if hits == [] {
      gone := {};
      CloseNone(rs);
    } else {
      gone := GoneAfter(inotify, rs, hits[..|hits| - 1]);
      var h := hits[|hits| - 1];
      var e := Meaning(inotify, CloseAll(rs, gone), h.idx);
      if h.lost && e.Some? && !e.value.Inotify? {
        CloseMore(rs, gone, e.value);
        gone := gone + {e.value};
      }
    }
  }

  lemma IndexShifts(all: seq<Entry>, gone: set<Entry>, idx: nat)
    requires idx < |all| && forall p, q :: 0 <= p < q < |all| ==> all[p] != all[q]
    ensures var left := Without(all, gone);
            && (idx < |left| && left[idx] == all[idx] <==> forall p :: 0 <= p <= idx ==> all[p] !in gone)
            && (idx < |left| ==> exists q :: idx <= q < |all| && left[idx] == all[q] && all[q] !in gone &&
                                             q == idx + Lost(all[..q], gone))
  {
    hide Without, Lost;
    var left := Without(all, gone);
    if idx < |left| {
      var q := Survivor(all, gone, idx);
      if left[idx] == all[idx] {
        assert q == idx;
        NoneLost(all[..q], gone);
        assert forall p :: 0 <= p < idx ==> all[..q][p] == all[p];
      }
    }
    if forall p :: 0 <= p <= idx ==> all[p] !in gone {
      HeadLeft(all, gone, idx);
    }
  }

  lemma HeadLeft(all: seq<Entry>, gone: set<Entry>, idx: nat)
    requires idx < |all| && forall p :: 0 <= p <= idx ==> all[p] !in gone
    ensures idx < |Without(all, gone)| && Without(all, gone)[idx] == all[idx]
  {
    hide Without;
    var head, tail := all[..idx + 1], all[idx + 1..];
    assert all == head + tail;
    WithoutConcat(head, tail, gone);
    NothingGone(head, gone);
  }
}
