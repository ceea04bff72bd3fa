/**
 Saving a device configuration as TOML text and loading it again gives the same configuration.
 */
module DeviceRoundTrip {
  import opened Wrappers
  import opened Strings
  import opened TomlTree
  import opened TomlWriter
  import opened TomlReader
  import opened TomlRoundTrip
  import opened TomlWellFormed
  import opened Profiles
  import opened DeviceConfig

  // ------------------------------------------------------------------
  // Configurations that have come from a file or from defaults
  // ------------------------------------------------------------------

  /** Values that were not set are the built-in ones, and no code is mapped twice. */
  ghost predicate Settled(p: ProfileData) {
    && (!p.hasScroll ==> p.scrollSpeed == DEFAULT_SCROLL)
    && (!p.hasSens ==> p.sensitivity == DEFAULT_SENSITIVITY)
    && (!p.hasLpf ==> p.lpfAlpha == UNSET_LPF)
    && UniqueFrom(p.map_)
  }

  ghost predicate SettledProfiles(ps: seq<ProfileData>) {
    && (forall i :: 0 <= i < |ps| ==> Settled(ps[i]))
    && (forall i, j :: 0 <= i < j < |ps| ==> ps[i].name != ps[j].name)
  }

  ghost predicate SettledDevice(dc: DeviceData) {
    && dc.calib != Some("")
    && (!dc.hasAirmouse ==> dc.airmouse)
    && SettledProfiles(dc.profiles)
  }

  /** What the text of a number stands for: the number rounded to 15 digits. */
  function Rounded(libc: Libc, d: real): real {
    match libc.strtod(FloatText(libc, d)) case Some(e) => e case None => d
  }

  /** The explicitly set numbers are what their texts stand for. */
  predicate ExactProfile(libc: Libc, p: ProfileData) {
    && (p.hasScroll ==> Rounded(libc, p.scrollSpeed) == p.scrollSpeed)
    && (p.hasSens ==> Rounded(libc, p.sensitivity) == p.sensitivity)
    && (p.hasLpf ==> Rounded(libc, p.lpfAlpha) == p.lpfAlpha)
  }

  predicate ExactDevice(libc: Libc, dc: DeviceData) {
    forall i :: 0 <= i < |dc.profiles| ==> ExactProfile(libc, dc.profiles[i])
  }

  /** The profile that its table's text stands for: each explicitly set number rounded. */
  function RereadProfile(libc: Libc, p: ProfileData): ProfileData {
    p.(scrollSpeed := if p.hasScroll then Rounded(libc, p.scrollSpeed) else p.scrollSpeed,
       sensitivity := if p.hasSens then Rounded(libc, p.sensitivity) else p.sensitivity,
       lpfAlpha := if p.hasLpf then Rounded(libc, p.lpfAlpha) else p.lpfAlpha)
  }

  function RereadProfiles(libc: Libc, ps: seq<ProfileData>): (r: seq<ProfileData>)
    ensures |r| == |ps| && forall i :: 0 <= i < |ps| ==> r[i] == RereadProfile(libc, ps[i])
    decreases |ps|
  {
    if ps == [] then [] else RereadProfiles(libc, ps[..|ps| - 1]) + [RereadProfile(libc, ps[|ps| - 1])]
  }

  /** The configuration that its text stands for. */
  function RereadDevice(libc: Libc, dc: DeviceData): DeviceData {
    dc.(profiles := RereadProfiles(libc, dc.profiles))
  }

  lemma RereadExact(libc: Libc, dc: DeviceData)
    ensures RereadDevice(libc, dc) == dc <==> ExactDevice(libc, dc)
  {
    var r := RereadProfiles(libc, dc.profiles);
    hide Rounded;
    if ExactDevice(libc, dc) {
      assert r == dc.profiles;
    }
    if r == dc.profiles {
      forall i | 0 <= i < |r| ensures ExactProfile(libc, dc.profiles[i]) {
        assert r[i] == RereadProfile(libc, dc.profiles[i]);
      }
    }
  }

  /** The explicitly set numbers have texts that can be read: they are not inf or nan. */
  predicate PrintableProfile(libc: Libc, p: ProfileData) {
    && (p.hasScroll ==> Printable(libc, p.scrollSpeed))
    && (p.hasSens ==> Printable(libc, p.sensitivity))
    && (p.hasLpf ==> Printable(libc, p.lpfAlpha))
  }

  /** The strings are C strings and the numbers can be printed. */
  ghost predicate Storable(libc: Libc, dc: DeviceData) {
    && NulFree(dc.profile) && (dc.calib.Some? ==> NulFree(dc.calib.value))
    && StorableProfiles(libc, dc.profiles)
  }

  ghost predicate StorableProfiles(libc: Libc, ps: seq<ProfileData>) {
    forall i :: 0 <= i < |ps| ==> NulFree(ps[i].name) && PrintableProfile(libc, ps[i])
  }

  lemma {:induction false} FindIndex(ps: seq<ProfileData>, name: string)
    ensures Find(ps, name).None? <==> forall i :: 0 <= i < |ps| ==> ps[i].name != name
    ensures Find(ps, name).Some? ==> exists i :: 0 <= i < |ps| && ps[i] == Find(ps, name).value && ps[i].name == name
  {
    if ps != [] {
      FindIndex(ps[1..], name);
      if ps[0].name != name {
        if Find(ps, name).Some? {
          var i :| 0 <= i < |ps[1..]| && ps[1..][i] == Find(ps, name).value && ps[1..][i].name == name;
          assert ps[i + 1] == ps[1..][i];
        } else {
          forall i | 0 <= i < |ps| ensures ps[i].name != name {
            if i > 0 {
              assert ps[1..][i - 1] == ps[i];
            }
          }
        }
      } else {
        assert ps[0] == Find(ps, name).value;
      }
    }
  }

  // ------------------------------------------------------------------
  // Button maps
  // ------------------------------------------------------------------

  /** The keys of the table are the names of the mapped codes, in order. */
  ghost predicate NamesOf(km: Keymap, bm: Members, m: seq<Entry>) {
    |bm| == |m| && forall i :: 0 <= i < |m| ==> Some(bm[i].key) == km.NameOf(m[i].from)
  }

  lemma NewName(km: Keymap, bm: Members, m: seq<Entry>, from: int)
    requires km.Valid() && KnownKeys(km, m) && NamesOf(km, bm, m)
    requires km.NameOf(from).Some? && !Mentions(m, from)
    ensures Get(bm, km.NameOf(from).value).None?
  {
    GetIndex(bm, km.NameOf(from).value);
    forall i | 0 <= i < |bm| ensures bm[i].key != km.NameOf(from).value {
      assert m[i].from != from;
      km.NamesDiffer(m[i].from, from);
    }
  }

  lemma {:induction false} ButtonsBack(km: Keymap, libc: Libc, m: seq<Entry>)
    requires km.Valid() && KnownKeys(km, m) && UniqueFrom(m)
    ensures ButtonsToToml(km, m).Some?
    ensures var bm := ButtonsToToml(km, m).value;
            && NamesOf(km, bm, m) && ButtonsFromToml(km, bm, []) == Some(m)
            && Tidy(libc, bm, 0) && TablesOf(bm) == [] && RereadTree(libc, bm) == bm
    decreases |m|
  {
    hide Tidy, RereadTree;
    if m == [] {
      TidyNothing(libc, 0);
    } else {
      var init, e := m[..|m| - 1], m[|m| - 1];
      assert m == init + [e];
      ButtonsBack(km, libc, init);
      var t := ButtonsToToml(km, init).value;
      var from, to := km.NameOf(e.from).value, km.NameOf(e.to).value;
      assert !Mentions(init, e.from);
      NewName(km, t, init, e.from);
      km.CodeOfName(e.from);
      km.CodeOfName(e.to);
      TidyScalar(libc, t, Member(from, Str(to)), 0);
      var bm := t + [Member(from, Str(to))];
      assert bm[..|bm| - 1] == t;
      WithButtonKeys(init, e.from, e.to);
    }
  }

  // ------------------------------------------------------------------
  // Profiles
  // ------------------------------------------------------------------

  const SCROLL := "scroll_speed"
  const SENS := "sensitivity"
  const LPF := "lpf_alpha"
  const BUTTONS := "button_map"

  lemma KeysDiffer()
    ensures SCROLL != SENS && SCROLL != LPF && SENS != LPF
    ensures BUTTONS != SCROLL && BUTTONS != SENS && BUTTONS != LPF
    ensures NulFree(SCROLL) && NulFree(SENS) && NulFree(LPF) && NulFree(BUTTONS)
  {
    assert |SCROLL| == 12 && |SENS| == 11 && |LPF| == 9 && |BUTTONS| == 10;
  }

  /** A number that may be written under a key. */
  function Maybe(has: bool, key: string, d: real): Members { if has then [Member(key, Float(d))] else [] }

  lemma MaybeGet(t: Members, has: bool, key: string, d: real)
    requires Get(t, key).None?
    ensures Get(t + Maybe(has, key, d), key) == if has then Some(Float(d)) else None
    ensures forall k :: k != key ==> Get(t + Maybe(has, key, d), k) == Get(t, k)
  {
    if has {
      forall k ensures Get(t + Maybe(has, key, d), k) ==
                       if Get(t, k).Some? then Get(t, k) else if k == key then Some(Float(d)) else None {
        GetAppend(t, Member(key, Float(d)), k);
      }
    } else {
      assert t + [] == t;
    }
  }

  lemma MaybeTidy(libc: Libc, t: Members, has: bool, key: string, d: real)
    requires Tidy(libc, t, 1) && TablesOf(t) == [] && NulFree(key) && Get(t, key).None?
    requires has ==> Printable(libc, d)
    ensures Tidy(libc, t + Maybe(has, key, d), 1) && TablesOf(t + Maybe(has, key, d)) == []
    ensures RereadTree(libc, t + Maybe(has, key, d)) == RereadTree(libc, t) + Maybe(has, key, Rounded(libc, d))
  {
    hide RereadTree;
    if has {
      TidyScalar(libc, t, Member(key, Float(d)), 1);
    } else {
      assert t + [] == t && RereadTree(libc, t) + [] == RereadTree(libc, t);
    }
  }

  lemma NumbersBack(p: ProfileData)
    ensures var t := NumbersToToml(p);
            && Get(t, SCROLL) == (if p.hasScroll then Some(Float(p.scrollSpeed)) else None)
            && Get(t, SENS) == (if p.hasSens then Some(Float(p.sensitivity)) else None)
            && Get(t, LPF) == (if p.hasLpf then Some(Float(p.lpfAlpha)) else None)
            && Get(t, BUTTONS) == None
  {
    KeysDiffer();
    MaybeGet([], p.hasScroll, SCROLL, p.scrollSpeed);
    var t1 := [] + Maybe(p.hasScroll, SCROLL, p.scrollSpeed);
    MaybeGet(t1, p.hasSens, SENS, p.sensitivity);
    var t2 := t1 + Maybe(p.hasSens, SENS, p.sensitivity);
    MaybeGet(t2, p.hasLpf, LPF, p.lpfAlpha);
    assert t2 + Maybe(p.hasLpf, LPF, p.lpfAlpha) == NumbersToToml(p);
  }

  lemma NumbersTidy(libc: Libc, p: ProfileData)
    requires PrintableProfile(libc, p)
    ensures var t := NumbersToToml(p);
            Tidy(libc, t, 1) && TablesOf(t) == [] && RereadTree(libc, t) == NumbersToToml(RereadProfile(libc, p))
  {
    hide Tidy, RereadTree, Rounded;
    KeysDiffer();
    TidyNothing(libc, 1);
    var scroll, sens := Maybe(p.hasScroll, SCROLL, p.scrollSpeed), Maybe(p.hasSens, SENS, p.sensitivity);
    var t1 := [] + scroll;
    var t2 := t1 + sens;
    MaybeGet([], p.hasScroll, SCROLL, p.scrollSpeed);
    MaybeTidy(libc, [], p.hasScroll, SCROLL, p.scrollSpeed);
    MaybeGet(t1, p.hasSens, SENS, p.sensitivity);
    MaybeTidy(libc, t1, p.hasSens, SENS, p.sensitivity);
    MaybeTidy(libc, t2, p.hasLpf, LPF, p.lpfAlpha);
    assert t2 + Maybe(p.hasLpf, LPF, p.lpfAlpha) == NumbersToToml(p);
  }

  /** A profile comes back from its table when it is valid, and is refused otherwise. */
  lemma ProfileBack(km: Keymap, libc: Libc, p: ProfileData)
    requires km.Valid() && KnownKeys(km, p.map_) && Settled(p)
    ensures ProfileToToml(km, p).Some?
    ensures ProfileFromToml(km, p.name, Table(ProfileToToml(km, p).value)) ==
            if ValidProfile(km, p) then Some(p) else None
  {
    hide NumbersToToml, ButtonsToToml, ButtonsFromToml;
    NumbersBack(p);
    var t := NumbersToToml(p);
    KeysDiffer();
    if p.map_ != [] {
      ButtonsBack(km, libc, p.map_);
      var bm := ButtonsToToml(km, p.map_).value;
      GetAppend(t, Member(BUTTONS, Table(bm)), SCROLL);
      GetAppend(t, Member(BUTTONS, Table(bm)), SENS);
      GetAppend(t, Member(BUTTONS, Table(bm)), LPF);
      GetAppend(t, Member(BUTTONS, Table(bm)), BUTTONS);
    }
  }

  /** The text of a profile's table stands for the table of the rounded profile. */
  lemma ProfileTidy(km: Keymap, libc: Libc, p: ProfileData)
    requires km.Valid() && KnownKeys(km, p.map_) && UniqueFrom(p.map_) && PrintableProfile(libc, p)
    ensures ProfileToToml(km, p).Some?
    ensures var t := ProfileToToml(km, p).value;
            Tidy(libc, t, 1) && ProfileToToml(km, RereadProfile(libc, p)) == Some(RereadTree(libc, t))
  {
    hide Tidy, RereadTree, NumbersToToml, ButtonsToToml;
    NumbersBack(p);
    NumbersTidy(libc, p);
    if p.map_ != [] {
      KeysDiffer();
      ButtonsBack(km, libc, p.map_);
      TidyTable(libc, NumbersToToml(p), BUTTONS, ButtonsToToml(km, p.map_).value, 1);
    }
  }

  predicate KnownMaps(km: Keymap, ps: seq<ProfileData>) {
    forall i :: 0 <= i < |ps| ==> KnownKeys(km, ps[i].map_)
  }

  ghost predicate ProfileNames(t: Members, ps: seq<ProfileData>) {
    |t| == |ps| && forall i :: 0 <= i < |ps| ==> t[i].key == ps[i].name
  }

  lemma {:induction false} ProfilesBack(km: Keymap, libc: Libc, ps: seq<ProfileData>)
    requires km.Valid() && KnownMaps(km, ps) && SettledProfiles(ps)
    ensures ProfilesToToml(km, ps).Some?
    ensures var t := ProfilesToToml(km, ps).value;
            && ProfileNames(t, ps)
            && (ProfilesFromToml(km, t).ok <==> ValidProfiles(km, ps))
            && (ValidProfiles(km, ps) ==> ProfilesFromToml(km, t).data == ps)
    decreases |ps|
  {
    hide ProfileToToml, ProfileFromToml, ValidProfile, Settled, KnownKeys;
    if ps != [] {
      var init, p := ps[..|ps| - 1], ps[|ps| - 1];
      assert ps == init + [p];
      ProfilesBack(km, libc, init);
      ProfileBack(km, libc, p);
      var t, pt := ProfilesToToml(km, init).value, ProfileToToml(km, p).value;
      GetIndex(t, p.name);
      FindIndex(init, p.name);
      var all := t + [Member(p.name, Table(pt))];
      assert all[..|all| - 1] == t;
      assert ValidProfiles(km, ps) <==> ValidProfiles(km, init) && ValidProfile(km, p);
    }
  }

  lemma RereadSettled(km: Keymap, libc: Libc, ps: seq<ProfileData>)
    requires KnownMaps(km, ps) && SettledProfiles(ps)
    ensures KnownMaps(km, RereadProfiles(libc, ps)) && SettledProfiles(RereadProfiles(libc, ps))
  {
  }

  lemma {:induction false} ProfilesTidy(km: Keymap, libc: Libc, ps: seq<ProfileData>)
    requires km.Valid() && KnownMaps(km, ps) && SettledProfiles(ps) && StorableProfiles(libc, ps)
    ensures ProfilesToToml(km, ps).Some?
    ensures var t := ProfilesToToml(km, ps).value;
            Tidy(libc, t, 2) && ProfilesToToml(km, RereadProfiles(libc, ps)) == Some(RereadTree(libc, t))
    decreases |ps|
  {
    hide Tidy, RereadTree, ProfileToToml, KnownKeys, PrintableProfile;
    if ps == [] {
      TidyNothing(libc, 2);
    } else {
      var init, p := ps[..|ps| - 1], ps[|ps| - 1];
      assert ps == init + [p];
      ProfilesTidy(km, libc, init);
      ProfileTidy(km, libc, p);
      hide RereadProfile;
      NewProfile(km, libc, init, p.name);
      RereadSettled(km, libc, init);
      NewProfile(km, libc, RereadProfiles(libc, init), p.name);
      var t, pt := ProfilesToToml(km, init).value, ProfileToToml(km, p).value;
      TidyTable(libc, t, p.name, pt, 2);
      assert RereadProfiles(libc, ps)[..|init|] == RereadProfiles(libc, init);
    }
  }

  /** The table of the profiles has no entry for a new name. */
  lemma NewProfile(km: Keymap, libc: Libc, ps: seq<ProfileData>, name: string)
    requires km.Valid() && KnownMaps(km, ps) && SettledProfiles(ps)
    requires forall i :: 0 <= i < |ps| ==> ps[i].name != name
    ensures ProfilesToToml(km, ps).Some? && Get(ProfilesToToml(km, ps).value, name).None?
  {
    ProfilesBack(km, libc, ps);
    GetIndex(ProfilesToToml(km, ps).value, name);
  }

  // ------------------------------------------------------------------
  // Configurations
  // ------------------------------------------------------------------

  const PROFILE := "profile"
  const CALIB := "calib"
  const AIRMOUSE := "airmouse"
  const PROFILES := "profiles"

  lemma HeadKeysDiffer()
    ensures PROFILE != CALIB && PROFILE != AIRMOUSE && CALIB != AIRMOUSE
    ensures PROFILES != PROFILE && PROFILES != CALIB && PROFILES != AIRMOUSE
    ensures NulFree(PROFILE) && NulFree(CALIB) && NulFree(AIRMOUSE) && NulFree(PROFILES)
  {
    assert |PROFILE| == 7 && |CALIB| == 5 && |AIRMOUSE| == 8 && |PROFILES| == 8;
    assert PROFILES[0] == 'p' && AIRMOUSE[0] == 'a';
  }

  lemma OneGet(t: Members, m: Member)
    ensures forall k :: Get(t + [m], k) ==
                        if Get(t, k).Some? then Get(t, k) else if m.key == k then Some(m.val) else None
  {
    forall k
      ensures Get(t + [m], k) == if Get(t, k).Some? then Get(t, k) else if m.key == k then Some(m.val) else None
    {
      GetAppend(t, m, k);
    }
  }

  lemma OneTidy(libc: Libc, t: Members, m: Member)
    requires Tidy(libc, t, 3) && TablesOf(t) == [] && RereadTree(libc, t) == t && NulFree(m.key) && Get(t, m.key).None?
    requires Writable(libc, m.val) && !m.val.Table? && !m.val.Float?
    ensures Tidy(libc, t + [m], 3) && TablesOf(t + [m]) == [] && RereadTree(libc, t + [m]) == t + [m]
  {
    hide RereadTree;
    TidyScalar(libc, t, m, 3);
  }

  lemma HeadBack(dc: DeviceData)
    ensures var t := HeadToToml(dc);
            && Get(t, PROFILE) == Some(Str(dc.profile))
            && Get(t, CALIB) == (if dc.calib.Some? then Some(Str(dc.calib.value)) else None)
            && Get(t, AIRMOUSE) == (if dc.hasAirmouse then Some(Bool(dc.airmouse)) else None)
            && Get(t, PROFILES) == None
  {
    HeadKeysDiffer();
    OneGet([], Member(PROFILE, Str(dc.profile)));
    var t1 := [] + [Member(PROFILE, Str(dc.profile))];
    var t2 := t1 + if dc.calib.Some? then [Member(CALIB, Str(dc.calib.value))] else [];
    OneGet(t1, Member(CALIB, if dc.calib.Some? then Str(dc.calib.value) else Bool(false)));
    OneGet(t2, Member(AIRMOUSE, Bool(dc.airmouse)));
    var t3 := t2 + if dc.hasAirmouse then [Member(AIRMOUSE, Bool(dc.airmouse))] else [];
    assert t1 + [] == t1 && t2 + [] == t2;
    assert t3 == HeadToToml(dc);
  }

  lemma HeadTidy(libc: Libc, dc: DeviceData)
    requires NulFree(dc.profile) && (dc.calib.Some? ==> NulFree(dc.calib.value))
    ensures var t := HeadToToml(dc); Tidy(libc, t, 3) && TablesOf(t) == [] && RereadTree(libc, t) == t
  {
    hide Tidy, RereadTree;
    HeadKeysDiffer();
    TidyNothing(libc, 3);
    var profile := Member(PROFILE, Str(dc.profile));
    OneTidy(libc, [], profile);
    OneGet([], profile);
    var t1 := [] + [profile];
    var t2 := t1 + if dc.calib.Some? then [Member(CALIB, Str(dc.calib.value))] else [];
    if dc.calib.Some? {
      OneTidy(libc, t1, Member(CALIB, Str(dc.calib.value)));
      OneGet(t1, Member(CALIB, Str(dc.calib.value)));
    } else {
      assert t2 == t1;
    }
    var t3 := t2 + if dc.hasAirmouse then [Member(AIRMOUSE, Bool(dc.airmouse))] else [];
    if dc.hasAirmouse {
      OneTidy(libc, t2, Member(AIRMOUSE, Bool(dc.airmouse)));
    } else {
      assert t3 == t2;
    }
    assert t3 == HeadToToml(dc);
  }

  /** A configuration comes back from its tree when it is valid, and is refused otherwise. */
  lemma TreeBack(km: Keymap, libc: Libc, dc: DeviceData)
    requires km.Valid() && KnownMaps(km, dc.profiles) && SettledDevice(dc)
    ensures ToToml(km, dc).Some?
    ensures var r := FromToml(km, ToToml(km, dc).value, INITIAL);
            (r.ok <==> ValidDevice(km, dc)) && (r.ok ==> r.data == dc)
  {
    hide HeadToToml, ProfilesToToml, ProfilesFromToml, ValidProfiles, ActiveDefined;
    HeadBack(dc);
    HeadKeysDiffer();
    if dc.profiles != [] {
      ProfilesBack(km, libc, dc.profiles);
      OneGet(HeadToToml(dc), Member(PROFILES, Table(ProfilesToToml(km, dc.profiles).value)));
    }
  }

  /** The text of a configuration's tree stands for the tree of the rounded configuration. */
  lemma TreeTidy(km: Keymap, libc: Libc, dc: DeviceData)
    requires km.Valid() && KnownMaps(km, dc.profiles) && SettledDevice(dc) && Storable(libc, dc)
    ensures ToToml(km, dc).Some?
    ensures var t := ToToml(km, dc).value;
            Tidy(libc, t, 3) && ToToml(km, RereadDevice(libc, dc)) == Some(RereadTree(libc, t))
  {
    hide Tidy, RereadTree, HeadToToml, ProfilesToToml;
    HeadBack(dc);
    HeadTidy(libc, dc);
    assert HeadToToml(RereadDevice(libc, dc)) == HeadToToml(dc) by {
      SameHead(dc, RereadDevice(libc, dc));
    }
    if dc.profiles != [] {
      HeadKeysDiffer();
      ProfilesTidy(km, libc, dc.profiles);
      TidyTable(libc, HeadToToml(dc), PROFILES, ProfilesToToml(km, dc.profiles).value, 3);
    }
  }

  lemma SameHead(a: DeviceData, b: DeviceData)
    requires b == a.(profiles := b.profiles)
    ensures HeadToToml(a) == HeadToToml(b)
  {
  }

  /** The text a configuration is saved as. */
  function SavedText(km: Keymap, libc: Libc, dc: DeviceData): Option<string> {
    match ToToml(km, dc)
    case None => None
    case Some(t) => Dumps(libc, Table(t))
  }

  /** What loading a device file's text over the defaults gives: None for text that does not parse. */
  function LoadedText(km: Keymap, libc: Libc, text: string): Loaded<DeviceData> {
    match Parse(libc, text)
    case Err(_, _) => Loaded(false, INITIAL)
    case Ok(t, _) => FromToml(km, t, INITIAL)
  }

  /** A saved configuration is read back field by field, its numbers rounded to 15 digits; the load is
      accepted exactly when the rounded configuration passes device_config_validate. */
  lemma SaveLoad(km: Keymap, libc: Libc, dc: DeviceData)
    requires km.Valid() && KnownMaps(km, dc.profiles) && SettledDevice(dc) && Storable(libc, dc)
    ensures SavedText(km, libc, dc).Some?
    ensures var r := LoadedText(km, libc, SavedText(km, libc, dc).value);
            && (r.ok <==> ValidDevice(km, RereadDevice(libc, dc)))
            && (r.ok ==> r.data == RereadDevice(libc, dc))
  {
    hide Tidy, ToToml, FromToml, Parse, Dumps, RereadTree;
    TreeTidy(km, libc, dc);
    TidyRoundTrip(libc, ToToml(km, dc).value, 3);
    RereadSettled(km, libc, dc.profiles);
    TreeBack(km, libc, RereadDevice(libc, dc));
  }

  // ------------------------------------------------------------------
  // What loading can produce
  // ------------------------------------------------------------------

  lemma {:induction false} ButtonsUnique(km: Keymap, bm: Members, m: seq<Entry>)
    requires UniqueFrom(m) && ButtonsFromToml(km, bm, m).Some?
    ensures UniqueFrom(ButtonsFromToml(km, bm, m).value)
    decreases |bm|
  {
    if bm != [] {
      var init, b := bm[..|bm| - 1], bm[|bm| - 1];
      ButtonsUnique(km, init, m);
      WithButtonUnique(ButtonsFromToml(km, init, m).value, km.CodeOf(b.key), km.CodeOf(b.val.s));
    }
  }

  lemma ProfileSettled(km: Keymap, name: string, v: Value)
    requires ProfileFromToml(km, name, v).Some?
    ensures var p := ProfileFromToml(km, name, v).value; Settled(p) && ValidProfile(km, p) && p.name == name
  {
    hide ButtonsFromToml;
    match Get(v.members, "button_map")
    case Some(Table(bm)) => ButtonsUnique(km, bm, []);
    case _ =>
  }

  lemma {:induction false} ProfilesSettled(km: Keymap, t: Members)
    ensures var r := ProfilesFromToml(km, t).data; SettledProfiles(r) && ValidProfiles(km, r)
    decreases |t|
  {
    hide ProfileFromToml, Settled, ValidProfile;
    if t != [] {
      var init, m := t[..|t| - 1], t[|t| - 1];
      ProfilesSettled(km, init);
      var r := ProfilesFromToml(km, init);
      if r.ok && ProfileFromToml(km, m.key, m.val).Some? {
        ProfileSettled(km, m.key, m.val);
        FindIndex(r.data, m.key);
      }
    }
  }

  /** Whatever the tree, and even when the load fails: what is not set is at its default, no profile
      is defined twice, every profile is valid, and no code is mapped twice. */
  lemma LoadSettles(km: Keymap, t: Members)
    ensures var r := FromToml(km, t, INITIAL);
            SettledDevice(r.data) && ValidProfiles(km, r.data.profiles) && (r.ok ==> ValidDevice(km, r.data))
  {
    hide ProfilesFromToml, Settled, ValidProfile;
    match Get(t, "profiles")
    case Some(Table(ps)) => ProfilesSettled(km, ps);
    case _ =>
  }

  /** Reading the tree field by field gets no further than the defaults: each field is absent or at its
      default, up to the first one of the wrong type or the first profile that is refused. */
  predicate ReadsNothing(km: Keymap, t: Members) {
    var profile, calib, switch_ := StrField(t, PROFILE), StrField(t, CALIB), BoolField(t, AIRMOUSE);
    profile.Bad? ||
    ((profile.Absent? || profile == Present("default")) &&
     (calib.Bad? ||
      ((calib.Absent? || calib == Present("")) &&
       (switch_.Bad? || (switch_.Absent? && NoProfileRead(km, t))))))
  }

  predicate NoProfileRead(km: Keymap, t: Members) {
    match Get(t, PROFILES)
    case Some(Table(ps)) => ps == [] || ProfileFromToml(km, ps[0].key, ps[0].val).None?
    case _ => true
  }

  lemma {:induction false} NoneReadIff(km: Keymap, ps: Members)
    ensures ProfilesFromToml(km, ps).data == [] <==> ps == [] || ProfileFromToml(km, ps[0].key, ps[0].val).None?
    ensures ps != [] && ProfileFromToml(km, ps[0].key, ps[0].val).None? ==> !ProfilesFromToml(km, ps).ok
    decreases |ps|
  {
    hide ProfileFromToml;
    if |ps| == 1 {
      assert ps[..0] == [];
    } else if |ps| > 1 {
      assert ps[..|ps| - 1][0] == ps[0];
      NoneReadIff(km, ps[..|ps| - 1]);
    }
  }

  /** A load that fails leaves the defaults exactly when the text does not parse or nothing was read. */
  lemma FailedLoadIff(km: Keymap, libc: Libc, text: string)
    requires !LoadedText(km, libc, text).ok
    ensures LoadedText(km, libc, text).data == INITIAL <==>
            match Parse(libc, text)
            case Err(_, _) => true
            case Ok(t, _) => ReadsNothing(km, t)
  {
    hide Parse, ProfilesFromToml, ProfileFromToml, ValidProfiles;
    if Parse(libc, text).Ok? {
      var t := Parse(libc, text).value;
      match Get(t, PROFILES)
      case Some(Table(ps)) => NoneReadIff(km, ps);
      case _ =>
    }
  }

  /** A configuration survives saving and loading exactly when it is valid, its unset values are the
      defaults, and its numbers have no more than the 15 digits that are written. */
  lemma SaveLoadIff(km: Keymap, libc: Libc, dc: DeviceData)
    requires km.Valid() && Storable(libc, dc)
    ensures (SavedText(km, libc, dc).Some? &&
             LoadedText(km, libc, SavedText(km, libc, dc).value) == Loaded(true, dc)) <==>
            (ValidDevice(km, dc) && SettledDevice(dc) && ExactDevice(libc, dc))
  {
    hide Tidy, FromToml, Parse, ToToml, Dumps, SettledDevice, Storable, ExactDevice;
    if SavedText(km, libc, dc).Some? && Parse(libc, SavedText(km, libc, dc).value).Ok? {
      LoadSettles(km, Parse(libc, SavedText(km, libc, dc).value).value);
    }
    if ValidDevice(km, dc) && SettledDevice(dc) {
      SaveLoad(km, libc, dc);
      RereadExact(libc, dc);
    }
  }

  // ------------------------------------------------------------------
  // What the mutations keep
  // ------------------------------------------------------------------

  /** What the bus lets through: known codes, and numbers in the closed ranges. */
  predicate Allowed(km: Keymap, m: Mutation) {
    match m
    case MapButton(from, to) => km.NameOf(from).Some? && km.NameOf(to).Some?
    case SetScroll(v) => 0.0 <= v <= 100.0
    case SetSensitivity(v) => 0.0 <= v <= 10000.0
    case _ => true
  }

  /** The edit leaves the profile's values in range. */
  predicate InRangeEdit(km: Keymap, e: Edit) {
    match e
    case Map(from, to) => km.NameOf(from).Some? && km.NameOf(to).Some?
    case Clear => true
    case Scroll(v) => 0.0 < v <= 100.0
    case Sens(v) => 0.0 < v <= 10000.0
  }

  lemma {:induction false} WithButtonKnown(km: Keymap, m: seq<Entry>, from: int, to: int)
    requires KnownKeys(km, m) && km.NameOf(from).Some? && km.NameOf(to).Some?
    ensures KnownKeys(km, WithButton(m, from, to))
    decreases |m|
  {
    if m != [] && m[0].from != from {
      assert forall i :: 0 <= i < |m[1..]| ==> m[1..][i] == m[i + 1];
      WithButtonKnown(km, m[1..], from, to);
    }
  }

  lemma EditedProfile(km: Keymap, p: ProfileData, e: Edit)
    requires Settled(p) && KnownKeys(km, p.map_) && (InRangeEdit(km, e) || e.Scroll? || e.Sens?)
    ensures Settled(Edited(p, e)) && Edited(p, e).name == p.name && KnownKeys(km, Edited(p, e).map_)
    ensures ValidProfile(km, p) && InRangeEdit(km, e) ==> ValidProfile(km, Edited(p, e))
    ensures !InRangeEdit(km, e) ==> !ValidProfile(km, Edited(p, e))
  {
    if e.Map? {
      WithButtonUnique(p.map_, e.from, e.to);
      if KnownKeys(km, p.map_) && InRangeEdit(km, e) {
        WithButtonKnown(km, p.map_, e.from, e.to);
      }
    }
  }

  lemma EnsuredSettled(km: Keymap, ps: seq<ProfileData>, name: string)
    requires SettledProfiles(ps) && ValidProfiles(km, ps)
    ensures SettledProfiles(Ensured(ps, name)) && KnownMaps(km, Ensured(ps, name))
    ensures name != "" ==> ValidProfiles(km, Ensured(ps, name))
    ensures Find(Ensured(ps, name), name).Some?
  {
    FindIndex(ps, name);
    FindIndex(Ensured(ps, name), name);
    if Find(ps, name).None? {
      assert Ensured(ps, name)[|ps|].name == name;
    }
  }

  lemma EditSettled(km: Keymap, ps: seq<ProfileData>, name: string, e: Edit)
    requires SettledProfiles(ps) && KnownMaps(km, ps) && Find(ps, name).Some?
    requires InRangeEdit(km, e) || e.Scroll? || e.Sens?
    ensures var r := EditFirst(ps, name, e);
            && SettledProfiles(r) && KnownMaps(km, r)
            && Find(r, name) == Some(Edited(Find(ps, name).value, e))
            && (ValidProfiles(km, ps) && InRangeEdit(km, e) ==> ValidProfiles(km, r))
            && (!InRangeEdit(km, e) ==> !ValidProfiles(km, r))
            && (forall k :: k != name ==> Find(r, k) == Find(ps, k))
  {
    hide Settled, ValidProfile, Edited, Find, InRangeEdit, KnownKeys;
    FindIndex(ps, name);
    var i :| 0 <= i < |ps| && ps[i] == Find(ps, name).value && ps[i].name == name;
    EditAt(ps, i, name, e);
    EditedProfile(km, ps[i], e);
    var r := EditFirst(ps, name, e);
    assert r[i] == Edited(ps[i], e);
    assert forall j :: 0 <= j < |ps| ==> r[j].name == ps[j].name;
    FindUnique(r, i);
    forall k | k != name ensures Find(r, k) == Find(ps, k) {
      FindIndex(ps, k);
      if Find(ps, k).Some? {
        var j :| 0 <= j < |ps| && ps[j] == Find(ps, k).value && ps[j].name == k;
        assert r[j] == ps[j];
        FindUnique(r, j);
      } else {
        FindIndex(r, k);
      }
    }
  }

  lemma {:induction false} FindUnique(ps: seq<ProfileData>, i: nat)
    requires i < |ps| && forall a, b :: 0 <= a < b < |ps| ==> ps[a].name != ps[b].name
    ensures Find(ps, ps[i].name) == Some(ps[i])
    decreases i
  {
    if i > 0 {
      var tail := ps[1..];
      assert forall k :: 0 <= k < |tail| ==> tail[k] == ps[k + 1];
      FindUnique(tail, i - 1);
    }
  }

  /** Editing the first profile of a name leaves all others, and every name, as they are. */
  lemma {:induction false} EditFinds(ps: seq<ProfileData>, name: string, e: Edit)
    requires Find(ps, name).Some?
    ensures var r := EditFirst(ps, name, e);
            && |r| == |ps| && (forall i :: 0 <= i < |ps| ==> r[i].name == ps[i].name)
            && Find(r, name) == Some(Edited(Find(ps, name).value, e))
            && (forall k :: k != name ==> Find(r, k) == Find(ps, k))
    decreases |ps|
  {
    var r := EditFirst(ps, name, e);
    EditedName(ps[0], e);
    hide Edited;
    if ps[0].name == name {
      assert r[0] == Edited(ps[0], e) && r[1..] == ps[1..];
      forall k | k != name ensures Find(r, k) == Find(ps, k) {
      }
    } else {
      EditFinds(ps[1..], name, e);
      assert r[0] == ps[0] && r[1..] == EditFirst(ps[1..], name, e);
      forall k | k != name ensures Find(r, k) == Find(ps, k) {
      }
    }
  }

  lemma EditedName(p: ProfileData, e: Edit)
    ensures Edited(p, e).name == p.name
  {
  }

  lemma EnsuredFinds(ps: seq<ProfileData>, name: string)
    ensures var r := Ensured(ps, name);
            && Find(r, name) == Some(if Find(ps, name).Some? then Find(ps, name).value
                                     else ProfileData(name, 1.0, 30.0, -1.0, false, false, false, []))
            && forall k :: k != name ==> Find(r, k) == Find(ps, k)
  {
    if Find(ps, name).None? {
      forall k ensures Find(ps + [Fresh(name)], k) ==
                       if Find(ps, k).Some? then Find(ps, k) else if k == name then Some(Fresh(name)) else None {
        FindAppend(ps, Fresh(name), k);
      }
    }
  }

  lemma {:induction false} FindAppend(ps: seq<ProfileData>, p: ProfileData, k: string)
    ensures Find(ps + [p], k) == if Find(ps, k).Some? then Find(ps, k) else if p.name == k then Some(p) else None
  {
    if ps == [] {
      assert (ps + [p])[1..] == [];
    } else {
      assert (ps + [p])[1..] == ps[1..] + [p];
      FindAppend(ps[1..], p, k);
    }
  }

  /** What a mutation changes: the active profile, which is made with the built-in values if it is not there,
      or the calibration path; and nothing else. */
  lemma MutatedMeans(dc: DeviceData, m: Mutation)
    ensures var dc', was := Mutated(dc, m), Find(dc.profiles, dc.profile);
            var p := if was.Some? then was.value
                     else ProfileData(dc.profile, 1.0, 30.0, -1.0, false, false, false, []);
            var now := Find(dc'.profiles, dc.profile);
            && dc'.profile == dc.profile && dc'.airmouse == dc.airmouse && dc'.hasAirmouse == dc.hasAirmouse
            && (forall k :: k != dc.profile ==> Find(dc'.profiles, k) == Find(dc.profiles, k))
            && (!m.SetCalib? ==> dc'.calib == dc.calib)
            && match m
               case MapButton(from, to) =>
                 && now.Some? && now.value == p.(map_ := now.value.map_)
                 && (forall k :: Lookup(now.value.map_, k) == if k == from then to else Lookup(p.map_, k))
                 && (UniqueFrom(p.map_) ==> UniqueFrom(now.value.map_))
               case ResetButtons => if was.None? then dc' == dc else now == Some(p.(map_ := []))
               case SetScroll(v) => now == Some(p.(scrollSpeed := v, hasScroll := true))
               case SetSensitivity(v) => now == Some(p.(sensitivity := v, hasSens := true))
               case SetCalib(path) =>
                 dc'.profiles == dc.profiles && dc'.calib == if path == "" then None else Some(path)
  {
    var ps := Ensured(dc.profiles, dc.profile);
    EnsuredFinds(dc.profiles, dc.profile);
    hide EditFirst, Find, Ensured, Lookup;
    match m
    case MapButton(from, to) =>
      EditFinds(ps, dc.profile, Map(from, to));
      var p := Find(ps, dc.profile).value;
      forall k ensures Lookup(WithButton(p.map_, from, to), k) == if k == from then to else Lookup(p.map_, k) {
        WithButtonLookup(p.map_, from, to, k);
      }
      if UniqueFrom(p.map_) {
        WithButtonUnique(p.map_, from, to);
      }
    case ResetButtons => EditFinds(ps, dc.profile, Clear);
    case SetScroll(v) => EditFinds(ps, dc.profile, Scroll(v));
    case SetSensitivity(v) => EditFinds(ps, dc.profile, Sens(v));
    case SetCalib(_) =>
  }

  /** When the configuration after a permitted mutation is one the next load will accept: a speed or
      sensitivity must not be 0, and a mutation that does not create the active profile needs it to
      be defined. */
  predicate Reloadable(dc: DeviceData, m: Mutation) {
    && dc.profile != ""
    && match m
       case MapButton(_, _) => true
       case SetScroll(v) => v != 0.0
       case SetSensitivity(v) => v != 0.0
       case ResetButtons => ActiveDefined(dc)
       case SetCalib(_) => ActiveDefined(dc)
  }

  lemma EditActiveSettled(km: Keymap, dc: DeviceData, e: Edit)
    requires SettledDevice(dc) && ValidProfiles(km, dc.profiles)
    requires InRangeEdit(km, e) || e.Scroll? || e.Sens?
    ensures var dc' := ActiveEdited(dc, e);
            && SettledDevice(dc') && KnownMaps(km, dc'.profiles) && dc'.profile == dc.profile
            && (ValidDevice(km, dc') <==> dc.profile != "" && InRangeEdit(km, e))
  {
    hide Settled, ValidProfile, Edited, EditFirst, Ensured, Find, KnownKeys, InRangeEdit;
    EnsuredSettled(km, dc.profiles, dc.profile);
    EditSettled(km, Ensured(dc.profiles, dc.profile), dc.profile, e);
  }

  /** A permitted mutation keeps everything settled, and the result is valid exactly when it is
      reloadable. */
  lemma MutatedSettled(km: Keymap, dc: DeviceData, m: Mutation)
    requires SettledDevice(dc) && ValidProfiles(km, dc.profiles) && Allowed(km, m)
    ensures var dc' := Mutated(dc, m);
            && SettledDevice(dc') && KnownMaps(km, dc'.profiles) && dc'.profile == dc.profile
            && (ValidDevice(km, dc') <==> Reloadable(dc, m))
  {
    hide Settled, ActiveEdited;
    match m
    case MapButton(from, to) => EditActiveSettled(km, dc, Map(from, to));
    case ResetButtons =>
      if Find(dc.profiles, dc.profile).Some? {
        EditActiveSettled(km, dc, Clear);
      }
    case SetScroll(v) => EditActiveSettled(km, dc, Scroll(v));
    case SetSensitivity(v) => EditActiveSettled(km, dc, Sens(v));
    case SetCalib(_) =>
  }

  // ------------------------------------------------------------------
  // Rounding
  // ------------------------------------------------------------------

  /** What printing with 15 digits and reading back does to numbers: a rounding, monotone, that leaves
      rounded numbers alone, keeps the limits of the settings, and does not round a positive number to 0. */
  ghost predicate Rounds(libc: Libc) {
    && AllPrintable(libc)
    && (forall d: real :: Rounded(libc, Rounded(libc, d)) == Rounded(libc, d))
    && (forall a: real, b: real :: a <= b ==> Rounded(libc, a) <= Rounded(libc, b))
    && (forall d: real :: d > 0.0 ==> Rounded(libc, d) > 0.0)
    && Rounded(libc, 0.0) == 0.0 && Rounded(libc, 1.0) == 1.0
    && Rounded(libc, 100.0) == 100.0 && Rounded(libc, 10000.0) == 10000.0
  }

  /** The same configuration up to the digits that are written. */
  ghost predicate SameText(libc: Libc, a: DeviceData, b: DeviceData) {
    RereadDevice(libc, a) == RereadDevice(libc, b)
  }

  lemma RereadTwice(libc: Libc, dc: DeviceData)
    requires Rounds(libc)
    ensures RereadDevice(libc, RereadDevice(libc, dc)) == RereadDevice(libc, dc)
  {
    hide Rounded;
    var r := RereadProfiles(libc, dc.profiles);
    forall i | 0 <= i < |r| ensures RereadProfile(libc, r[i]) == r[i] {
    }
    assert RereadProfiles(libc, r) == r;
  }

  lemma RereadFinds(libc: Libc, ps: seq<ProfileData>, name: string)
    ensures Find(RereadProfiles(libc, ps), name).Some? <==> Find(ps, name).Some?
  {
    FindIndex(ps, name);
    FindIndex(RereadProfiles(libc, ps), name);
    hide Rounded, Find;
    if Find(ps, name).Some? {
      var i :| 0 <= i < |ps| && ps[i].name == name;
      assert RereadProfiles(libc, ps)[i].name == name;
    }
  }

  lemma RereadProfileValid(km: Keymap, libc: Libc, p: ProfileData)
    requires Rounds(libc) && Settled(p)
    ensures ValidProfile(km, p) ==> ValidProfile(km, RereadProfile(libc, p))
  {
    hide Rounded, KnownKeys, AllPrintable;
  }

  lemma ZeroRefused(km: Keymap, libc: Libc, p: ProfileData)
    requires Rounded(libc, 0.0) == 0.0
    requires (p.hasScroll && p.scrollSpeed == 0.0) || (p.hasSens && p.sensitivity == 0.0)
    ensures !ValidProfile(km, RereadProfile(libc, p))
  {
    hide Rounded, KnownKeys;
  }

  /** With rounding the next load accepts the configuration after a permitted mutation exactly when the
      mutation is reloadable. */
  lemma RereadReloadable(km: Keymap, libc: Libc, dc: DeviceData, m: Mutation)
    requires Rounds(libc) && SettledDevice(dc) && ValidProfiles(km, dc.profiles) && Allowed(km, m)
    ensures ValidDevice(km, RereadDevice(libc, Mutated(dc, m))) <==> Reloadable(dc, m)
  {
    var dc' := Mutated(dc, m);
    MutatedSettled(km, dc, m);
    RereadFinds(libc, dc'.profiles, dc'.profile);
    forall i | 0 <= i < |dc'.profiles|
      ensures ValidProfile(km, dc'.profiles[i]) ==> ValidProfile(km, RereadProfiles(libc, dc'.profiles)[i])
    {
      RereadProfileValid(km, libc, dc'.profiles[i]);
    }
    assert Rounded(libc, 0.0) == 0.0;
    hide Rounds, Rounded, Settled, ValidProfile, Find, RereadProfiles;
    if dc.profile != "" && !Reloadable(dc, m) {
      match m
      case SetScroll(v) => ZeroStays(km, libc, dc, Scroll(v));
      case SetSensitivity(v) => ZeroStays(km, libc, dc, Sens(v));
      case _ =>
    }
  }

  /** After a number has been set, some profile holds it. */
  lemma NumberHeld(km: Keymap, dc: DeviceData, e: Edit) returns (i: nat)
    requires SettledDevice(dc) && ValidProfiles(km, dc.profiles) && (e.Scroll? || e.Sens?)
    ensures var ps := ActiveEdited(dc, e).profiles;
            && i < |ps|
            && (e.Scroll? ==> ps[i].hasScroll && ps[i].scrollSpeed == e.v)
            && (e.Sens? ==> ps[i].hasSens && ps[i].sensitivity == e.v)
  {
    var all := Ensured(dc.profiles, dc.profile);
    var edited := EditFirst(all, dc.profile, e);
    EnsuredSettled(km, dc.profiles, dc.profile);
    EditSettled(km, all, dc.profile, e);
    hide ValidProfile, Find, EditFirst, Ensured;
    FindIndex(edited, dc.profile);
    i :| 0 <= i < |edited| && edited[i] == Find(edited, dc.profile).value;
  }

  /** A speed or sensitivity of 0 is read back as 0, and refused. */
  lemma ZeroStays(km: Keymap, libc: Libc, dc: DeviceData, e: Edit)
    requires Rounded(libc, 0.0) == 0.0 && SettledDevice(dc) && ValidProfiles(km, dc.profiles)
    requires e == Scroll(0.0) || e == Sens(0.0)
    ensures !ValidProfiles(km, RereadProfiles(libc, ActiveEdited(dc, e).profiles))
  {
    var i := NumberHeld(km, dc, e);
    hide Rounded, ValidProfile, ActiveEdited;
    var ps := ActiveEdited(dc, e).profiles;
    ZeroRefused(km, libc, ps[i]);
    assert RereadProfiles(libc, ps)[i] == RereadProfile(libc, ps[i]);
  }

  lemma LongHeld(km: Keymap, libc: Libc, dc: DeviceData, v: real)
    requires SettledDevice(dc) && ValidProfiles(km, dc.profiles) && Rounded(libc, v) != v
    ensures !ExactDevice(libc, ActiveEdited(dc, Scroll(v)))
  {
    var i := NumberHeld(km, dc, Scroll(v));
    hide Rounded, ActiveEdited;
    assert !ExactProfile(libc, ActiveEdited(dc, Scroll(v)).profiles[i]);
  }

  lemma {:induction false} EditSameText(libc: Libc, a: seq<ProfileData>, b: seq<ProfileData>, name: string, e: Edit)
    requires RereadProfiles(libc, a) == RereadProfiles(libc, b)
    ensures RereadProfiles(libc, EditFirst(a, name, e)) == RereadProfiles(libc, EditFirst(b, name, e))
    decreases |a|
  {
    hide Rounded;
    var ra, rb := RereadProfiles(libc, a), RereadProfiles(libc, b);
    if a != [] {
      assert ra[0] == RereadProfile(libc, a[0]) && rb[0] == RereadProfile(libc, b[0]);
      TailsSame(libc, a, b);
      if a[0].name == name {
        HeadsSame(libc, [Edited(a[0], e)] + a[1..], [Edited(b[0], e)] + b[1..]);
      } else {
        EditSameText(libc, a[1..], b[1..], name, e);
        HeadsSame(libc, EditFirst(a, name, e), EditFirst(b, name, e));
      }
    }
  }

  lemma TailsSame(libc: Libc, a: seq<ProfileData>, b: seq<ProfileData>)
    requires a != [] && RereadProfiles(libc, a) == RereadProfiles(libc, b)
    ensures |a| == |b| && RereadProfiles(libc, a[1..]) == RereadProfiles(libc, b[1..])
  {
    hide RereadProfile;
    forall i | 0 <= i < |a| - 1 ensures RereadProfile(libc, a[1..][i]) == RereadProfile(libc, b[1..][i]) {
      assert RereadProfiles(libc, a)[i + 1] == RereadProfiles(libc, b)[i + 1];
    }
  }

  lemma HeadsSame(libc: Libc, a: seq<ProfileData>, b: seq<ProfileData>)
    requires a != [] && b != [] && RereadProfile(libc, a[0]) == RereadProfile(libc, b[0])
    requires RereadProfiles(libc, a[1..]) == RereadProfiles(libc, b[1..])
    ensures RereadProfiles(libc, a) == RereadProfiles(libc, b)
  {
    hide RereadProfile;
    forall i | 0 <= i < |a| ensures RereadProfile(libc, a[i]) == RereadProfile(libc, b[i]) {
      if i > 0 {
        assert RereadProfiles(libc, a[1..])[i - 1] == RereadProfiles(libc, b[1..])[i - 1];
      }
    }
  }

  /** Mutations see no more of a number than its text. */
  lemma MutatedSameText(libc: Libc, a: DeviceData, b: DeviceData, m: Mutation)
    requires SameText(libc, a, b)
    ensures SameText(libc, Mutated(a, m), Mutated(b, m))
  {
    hide RereadProfile;
    RereadFinds(libc, a.profiles, a.profile);
    RereadFinds(libc, b.profiles, b.profile);
    EnsuredSameText(libc, a.profiles, b.profiles, a.profile);
    match m
    case MapButton(from, to) => ActiveSameText(libc, a, b, Map(from, to));
    case ResetButtons => ActiveSameText(libc, a, b, Clear);
    case SetScroll(v) => ActiveSameText(libc, a, b, Scroll(v));
    case SetSensitivity(v) => ActiveSameText(libc, a, b, Sens(v));
    case SetCalib(_) =>
  }

  lemma EnsuredSameText(libc: Libc, a: seq<ProfileData>, b: seq<ProfileData>, name: string)
    requires RereadProfiles(libc, a) == RereadProfiles(libc, b)
    ensures RereadProfiles(libc, Ensured(a, name)) == RereadProfiles(libc, Ensured(b, name))
  {
    hide RereadProfile;
    RereadFinds(libc, a, name);
    RereadFinds(libc, b, name);
    assert (a + [Fresh(name)])[..|a|] == a && (b + [Fresh(name)])[..|b|] == b;
  }

  lemma ActiveSameText(libc: Libc, a: DeviceData, b: DeviceData, e: Edit)
    requires SameText(libc, a, b)
    ensures SameText(libc, ActiveEdited(a, e), ActiveEdited(b, e))
  {
    hide RereadProfile;
    EnsuredSameText(libc, a.profiles, b.profiles, a.profile);
    EditSameText(libc, Ensured(a.profiles, a.profile), Ensured(b.profiles, b.profile), a.profile, e);
  }
}
