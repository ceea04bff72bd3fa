/**
 The device file format (tools/src/profiles.c): which trees are read as which configuration, and what is
 written, key by key.
 */
module DeviceFormat {
  import opened Wrappers
  import opened TomlTree
  import opened TomlReader
  import opened TomlRoundTrip
  import opened TomlWellFormed
  import opened Profiles
  import opened DeviceConfig
  import opened DeviceRoundTrip

  // ------------------------------------------------------------------
  // What a configuration is in the file
  // ------------------------------------------------------------------

  /** A number, written as a float or as an integer, or left unset. */
  predicate NumberIs(v: Option<Value>, has: bool, d: real, unset: real) {
    match v
    case None => !has && d == unset
    case Some(Float(x)) => has && d == x
    case Some(Int(i)) => has && d == i as real
    case Some(_) => false
  }

  /** A button map: one pair of key names for each entry, in order. */
  predicate ButtonsAre(km: Keymap, v: Option<Value>, m: seq<Entry>) {
    match v
    case None => m == []
    case Some(Table(bm)) =>
      && |bm| == |m|
      && forall i :: 0 <= i < |m| ==>
           (m[i].from, bm[i].key) in km.table && bm[i].val.Str? && (m[i].to, bm[i].val.s) in km.table
    case Some(_) => false
  }

  predicate ProfileIs(km: Keymap, t: Members, p: ProfileData) {
    && NumberIs(Get(t, "scroll_speed"), p.hasScroll, p.scrollSpeed, 1.0)
    && NumberIs(Get(t, "sensitivity"), p.hasSens, p.sensitivity, 30.0)
    && NumberIs(Get(t, "lpf_alpha"), p.hasLpf, p.lpfAlpha, -1.0)
    && ButtonsAre(km, Get(t, "button_map"), p.map_)
  }

  /** The limits of profile_validate. */
  predicate InLimits(p: ProfileData) {
    && p.name != ""
    && 0.0 < p.scrollSpeed <= 100.0 && 0.0 < p.sensitivity <= 10000.0
    && (p.hasLpf ==> 0.0 <= p.lpfAlpha <= 1.0)
  }

  predicate ProfilesAre(km: Keymap, v: Option<Value>, ps: seq<ProfileData>) {
    match v
    case None => ps == []
    case Some(Table(t)) =>
      && |t| == |ps|
      && forall i :: 0 <= i < |ps| ==>
           ps[i].name == t[i].key && t[i].val.Table? && ProfileIs(km, t[i].val.members, ps[i])
    case Some(_) => false
  }

  predicate DeviceIs(km: Keymap, t: Members, dc: DeviceData) {
    && (match Get(t, "profile")
        case None => dc.profile == "default"
        case Some(Str(s)) => dc.profile == s
        case _ => false)
    && (match Get(t, "calib")
        case None => dc.calib == None
        case Some(Str(s)) => dc.calib == if s == "" then None else Some(s)
        case _ => false)
    && (match Get(t, "airmouse")
        case None => dc.airmouse && !dc.hasAirmouse
        case Some(Bool(b)) => dc.airmouse == b && dc.hasAirmouse
        case _ => false)
    && ProfilesAre(km, Get(t, "profiles"), dc.profiles)
  }

  /** What device_config_validate asks for besides. */
  predicate Sound(dc: DeviceData) {
    && dc.profile != ""
    && (forall i :: 0 <= i < |dc.profiles| ==> InLimits(dc.profiles[i]))
    && (dc.profile == "default" || exists i :: 0 <= i < |dc.profiles| && dc.profiles[i].name == dc.profile)
  }

  // ------------------------------------------------------------------
  // Reading
  // ------------------------------------------------------------------

  /** The code and the name stand in the same row of the table. */
  lemma RowOf(km: Keymap, code: int, name: string)
    requires km.Valid()
    ensures (code, name) in km.table <==> km.CodeOf(name) == code && code >= 0
    ensures (code, name) in km.table <==> km.NameOf(code) == Some(name)
  {
    km.CodeOfKnown(name);
    if (code, name) in km.table {
      var j :| 0 <= j < |km.table| && km.table[j] == (code, name);
      km.CodeOfIndex(name, 0, j);
      NameOfRow(km, 0, j);
    }
    if km.NameOf(code).Some? {
      km.NameOfIndex(code, 0);
    }
  }

  lemma {:induction false} NameOfRow(km: Keymap, i: nat, j: nat)
    requires km.Valid() && i <= j < |km.table|
    ensures km.NameOfFrom(km.table[j].0, i) == Some(km.table[j].1)
    decreases j - i
  {
    if i < j {
      NameOfRow(km, i + 1, j);
    }
  }

  /** The entries that a button map's table stands for. */
  function Pairs(km: Keymap, bm: Members): (m: seq<Entry>)
    requires forall i :: 0 <= i < |bm| ==> bm[i].val.Str?
    ensures |m| == |bm|
  {
    seq(|bm|, i requires 0 <= i < |bm| => Entry(km.CodeOf(bm[i].key), km.CodeOf(bm[i].val.s)))
  }

  predicate Known(km: Keymap, bm: Members) {
    forall i :: 0 <= i < |bm| ==> bm[i].val.Str? && km.CodeOf(bm[i].key) >= 0 && km.CodeOf(bm[i].val.s) >= 0
  }

  lemma {:induction false} ButtonsRead(km: Keymap, bm: Members)
    requires km.Valid() && Unique(bm)
    ensures ButtonsFromToml(km, bm, []).Some? <==> Known(km, bm)
    ensures Known(km, bm) ==> ButtonsFromToml(km, bm, []) == Some(Pairs(km, bm))
    decreases |bm|
  {
    if bm != [] {
      var init, b := bm[..|bm| - 1], bm[|bm| - 1];
      ButtonsRead(km, init);
      assert bm == init + [b];
      if Known(km, bm) {
        var m := Pairs(km, init);
        var from := km.CodeOf(b.key);
        forall i | 0 <= i < |m| ensures m[i].from != from {
          RowOf(km, from, b.key);
          RowOf(km, m[i].from, bm[i].key);
          assert bm[i].key != b.key;
        }
        WithButtonKeys(m, from, km.CodeOf(b.val.s));
        assert Pairs(km, bm) == m + [Entry(from, km.CodeOf(b.val.s))];
      }
    }
  }

  lemma ButtonsReadIff(km: Keymap, bm: Members, m: seq<Entry>)
    requires km.Valid() && Unique(bm)
    ensures ButtonsFromToml(km, bm, []) == Some(m) <==> ButtonsAre(km, Some(Table(bm)), m)
    ensures ButtonsAre(km, Some(Table(bm)), m) ==> KnownKeys(km, m)
  {
    ButtonsRead(km, bm);
    if ButtonsAre(km, Some(Table(bm)), m) {
      forall i | 0 <= i < |m|
        ensures km.CodeOf(bm[i].key) == m[i].from >= 0 && km.CodeOf(bm[i].val.s) == m[i].to >= 0
        ensures km.NameOf(m[i].from).Some? && km.NameOf(m[i].to).Some?
      {
        RowOf(km, m[i].from, bm[i].key);
        RowOf(km, m[i].to, bm[i].val.s);
      }
      assert m == Pairs(km, bm);
    }
    if Known(km, bm) && m == Pairs(km, bm) {
      forall i | 0 <= i < |m| ensures (m[i].from, bm[i].key) in km.table && (m[i].to, bm[i].val.s) in km.table {
        RowOf(km, m[i].from, bm[i].key);
        RowOf(km, m[i].to, bm[i].val.s);
      }
    }
  }

  predicate UniqueButtons(t: Members) {
    match Get(t, "button_map") case Some(Table(bm)) => forall i, j :: 0 <= i < j < |bm| ==> bm[i].key != bm[j].key
                               case _ => true
  }

  /** A profile's table is read as exactly the profile that it is, if that is within the limits. */
  lemma ProfileReadIff(km: Keymap, name: string, t: Members, p: ProfileData)
    requires km.Valid() && UniqueButtons(t)
    ensures ProfileFromToml(km, name, Table(t)) == Some(p) <==> p.name == name && ProfileIs(km, t, p) && InLimits(p)
  {
    hide ButtonsFromToml, ButtonsAre, KnownKeys;
    match Get(t, "button_map")
    case Some(Table(bm)) =>
      ButtonsReadIff(km, bm, p.map_);
      if ButtonsFromToml(km, bm, []).Some? {
        ButtonsReadIff(km, bm, ButtonsFromToml(km, bm, []).value);
      }
    case None => NoButtons(km, p.map_);
    case Some(v) => NoTable(km, v, p.map_);
  }

  lemma NoButtons(km: Keymap, m: seq<Entry>)
    ensures ButtonsAre(km, None, m) <==> m == []
    ensures KnownKeys(km, [])
  {
  }

  lemma NoTable(km: Keymap, v: Value, m: seq<Entry>)
    requires !v.Table?
    ensures !ButtonsAre(km, Some(v), m)
  {
  }

  predicate UniqueMaps(t: Members) {
    forall i :: 0 <= i < |t| && t[i].val.Table? ==> UniqueButtons(t[i].val.members)
  }

  /** The profiles are read as exactly those that their tables are. */
  lemma {:induction false} ProfilesReadIff(km: Keymap, t: Members, ps: seq<ProfileData>)
    requires km.Valid() && Unique(t) && UniqueMaps(t)
    ensures ProfilesFromToml(km, t) == Loaded(true, ps) <==>
            ProfilesAre(km, Some(Table(t)), ps) && forall i :: 0 <= i < |ps| ==> InLimits(ps[i])
    decreases |t|
  {
    hide ProfileFromToml, ProfileIs, InLimits, UniqueButtons;
    if t != [] {
      var init, m := t[..|t| - 1], t[|t| - 1];
      var r := ProfilesFromToml(km, init);
      assert t == init + [m];
      ProfilesReadIff(km, init, r.data);
      if |ps| == |t| {
        ProfilesReadIff(km, init, ps[..|ps| - 1]);
        assert ps == ps[..|ps| - 1] + [ps[|ps| - 1]];
        if m.val.Table? {
          ProfileReadIff(km, m.key, m.val.members, ps[|ps| - 1]);
        }
      }
      if r.ok {
        NewName(km, init, r.data, m.key);
      }
      NoTableNoProfile(km, m.key, m.val);
      if ProfileFromToml(km, m.key, m.val).Some? {
        ProfileReadIff(km, m.key, m.val.members, ProfileFromToml(km, m.key, m.val).value);
      }
    }
  }

  lemma NoTableNoProfile(km: Keymap, name: string, v: Value)
    ensures !v.Table? ==> ProfileFromToml(km, name, v).None?
  {
  }

  lemma NewName(km: Keymap, t: Members, ps: seq<ProfileData>, name: string)
    requires ProfilesAre(km, Some(Table(t)), ps) && forall i :: 0 <= i < |t| ==> t[i].key != name
    ensures Find(ps, name).None?
  {
    FindIndex(ps, name);
  }

  predicate UniqueParts(t: Members) {
    match Get(t, "profiles")
    case Some(Table(ps)) => (forall i, j :: 0 <= i < j < |ps| ==> ps[i].key != ps[j].key) && UniqueMaps(ps)
    case _ => true
  }

  lemma SoundIsValid(km: Keymap, dc: DeviceData)
    requires forall i :: 0 <= i < |dc.profiles| ==> KnownKeys(km, dc.profiles[i].map_)
    ensures ValidDevice(km, dc) <==> Sound(dc)
  {
    FindIndex(dc.profiles, dc.profile);
    hide KnownKeys, Find;
  }

  /** A tree is read as exactly the configuration that it is, if that passes the checks. */
  lemma DeviceReadIff(km: Keymap, t: Members, dc: DeviceData)
    requires km.Valid() && UniqueParts(t)
    ensures FromToml(km, t, INITIAL) == Loaded(true, dc) <==> DeviceIs(km, t, dc) && Sound(dc)
  {
    hide ProfilesFromToml, ProfileIs, InLimits, KnownKeys, ValidDevice, UniqueMaps;
    match Get(t, "profiles")
    case Some(Table(ps)) =>
      var r := ProfilesFromToml(km, ps);
      ProfilesReadIff(km, ps, r.data);
      ProfilesReadIff(km, ps, dc.profiles);
      ReadKnown(km, ps);
      SoundIsValid(km, dc.(profiles := r.data));
    case None => SoundIsValid(km, dc.(profiles := []));
    case _ =>
  }

  lemma ReadKnown(km: Keymap, t: Members)
    ensures forall i :: 0 <= i < |ProfilesFromToml(km, t).data| ==>
              KnownKeys(km, ProfilesFromToml(km, t).data[i].map_)
  {
    ProfilesSettled(km, t);
    hide ProfilesFromToml, KnownKeys;
  }

  /** A device file is read as exactly the configuration that its tree is, if that passes the checks. */
  lemma FileReadIff(km: Keymap, libc: Libc, text: string, dc: DeviceData)
    requires km.Valid() && AllPrintable(libc)
    ensures LoadedText(km, libc, text) == Loaded(true, dc) <==>
            Parse(libc, text).Ok? && DeviceIs(km, Parse(libc, text).value, dc) && Sound(dc)
  {
    hide Parse, FromToml, DeviceIs, Sound, UniqueParts, WritableTable;
    if Parse(libc, text).Ok? {
      ParseWritable(libc, text);
      PartsUnique(libc, Parse(libc, text).value);
      DeviceReadIff(km, Parse(libc, text).value, dc);
    }
  }

  lemma PartsUnique(libc: Libc, t: Members)
    requires WritableTable(libc, t)
    ensures UniqueParts(t)
  {
    match Get(t, "profiles")
    case Some(Table(ps)) =>
      MemberWritable(libc, t, "profiles");
      forall i | 0 <= i < |ps| && ps[i].val.Table? ensures UniqueButtons(ps[i].val.members) {
        IndexWritable(libc, ps, i);
        match Get(ps[i].val.members, "button_map") {
          case Some(Table(_)) => MemberWritable(libc, ps[i].val.members, "button_map");
          case _ =>
        }
      }
    case _ =>
  }

  lemma MemberWritable(libc: Libc, t: Members, key: string)
    requires WritableTable(libc, t) && Get(t, key).Some? && Get(t, key).value.Table?
    ensures WritableTable(libc, Get(t, key).value.members)
  {
    GetWritable(libc, t, key);
  }

  lemma {:induction false} IndexWritable(libc: Libc, t: Members, i: nat)
    requires WritableMembers(libc, t) && i < |t|
    ensures Writable(libc, t[i].val)
  {
    if i > 0 {
      IndexWritable(libc, t[1..], i - 1);
    }
  }

  // ------------------------------------------------------------------
  // Writing
  // ------------------------------------------------------------------

  function Keys(t: Members): (ks: seq<string>)
    ensures |ks| == |t|
  {
    seq(|t|, i requires 0 <= i < |t| => t[i].key)
  }

  function KeyIf(has: bool, key: string): seq<string> { if has then [key] else [] }

  /** The keys of a profile's table, in the order they are written. */
  function ProfileKeys(p: ProfileData): seq<string> {
    KeyIf(p.hasScroll, "scroll_speed") + KeyIf(p.hasSens, "sensitivity") + KeyIf(p.hasLpf, "lpf_alpha")
    + KeyIf(p.map_ != [], "button_map")
  }

  function DeviceKeys(dc: DeviceData): seq<string> {
    ["profile"] + KeyIf(dc.calib.Some?, "calib") + KeyIf(dc.hasAirmouse, "airmouse")
    + KeyIf(dc.profiles != [], "profiles")
  }

  lemma KeysSum(a: Members, b: Members)
    ensures Keys(a + b) == Keys(a) + Keys(b)
  {
  }

  lemma NumbersKeys(p: ProfileData)
    ensures Keys(NumbersToToml(p)) ==
            KeyIf(p.hasScroll, "scroll_speed") + KeyIf(p.hasSens, "sensitivity") + KeyIf(p.hasLpf, "lpf_alpha")
  {
  }

  /** A profile is written as a table that it is, with the set numbers first and the button map last. */
  lemma ProfileWritten(km: Keymap, libc: Libc, p: ProfileData)
    requires km.Valid() && KnownKeys(km, p.map_) && Settled(p)
    ensures ProfileToToml(km, p).Some?
    ensures var t := ProfileToToml(km, p).value; ProfileIs(km, t, p) && Keys(t) == ProfileKeys(p)
  {
    hide NumbersToToml, ButtonsToToml, ButtonsFromToml, ButtonsAre, KnownKeys, Tidy;
    NumbersBack(p);
    NumbersKeys(p);
    NoButtons(km, p.map_);
    KeysDiffer();
    if p.map_ != [] {
      ButtonsBack(km, libc, p.map_);
      var bm := ButtonsToToml(km, p.map_).value;
      KeysUnique(km, bm, p.map_);
      ButtonsReadIff(km, bm, p.map_);
      var last := Member("button_map", Table(bm));
      OneGet(NumbersToToml(p), last);
      KeysSum(NumbersToToml(p), [last]);
      assert Keys([last]) == ["button_map"];
    }
  }

  lemma KeysUnique(km: Keymap, bm: Members, m: seq<Entry>)
    requires km.Valid() && NamesOf(km, bm, m) && UniqueFrom(m)
    ensures Unique(bm)
  {
    forall i, j | 0 <= i < j < |bm| ensures bm[i].key != bm[j].key {
      km.NamesDiffer(m[i].from, m[j].from);
    }
  }

  lemma {:induction false} ProfilesWritten(km: Keymap, libc: Libc, ps: seq<ProfileData>)
    requires km.Valid() && KnownMaps(km, ps) && SettledProfiles(ps)
    ensures ProfilesToToml(km, ps).Some?
    ensures var t := ProfilesToToml(km, ps).value;
            && ProfilesAre(km, Some(Table(t)), ps)
            && forall i :: 0 <= i < |ps| ==> Keys(t[i].val.members) == ProfileKeys(ps[i])
    decreases |ps|
  {
    hide ProfileToToml, ProfileIs, Settled, KnownKeys, ProfileKeys, Keys;
    if ps != [] {
      var init, p := ps[..|ps| - 1], ps[|ps| - 1];
      assert ps == init + [p];
      ProfilesWritten(km, libc, init);
      ProfileWritten(km, libc, p);
      NewProfile(km, libc, init, p.name);
    }
  }

  /** A configuration is written as a tree that it is, key after key in this order. */
  lemma DeviceWritten(km: Keymap, libc: Libc, dc: DeviceData)
    requires km.Valid() && KnownMaps(km, dc.profiles) && SettledDevice(dc)
    ensures ToToml(km, dc).Some?
    ensures var t := ToToml(km, dc).value;
            && DeviceIs(km, t, dc) && Keys(t) == DeviceKeys(dc)
            && (dc.profiles != [] ==>
                  forall i :: 0 <= i < |dc.profiles| ==>
                    Keys(Get(t, "profiles").value.members[i].val.members) == ProfileKeys(dc.profiles[i]))
  {
    hide HeadToToml, ProfilesToToml, ProfileIs, ProfileKeys, Keys, SettledProfiles;
    HeadBack(dc);
    HeadKeys(dc);
    HeadKeysDiffer();
    if dc.profiles != [] {
      ProfilesWritten(km, libc, dc.profiles);
      var last := Member("profiles", Table(ProfilesToToml(km, dc.profiles).value));
      OneGet(HeadToToml(dc), last);
      KeysSum(HeadToToml(dc), [last]);
      OneKey(last);
    }
  }

  lemma OneKey(m: Member)
    ensures Keys([m]) == [m.key]
  {
  }

  lemma HeadKeys(dc: DeviceData)
    ensures Keys(HeadToToml(dc)) == ["profile"] + KeyIf(dc.calib.Some?, "calib") + KeyIf(dc.hasAirmouse, "airmouse")
  {
  }

  /** A code without a name cannot be written. */
  lemma NamelessRefused(km: Keymap, dc: DeviceData, i: nat, k: nat)
    requires i < |dc.profiles| && k < |dc.profiles[i].map_|
    requires km.NameOf(dc.profiles[i].map_[k].from).None? || km.NameOf(dc.profiles[i].map_[k].to).None?
    ensures ToToml(km, dc).None?
  {
    NamelessProfiles(km, dc.profiles, i, k);
  }

  lemma {:induction false} NamelessProfiles(km: Keymap, ps: seq<ProfileData>, i: nat, k: nat)
    requires i < |ps| && k < |ps[i].map_|
    requires km.NameOf(ps[i].map_[k].from).None? || km.NameOf(ps[i].map_[k].to).None?
    ensures ProfilesToToml(km, ps).None?
    decreases |ps|
  {
    if i < |ps| - 1 {
      NamelessProfiles(km, ps[..|ps| - 1], i, k);
    } else {
      NamelessButtons(km, ps[i].map_, k);
    }
  }

  lemma {:induction false} NamelessButtons(km: Keymap, m: seq<Entry>, k: nat)
    requires k < |m| && (km.NameOf(m[k].from).None? || km.NameOf(m[k].to).None?)
    ensures ButtonsToToml(km, m).None?
    decreases |m|
  {
    if k < |m| - 1 {
      NamelessButtons(km, m[..|m| - 1], k);
    }
  }
}
