/**
 Device configurations (tools/src/profiles.c): the active profile, the calibration path, the airmouse
 switch and the profiles of one remote, with their TOML form.
 */
module DeviceConfig {
  import opened Wrappers
  import opened TomlTree
  import opened Profiles

  /** The value of a `struct device_config`. */
  datatype DeviceData = DeviceData(
    profile: string,
    calib: Option<string>,
    airmouse: bool,
    hasAirmouse: bool,
    profiles: seq<ProfileData>)

  const INITIAL: DeviceData := DeviceData("default", None, true, false, [])

  /** profile_find. */
  function Find(ps: seq<ProfileData>, name: string): Option<ProfileData> {
    if ps == [] then None
    else if ps[0].name == name then Some(ps[0])
    else Find(ps[1..], name)
  }

  predicate ValidProfiles(km: Keymap, ps: seq<ProfileData>) {
    forall i :: 0 <= i < |ps| ==> ValidProfile(km, ps[i])
  }

  /** The active profile may be the implicit built-in "default". */
  predicate ActiveDefined(dc: DeviceData) { dc.profile == "default" || Find(dc.profiles, dc.profile).Some? }

  /** device_config_validate. */
  predicate ValidDevice(km: Keymap, dc: DeviceData) {
    dc.profile != "" && ValidProfiles(km, dc.profiles) && ActiveDefined(dc)
  }

  // ------------------------------------------------------------------
  // To TOML
  // ------------------------------------------------------------------

  /** toml_table_add of a value built on the spot. */
  function Add(t: Members, key: string, v: Value): Option<Members> {
    if Get(t, key).Some? then None else Some(t + [Member(key, v)])
  }

  /** The button map as a table of key names; None on an unknown or repeated key. */
  function ButtonsToToml(km: Keymap, m: seq<Entry>): Option<Members>
    decreases |m|
  {
    if m == [] then Some([])
    else
      var init, e := m[..|m| - 1], m[|m| - 1];
      match ButtonsToToml(km, init)
      case None => None
      case Some(t) =>
        if km.NameOf(e.from).None? || km.NameOf(e.to).None? then None
        else Add(t, km.NameOf(e.from).value, Str(km.NameOf(e.to).value))
  }

  function NumbersToToml(p: ProfileData): Members {
    (if p.hasScroll then [Member("scroll_speed", Float(p.scrollSpeed))] else []) +
    (if p.hasSens then [Member("sensitivity", Float(p.sensitivity))] else []) +
    (if p.hasLpf then [Member("lpf_alpha", Float(p.lpfAlpha))] else [])
  }

  function ProfileToToml(km: Keymap, p: ProfileData): Option<Members> {
    if p.map_ == [] then Some(NumbersToToml(p))
    else
      match ButtonsToToml(km, p.map_)
      case None => None
      case Some(bm) => Some(NumbersToToml(p) + [Member("button_map", Table(bm))])
  }

  function ProfilesToToml(km: Keymap, ps: seq<ProfileData>): Option<Members>
    decreases |ps|
  {
    if ps == [] then Some([])
    else
      var init, p := ps[..|ps| - 1], ps[|ps| - 1];
      match ProfilesToToml(km, init)
      case None => None
      case Some(t) =>
        match ProfileToToml(km, p)
        case None => None
        case Some(pt) => Add(t, p.name, Table(pt))
  }

  function HeadToToml(dc: DeviceData): Members {
    [Member("profile", Str(dc.profile))] +
    (if dc.calib.Some? then [Member("calib", Str(dc.calib.value))] else []) +
    (if dc.hasAirmouse then [Member("airmouse", Bool(dc.airmouse))] else [])
  }

  /** device_config_to_toml. */
  function ToToml(km: Keymap, dc: DeviceData): Option<Members> {
    if dc.profiles == [] then Some(HeadToToml(dc))
    else
      match ProfilesToToml(km, dc.profiles)
      case None => None
      case Some(ps) => Some(HeadToToml(dc) + [Member("profiles", Table(ps))])
  }

  // ------------------------------------------------------------------
  // From TOML
  // ------------------------------------------------------------------

  datatype Field<+T> = Absent | Bad | Present(value: T)

  /** num_field: integers and floats. */
  function NumField(t: Members, key: string): Field<real> {
    match Get(t, key)
    case None => Absent
    case Some(Float(d)) => Present(d)
    case Some(Int(i)) => Present(i as real)
    case Some(_) => Bad
  }

  function StrField(t: Members, key: string): Field<string> {
    match Get(t, key)
    case None => Absent
    case Some(Str(s)) => Present(s)
    case Some(_) => Bad
  }

  function ValueOr<T>(f: Field<T>, default_: T): T {
    match f
    case Present(v) => v
    case _ => default_
  }

  function OptionOr<T>(f: Field<T>, default_: Option<T>): Option<T> {
    match f
    case Present(v) => Some(v)
    case _ => default_
  }

  function BoolField(t: Members, key: string): Field<bool> {
    match Get(t, key)
    case None => Absent
    case Some(Bool(b)) => Present(b)
    case Some(_) => Bad
  }

  /** The members of a button_map table set one after the other. */
  function ButtonsFromToml(km: Keymap, bm: Members, m: seq<Entry>): Option<seq<Entry>>
    decreases |bm|
  {
    if bm == [] then Some(m)
    else
      var init, b := bm[..|bm| - 1], bm[|bm| - 1];
      match ButtonsFromToml(km, init, m)
      case None => None
      case Some(r) =>
        if b.val.Str? && km.CodeOf(b.key) >= 0 && km.CodeOf(b.val.s) >= 0 then
          Some(WithButton(r, km.CodeOf(b.key), km.CodeOf(b.val.s)))
        else None
  }

  /** profile_parse_fields. */
  function FieldsFromToml(km: Keymap, p: ProfileData, t: Members): Option<ProfileData> {
    var scroll, sens, lpf := NumField(t, "scroll_speed"), NumField(t, "sensitivity"), NumField(t, "lpf_alpha");
    if scroll.Bad? || sens.Bad? || lpf.Bad? then None
    else
      var p1 := if scroll.Present? then p.(scrollSpeed := scroll.value, hasScroll := true) else p;
      var p2 := if sens.Present? then p1.(sensitivity := sens.value, hasSens := true) else p1;
      var p3 := if lpf.Present? then p2.(lpfAlpha := lpf.value, hasLpf := true) else p2;
      match Get(t, "button_map")
      case None => Some(p3)
      case Some(Table(bm)) =>
        (match ButtonsFromToml(km, bm, p3.map_)
         case None => None
         case Some(m) => Some(p3.(map_ := m)))
      case Some(_) => None
  }

  /** One profile table, parsed and validated. */
  function ProfileFromToml(km: Keymap, name: string, v: Value): Option<ProfileData> {
    if !v.Table? then None
    else
      match FieldsFromToml(km, Fresh(name), v.members)
      case None => None
      case Some(p) => if ValidProfile(km, p) then Some(p) else None
  }

  /** A load that failed keeps what had been read up to then. */
  datatype Loaded<T> = Loaded(ok: bool, data: T)

  function ProfilesFromToml(km: Keymap, ps: Members): Loaded<seq<ProfileData>>
    decreases |ps|
  {
    if ps == [] then Loaded(true, [])
    else
      var init, m := ps[..|ps| - 1], ps[|ps| - 1];
      var r := ProfilesFromToml(km, init);
      if !r.ok then r
      else
        match ProfileFromToml(km, m.key, m.val)
        case Some(p) => if Find(r.data, m.key).Some? then Loaded(false, r.data) else Loaded(true, r.data + [p])
        case None => Loaded(false, r.data)
  }

  /** The profile name, the calibration path ("" stands for the default one) and the airmouse switch. */
  function HeadFromToml(t: Members, dc: DeviceData): Loaded<DeviceData> {
    match StrField(t, "profile")
    case Bad => Loaded(false, dc)
    case profile =>
      var dc1 := dc.(profile := ValueOr(profile, dc.profile));
      match StrField(t, "calib")
      case Bad => Loaded(false, dc1)
      case calib =>
        var c := OptionOr(calib, dc1.calib);
        var dc2 := dc1.(calib := if c == Some("") then None else c);
        match BoolField(t, "airmouse")
        case Bad => Loaded(false, dc2)
        case Absent => Loaded(true, dc2)
        case Present(b) => Loaded(true, dc2.(airmouse := b, hasAirmouse := true))
  }

  /** device_config_from_toml, over the values dc had before. */
  function FromToml(km: Keymap, t: Members, dc: DeviceData): Loaded<DeviceData> {
    var head := HeadFromToml(t, dc.(profiles := []));
    if !head.ok then head
    else
      match Get(t, "profiles")
      case None => Loaded(ValidDevice(km, head.data), head.data)
      case Some(Table(ps)) =>
        var r := ProfilesFromToml(km, ps);
        var dc' := head.data.(profiles := r.data);
        Loaded(r.ok && ValidDevice(km, dc'), dc')
      case Some(_) => Loaded(false, head.data)
  }

  // ------------------------------------------------------------------
  // Mutations from the bus
  // ------------------------------------------------------------------

  /** device_config_profile_ensure: add a profile with the built-in values unless there is one. */
  function Ensured(ps: seq<ProfileData>, name: string): seq<ProfileData> {
    if Find(ps, name).Some? then ps else ps + [Fresh(name)]
  }

  datatype Edit = Map(from: int, to: int) | Clear | Scroll(v: real) | Sens(v: real)

  function Edited(p: ProfileData, e: Edit): ProfileData {
    match e
    case Map(from, to) => p.(map_ := WithButton(p.map_, from, to))
    case Clear => p.(map_ := [])
    case Scroll(v) => p.(scrollSpeed := v, hasScroll := true)
    case Sens(v) => p.(sensitivity := v, hasSens := true)
  }

  /** The first profile of this name, edited. */
  function EditFirst(ps: seq<ProfileData>, name: string, e: Edit): seq<ProfileData> {
    if ps == [] then []
    else if ps[0].name == name then [Edited(ps[0], e)] + ps[1..]
    else [ps[0]] + EditFirst(ps[1..], name, e)
  }

  /** What the write methods of the bus do to a configuration (tools/src/daemon_bus.c). */
  datatype Mutation =
    | MapButton(from: int, to: int)
    | ResetButtons
    | SetScroll(v: real)
    | SetSensitivity(v: real)
    | SetCalib(path: string)

  function ActiveEdited(dc: DeviceData, e: Edit): DeviceData {
    dc.(profiles := EditFirst(Ensured(dc.profiles, dc.profile), dc.profile, e))
  }

  function Mutated(dc: DeviceData, m: Mutation): DeviceData {
    match m
    case MapButton(from, to) => ActiveEdited(dc, Map(from, to))
    case ResetButtons => if Find(dc.profiles, dc.profile).None? then dc else ActiveEdited(dc, Clear)
    case SetScroll(v) => ActiveEdited(dc, Scroll(v))
    case SetSensitivity(v) => ActiveEdited(dc, Sens(v))
    case SetCalib(path) => dc.(calib := if path == "" then None else Some(path))
  }

  // ------------------------------------------------------------------
  // The object
  // ------------------------------------------------------------------

  lemma FindStep(ps: seq<ProfileData>, i: nat, name: string)
    requires i < |ps|
    ensures Find(ps[i..], name) == if ps[i].name == name then Some(ps[i]) else Find(ps[i + 1..], name)
  {
    assert ps[i..][1..] == ps[i + 1..];
  }

  lemma EditAt(ps: seq<ProfileData>, i: nat, name: string, e: Edit)
    requires i < |ps| && ps[i].name == name
    requires forall k :: 0 <= k < i ==> ps[k].name != name
    ensures EditFirst(ps, name, e) == ps[i := Edited(ps[i], e)]
    decreases i
  {
    if i > 0 {
      var tail := ps[1..];
      assert forall k :: 0 <= k < i - 1 ==> tail[k] == ps[k + 1];
      EditAt(tail, i - 1, name, e);
      assert ps[i := Edited(ps[i], e)] == [ps[0]] + tail[i - 1 := Edited(ps[i], e)];
    }
  }

  lemma {:induction false} WritingStopped(km: Keymap, ps: seq<ProfileData>, n: nat)
    requires n <= |ps| && ProfilesToToml(km, ps[..n]).None?
    ensures ProfilesToToml(km, ps).None?
    decreases |ps|
  {
    if n == |ps| {
      assert ps[..n] == ps;
    } else {
      var init := ps[..|ps| - 1];
      assert init[..n] == ps[..n];
      WritingStopped(km, init, n);
    }
  }

  /** Once the profiles have failed to load, later ones are not looked at. */
  lemma {:induction false} StaysFailed(km: Keymap, ps: Members, n: nat)
    requires n <= |ps| && !ProfilesFromToml(km, ps[..n]).ok
    ensures ProfilesFromToml(km, ps) == ProfilesFromToml(km, ps[..n])
    decreases |ps|
  {
    if n == |ps| {
      assert ps[..n] == ps;
    } else {
      var init := ps[..|ps| - 1];
      assert init[..n] == ps[..n];
      StaysFailed(km, init, n);
    }
  }

  lemma {:induction false} ButtonsStayFailed(km: Keymap, bm: Members, m: seq<Entry>, n: nat)
    requires n <= |bm| && ButtonsFromToml(km, bm[..n], m).None?
    ensures ButtonsFromToml(km, bm, m).None?
    decreases |bm|
  {
    if n == |bm| {
      assert bm[..n] == bm;
    } else {
      var init := bm[..|bm| - 1];
      assert init[..n] == bm[..n];
      ButtonsStayFailed(km, init, m, n);
    }
  }

  /** The members of a button_map table, set in a profile. */
  method ParseButtons(km: Keymap, p: Profile, bm: Members) returns (ok: bool)
    modifies p
    ensures ok <==> ButtonsFromToml(km, bm, old(p.buttons)).Some?
    ensures ok ==> p.Data() == old(p.Data()).(map_ := ButtonsFromToml(km, bm, old(p.buttons)).value)
  {
    var i := 0;
    while i < |bm|
      invariant i <= |bm|
      invariant ButtonsFromToml(km, bm[..i], old(p.buttons)) == Some(p.buttons)
      invariant p.Data() == old(p.Data()).(map_ := p.buttons)
    {
      assert bm[..i + 1][..|bm[..i + 1]| - 1] == bm[..i] && bm[..i + 1][i] == bm[i];
      if !bm[i].val.Str? || km.CodeOf(bm[i].key) < 0 || km.CodeOf(bm[i].val.s) < 0 {
        ButtonsStayFailed(km, bm, old(p.buttons), i + 1);
        return false;
      }
      p.SetButton(km.CodeOf(bm[i].key), km.CodeOf(bm[i].val.s));
      i := i + 1;
    }
    assert bm[..i] == bm;
    return true;
  }

  /** profile_parse_fields. */
  method ParseFields(km: Keymap, p: Profile, t: Members) returns (ok: bool)
    modifies p
    ensures ok <==> FieldsFromToml(km, old(p.Data()), t).Some?
    ensures ok ==> p.Data() == FieldsFromToml(km, old(p.Data()), t).value
  {
    var scroll, sens, lpf := NumField(t, "scroll_speed"), NumField(t, "sensitivity"), NumField(t, "lpf_alpha");
    if scroll.Bad? || sens.Bad? || lpf.Bad? {
      return false;
    }
    if scroll.Present? {
      p.scrollSpeed, p.hasScroll := scroll.value, true;
    }
    if sens.Present? {
      p.sensitivity, p.hasSens := sens.value, true;
    }
    if lpf.Present? {
      p.lpfAlpha, p.hasLpf := lpf.value, true;
    }
    var bmap := Get(t, "button_map");
    if bmap.None? {
      return true;
    }
    if !bmap.value.Table? {
      return false;
    }
    ok := ParseButtons(km, p, bmap.value.members);
  }

  /** A `struct device_config`, updated in place. */
  class DeviceConfig {
    var profile: string
    var calib: Option<string>
    var airmouse: bool
    var hasAirmouse: bool
    var profiles: seq<ProfileData>

    constructor ()
      ensures Data() == INITIAL
    {
      profile, calib, airmouse, hasAirmouse, profiles := "default", None, true, false, [];
    }

    function Data(): DeviceData
      reads this
    {
      DeviceData(profile, calib, airmouse, hasAirmouse, profiles)
    }

    /** The index of the first profile of this name, or the number of profiles. */
    method IndexOf(name: string) returns (i: nat)
      ensures i <= |profiles|
      ensures forall k :: 0 <= k < i ==> profiles[k].name != name
      ensures if i < |profiles| then profiles[i].name == name && Find(profiles, name) == Some(profiles[i])
              else Find(profiles, name) == None
    {
      i := 0;
      assert profiles[0..] == profiles;
      while i < |profiles|
        invariant i <= |profiles|
        invariant forall k :: 0 <= k < i ==> profiles[k].name != name
        invariant Find(profiles, name) == Find(profiles[i..], name)
      {
        FindStep(profiles, i, name);
        if profiles[i].name == name {
          return;
        }
        i := i + 1;
      }
    }

    /** profile_find. */
    method ProfileFind(name: string) returns (p: Option<ProfileData>)
      ensures p == Find(profiles, name)
    {
      var i := IndexOf(name);
      return if i < |profiles| then Some(profiles[i]) else None;
    }

    /** device_config_profile_ensure. */
    method ProfileEnsure(name: string) returns (i: nat)
      modifies this`profiles
      ensures profiles == Ensured(old(profiles), name)
      ensures i < |profiles| && profiles[i].name == name
      ensures forall k :: 0 <= k < i ==> profiles[k].name != name
    {
      i := IndexOf(name);
      if i == |profiles| {
        profiles := profiles + [Fresh(name)];
      }
    }

    method EditActive(e: Edit)
      modifies this`profiles
      ensures Data() == ActiveEdited(old(Data()), e)
    {
      var i := ProfileEnsure(profile);
      EditAt(profiles, i, profile, e);
      var p := new Profile.Of(profiles[i]);
      match e {
        case Map(from, to) => p.SetButton(from, to);
        case Clear => p.ClearButtons();
        case Scroll(v) => p.scrollSpeed, p.hasScroll := v, true;
        case Sens(v) => p.sensitivity, p.hasSens := v, true;
      }
      profiles := profiles[i := p.Data()];
    }

    /** The mutate callbacks of the bus. */
    method Mutate(m: Mutation)
      modifies this
      ensures Data() == Mutated(old(Data()), m)
    {
      match m
      case MapButton(from, to) => EditActive(Map(from, to));
      case ResetButtons =>
        var found := ProfileFind(profile);
        if found.Some? {
          EditActive(Clear);
        }
      case SetScroll(v) => EditActive(Scroll(v));
      case SetSensitivity(v) => EditActive(Sens(v));
      case SetCalib(path) => calib := if path == "" then None else Some(path);
    }

    /** device_config_validate. */
    method Validate(km: Keymap) returns (ok: bool)
      ensures ok <==> ValidDevice(km, Data())
    {
      if profile == "" {
        return false;
      }
      var i := 0;
      while i < |profiles|
        invariant i <= |profiles|
        invariant forall k :: 0 <= k < i ==> ValidProfile(km, profiles[k])
      {
        if !ValidProfile(km, profiles[i]) {
          return false;
        }
        i := i + 1;
      }
      var active := ProfileFind(profile);
      return profile == "default" || active.Some?;
    }

    /** The scalar fields; absent keys keep their values. */
    method ReadHead(t: Members) returns (ok: bool)
      modifies this
      ensures Loaded(ok, Data()) == HeadFromToml(t, old(Data()))
    {
      var name := StrField(t, "profile");
      if name.Bad? {
        return false;
      }
      if name.Present? {
        profile := name.value;
      }
      var path := StrField(t, "calib");
      if path.Bad? {
        return false;
      }
      if path.Present? {
        calib := Some(path.value);
      }
      if calib == Some("") {
        calib := None;
      }
      var switch_ := BoolField(t, "airmouse");
      if switch_.Bad? {
        return false;
      }
      if switch_.Present? {
        airmouse, hasAirmouse := switch_.value, true;
      }
      return true;
    }

    method ReadProfiles(km: Keymap, ps: Members) returns (ok: bool)
      requires profiles == []
      modifies this`profiles
      ensures Loaded(ok, profiles) == ProfilesFromToml(km, ps)
    {
      var i := 0;
      while i < |ps|
        invariant i <= |ps| && ProfilesFromToml(km, ps[..i]) == Loaded(true, profiles)
      {
        assert ps[..i + 1][..|ps[..i + 1]| - 1] == ps[..i] && ps[..i + 1][i] == ps[i];
        ghost var before := profiles;
        ok := ReadProfile(km, ps[i].key, ps[i].val);
        if !ok {
          assert before + [] == before;
          StaysFailed(km, ps, i + 1);
          return;
        }
        i := i + 1;
      }
      assert ps[..i] == ps;
      return true;
    }

    method ReadProfile(km: Keymap, name: string, v: Value) returns (ok: bool)
      modifies this`profiles
      ensures ok <==> ProfileFromToml(km, name, v).Some? && Find(old(profiles), name).None?
      ensures profiles == old(profiles) + if ok then [ProfileFromToml(km, name, v).value] else []
    {
      if !v.Table? {
        return false;
      }
      var found := ProfileFind(name);
      if found.Some? {
        return false;
      }
      var p := new Profile(name);
      ok := ParseFields(km, p, v.members);
      if !ok {
        return;
      }
      ok := p.Validate(km);
      if ok {
        profiles := profiles + [p.Data()];
      }
    }

    /** device_config_from_toml. */
    method ReadToml(km: Keymap, t: Members) returns (ok: bool)
      modifies this
      ensures Loaded(ok, Data()) == FromToml(km, t, old(Data()))
    {
      profiles := [];
      ok := ReadHead(t);
      if !ok {
        return;
      }
      var v := Get(t, "profiles");
      if v.Some? {
        if !v.value.Table? {
          return false;
        }
        ok := ReadProfiles(km, v.value.members);
        if !ok {
          return;
        }
      }
      ok := Validate(km);
    }

    /** The profiles table. */
    method WriteProfiles(km: Keymap) returns (t: Option<Members>)
      ensures t == ProfilesToToml(km, profiles)
    {
      var out: Members := [];
      var i := 0;
      while i < |profiles|
        invariant i <= |profiles| && ProfilesToToml(km, profiles[..i]) == Some(out)
      {
        assert profiles[..i + 1][..|profiles[..i + 1]| - 1] == profiles[..i] && profiles[..i + 1][i] == profiles[i];
        var p := ProfileToToml(km, profiles[i]);
        if p.None? || Get(out, profiles[i].name).Some? {
          WritingStopped(km, profiles, i + 1);
          return None;
        }
        out := out + [Member(profiles[i].name, Table(p.value))];
        i := i + 1;
      }
      assert profiles[..i] == profiles;
      return Some(out);
    }

    /** device_config_to_toml. */
    method WriteToml(km: Keymap) returns (t: Option<Members>)
      ensures t == ToToml(km, Data())
    {
      var root: Members := [Member("profile", Str(profile))];
      if calib.Some? {
        root := root + [Member("calib", Str(calib.value))];
      }
      if hasAirmouse {
        root := root + [Member("airmouse", Bool(airmouse))];
      }
      assert root == HeadToToml(Data());
      if profiles == [] {
        return Some(root);
      }
      var ps := WriteProfiles(km);
      if ps.None? {
        return None;
      }
      return Some(root + [Member("profiles", Table(ps.value))]);
    }
  }
}
