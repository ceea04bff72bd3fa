/**
 The write methods of the daemon's bus interface (tools/src/daemon_bus.c): every change is saved first
 and then applied to the running pipeline; when saving fails, the configuration in memory is reloaded
 from the disk.
 */
module DaemonBus {
  import opened Wrappers
  import opened Strings
  import opened TomlTree
  import TomlReader
  import opened TomlRoundTrip
  import opened TomlWellFormed
  import opened Profiles
  import opened DeviceConfig
  import opened DeviceRoundTrip
  import opened AtomicWrite
  import opened DaemonConfig
  import opened Pipeline

  /** The profile in force: the active one, else "default" when it is defined. */
  function ActiveProfile(dc: DeviceData): Option<ProfileData> {
    if Find(dc.profiles, dc.profile).Some? then Find(dc.profiles, dc.profile) else Find(dc.profiles, "default")
  }

  /** The built-in values with the profile in force merged over them. */
  function Resolved(dc: DeviceData): ProfileData {
    match ActiveProfile(dc)
    case None => Fresh("resolved")
    case Some(p) => Merged(Fresh("resolved"), p)
  }

  /** A bus call that writes. */
  datatype Request =
    | CallSetProfile(profile: string)
    | CallMapButton(from: string, to: string)
    | CallReset
    | CallScroll(v: real)
    | CallSensitivity(v: real)
    | CallCalib(path: string)

  datatype Reply = Done | InvalidArguments | NotAuthorized | NotFound | Failed

  /** The mutation a call asks for, when it asks for one. */
  function MutationOf(km: Keymap, q: Request): Option<Mutation> {
    match q
    case CallSetProfile(_) => None
    case CallMapButton(from, to) => Some(MapButton(km.CodeOf(from), km.CodeOf(to)))
    case CallReset => Some(ResetButtons)
    case CallScroll(v) => Some(SetScroll(v))
    case CallSensitivity(v) => Some(SetSensitivity(v))
    case CallCalib(path) => Some(SetCalib(path))
  }

  /** What is checked before anything is changed, for a call about `mac` where the remote `id` is there.  Key
      names come before the authorization. */
  function Refusal(km: Keymap, id: string, dc: DeviceData, mac: string, q: Request, authorized: bool): Option<Reply> {
    if q.CallMapButton? && (km.CodeOf(q.from) < 0 || km.CodeOf(q.to) < 0) then Some(InvalidArguments)
    else if !authorized then Some(NotAuthorized)
    else if !ValidIdentity(mac) then Some(InvalidArguments)
    else if mac != id then Some(NotFound)
    else
      match q
      case CallSetProfile(name) =>
        if name != "default" && Find(dc.profiles, name).None? then Some(InvalidArguments) else None
      case CallScroll(v) => if v < 0.0 || v > 100.0 then Some(InvalidArguments) else None
      case CallSensitivity(v) => if v < 0.0 || v > 10000.0 then Some(InvalidArguments) else None
      case _ => None
  }

  /** The profile in force is the active one, else "default", else none; its numbers and buttons are, where it
      does not set them, the built-in ones. */
  lemma ResolvedMeans(dc: DeviceData)
    ensures var own, default_ := Find(dc.profiles, dc.profile), Find(dc.profiles, "default");
            var p := if own.Some? then own else default_;
            var r := Resolved(dc);
            && r.scrollSpeed == (if p.Some? && p.value.hasScroll then p.value.scrollSpeed else 1.0)
            && r.sensitivity == (if p.Some? && p.value.hasSens then p.value.sensitivity else 30.0)
            && (p.None? ==> r.map_ == [])
            && (p.Some? && UniqueFrom(p.value.map_) ==> r.map_ == p.value.map_)
  {
    hide Find;
    var p := ActiveProfile(dc);
    if p.Some? && UniqueFrom(p.value.map_) {
      MergedFromNothing(p.value.map_);
    }
  }

  /** What the caller asked for is in force: in the configuration `now`, and in the profile that it resolves
      to.  `was` is the configuration before the call. */
  ghost predicate InForce(km: Keymap, was: DeviceData, q: Request, now: DeviceData, active: ProfileData) {
    var p := Find(was.profiles, was.profile);
    var m := if p.Some? then p.value.map_ else [];
    match q
    case CallScroll(v) => active.scrollSpeed == v
    case CallSensitivity(v) => active.sensitivity == v
    case CallMapButton(from, to) =>
      UniqueFrom(m) ==>
        forall k :: Lookup(active.map_, k) == if k == km.CodeOf(from) then km.CodeOf(to) else Lookup(m, k)
    case CallReset => p.Some? ==> active.map_ == []
    case CallCalib(path) => now.profiles == was.profiles && now.calib == if path == "" then None else Some(path)
    case CallSetProfile(_) => true
  }

  lemma CallTakesEffect(km: Keymap, was: DeviceData, q: Request)
    requires MutationOf(km, q).Some?
    ensures var now := Mutated(was, MutationOf(km, q).value); InForce(km, was, q, now, Resolved(now))
  {
    var m := MutationOf(km, q).value;
    MutatedMeans(was, m);
    ResolvedMeans(Mutated(was, m));
    hide Mutated, Resolved, Find;
  }

  /** What the arguments of a call must be. */
  ghost predicate Acceptable(km: Keymap, dc: DeviceData, q: Request) {
    match q
    case CallSetProfile(name) =>
      name == "default" || exists i :: 0 <= i < |dc.profiles| && dc.profiles[i].name == name
    case CallMapButton(from, to) => km.Knows(from) && km.Knows(to)
    case CallScroll(v) => 0.0 <= v <= 100.0
    case CallSensitivity(v) => 0.0 <= v <= 10000.0
    case _ => true
  }

  /** A call is let through exactly when it is authorized, names the remote and has acceptable arguments.
      Which refusal it gets depends on the first check that fails. */
  lemma RefusedIff(km: Keymap, id: string, dc: DeviceData, mac: string, q: Request, authorized: bool)
    requires km.Valid()
    ensures var no, known := Refusal(km, id, dc, mac, q, authorized),
                             q.CallMapButton? ==> km.Knows(q.from) && km.Knows(q.to);
            && (no.None? <==> authorized && ValidIdentity(mac) && mac == id && Acceptable(km, dc, q))
            && (no.Some? ==> no.value in {NotAuthorized, InvalidArguments, NotFound})
            && (no == Some(NotAuthorized) <==> known && !authorized)
            && (no == Some(NotFound) <==> known && authorized && ValidIdentity(mac) && mac != id)
  {
    match q
    case CallSetProfile(name) => FindIndex(dc.profiles, name);
    case CallMapButton(from, to) =>
      km.CodeOfKnown(from);
      km.CodeOfKnown(to);
    case _ =>
  }

  // ------------------------------------------------------------------
  // Memory and disk
  // ------------------------------------------------------------------

  /** The disk, and the configuration of one remote in memory. */
  datatype Store = Store(files: Files, dc: DeviceData)

  datatype Event =
    | Mutates(m: Mutation, saved: bool)
    | Activates(profile: string, saved: bool)

  /** What one accepted call does to the store. */
  ghost predicate Stepped(env: Env, id: string, s: Store, t: Store, e: Event) {
    match e
    case Mutates(m, saved) =>
      if saved then
        var dc := Mutated(s.dc, m);
        var path, text := DevicePath(env, id), SavedText(env.km, env.libc, dc);
        path.Some? && text.Some? && t == Store(Written(s.files, path.value, text.value), dc)
      else
        Untouched(s.files, t.files, DevicePath(env, id)) && t.dc == LoadRemote(env, t.files, id).data
    case Activates(profile, saved) =>
      if saved then
        var path, text := StatePath(env), StateText(env, s.files, id, profile);
        && path.Some? && text.Some? && t.files == Written(s.files, path.value, text.value)
        && t.dc == LoadRemote(env, t.files, id).data
      else
        Untouched(s.files, t.files, StatePath(env)) && t.dc == s.dc
  }

  /** One remote: its configuration, its pipeline and its virtual keyboard. */
  class Remote {
    const id: string
    const env: Env
    const fs: FileSystem
    const globalLpf: real
    var dc: DeviceConfig
    var pl: InputPipeline
    var kbd: VirtualDevice?

    constructor (env: Env, fs: FileSystem, id: string, globalLpf: real, kbd: VirtualDevice?)
      ensures this.globalLpf == globalLpf && this.env == env && this.fs == fs && this.id == id && this.kbd == kbd
      ensures Valid() && dc.Data() == INITIAL && fresh(dc) && fresh(pl) && fresh(pl.held)
    {
      this.env, this.fs, this.id, this.globalLpf, this.kbd := env, fs, id, globalLpf, kbd;
      dc := new DeviceConfig();
      pl := new InputPipeline();
    }

    ghost predicate Valid()
      reads this, pl, pl.am, pl.am.prev
    {
      pl.Valid()
    }

    function State(): Store
      reads this, dc, fs
    {
      Store(fs.files, dc.Data())
    }

    /** The pipeline runs with the profile that the configuration resolves to, and, unless the calibration
        file is broken, the air mouse with its sensitivity and with the global filter factor. */
    ghost predicate Live(calib: CalibLoad)
      reads this, dc, pl, pl.active, pl.am
    {
      && pl.active.Data() == Resolved(dc.Data())
      && (!calib.Broken? ==>
            && pl.am.samples == [] && pl.am.alpha == globalLpf && pl.am.scale == Resolved(dc.Data()).sensitivity
            && pl.airmouseOn == dc.Data().airmouse && pl.cal == if calib.Fine? then Some(calib.c) else None)
    }

    /** Every key that was held has been released on the virtual keyboard, last one first. */
    twostate predicate Released()
      requires Valid() && old(Valid())
      reads this, pl, pl.held, pl.am, pl.am.prev, kbd
    {
      && kbd == old(kbd) && pl == old(pl)
      && (kbd != null ==> pl.HeldKeys() == [] && kbd.keys == old(kbd.keys) + Releases(old(pl.HeldKeys())))
    }

    /** remote_apply. */
    method Apply(calib: CalibLoad)
      requires Valid()
      modifies pl, pl.am, pl.am.prev, kbd
      ensures Valid() && Live(calib) && State() == old(State()) && Released()
    {
      var p := dc.ProfileFind(dc.profile);
      if p.None? {
        p := dc.ProfileFind("default");
      }
      var _ := pl.Configure(p, calib, dc.airmouse, globalLpf, kbd);
    }

    /** remote_rollback. */
    method Rollback(calib: CalibLoad)
      requires Valid()
      modifies this`dc, pl, pl.am, pl.am.prev, kbd
      ensures Valid() && Live(calib) && Released() && fs.files == old(fs.files)
      ensures dc.Data() == LoadRemote(env, fs.files, id).data
    {
      var loaded := new DeviceConfig();
      var _ := LoadInto(env, fs, id, loaded);
      dc := loaded;
      Apply(calib);
    }

    /** mutate_and_save. */
    method MutateAndSave(m: Mutation, dirs: bool, luck: Luck, calib: CalibLoad) returns (rc: int)
      requires Valid()
      modifies this`dc, dc, pl, pl.am, pl.am.prev, kbd, fs
      ensures Valid() && Live(calib) && Released()
      ensures Stepped(env, id, old(State()), State(), Mutates(m, rc == 0))
      ensures rc == 0 || rc == -1
    {
      dc.Mutate(m);
      rc := SaveDevice(env, fs, dc, id, dirs, luck);
      if rc < 0 {
        Rollback(calib);
      } else {
        Apply(calib);
      }
    }

    /** method_set_profile, once its argument has been accepted. */
    method SetProfile(profile: string, dirs: bool, luck: Luck, calib: CalibLoad) returns (rc: int)
      requires Valid()
      modifies this`dc, pl, pl.am, pl.am.prev, kbd, fs
      ensures Valid() && (rc == 0 ==> Live(calib) && Released())
      ensures Stepped(env, id, old(State()), State(), Activates(profile, rc == 0))
      ensures rc == 0 || rc == -1
    {
      rc := SaveProfile(env, fs, id, profile, dirs, luck);
      if rc == 0 {
        Rollback(calib);
      }
    }

    /** A write call about the remote `mac`. */
    method Handle(mac: string, q: Request, authorized: bool, dirs: bool, luck: Luck, calib: CalibLoad)
      returns (r: Reply)
      requires Valid()
      modifies this`dc, dc, pl, pl.am, pl.am.prev, kbd, fs
      ensures Valid()
      ensures var no := Refusal(env.km, id, old(dc.Data()), mac, q, authorized);
              if no.Some? then r == no.value && State() == old(State())
              else
                && (r == Done || r == Failed)
                && (r == Done ==> Live(calib) && Released())
                && Stepped(env, id, old(State()), State(),
                           if q.CallSetProfile? then Activates(q.profile, r == Done)
                           else Mutates(MutationOf(env.km, q).value, r == Done))
      ensures !authorized ==> r in {NotAuthorized, InvalidArguments} && State() == old(State())
      ensures env.km.Valid() ==>
                (r in {Done, Failed} <==>
                   authorized && ValidIdentity(mac) && mac == id && Acceptable(env.km, old(dc.Data()), q))
      ensures env.km.Valid() ==>
                var known := q.CallMapButton? ==> env.km.Knows(q.from) && env.km.Knows(q.to);
                && (r == NotAuthorized <==> known && !authorized)
                && (r == NotFound <==> known && authorized && ValidIdentity(mac) && mac != id)
      ensures r !in {Done, Failed} ==> State() == old(State())
      ensures r == Done ==> InForce(env.km, old(dc.Data()), q, dc.Data(), pl.active.Data())
    {
      if env.km.Valid() {
        RefusedIff(env.km, id, dc.Data(), mac, q, authorized);
      }
      var no := Refusal(env.km, id, dc.Data(), mac, q, authorized);
      if no.Some? {
        return no.value;
      }
      var rc: int;
      if q.CallSetProfile? {
        rc := SetProfile(q.profile, dirs, luck, calib);
      } else {
        CallTakesEffect(env.km, dc.Data(), q);
        hide InForce;
        rc := MutateAndSave(MutationOf(env.km, q).value, dirs, luck, calib);
      }
      return if rc < 0 then Failed else Done;
    }
  }

  // ------------------------------------------------------------------
  // Memory agrees with the disk
  // ------------------------------------------------------------------

  /** Loading the remote now would give what is in memory. */
  ghost predicate Agrees(env: Env, id: string, s: Store) { LoadRemote(env, s.files, id) == Loaded(true, s.dc) }

  /** What a successful load tells about the configuration. */
  lemma LoadedSettled(env: Env, id: string, s: Store)
    requires Agrees(env, id, s)
    ensures SettledDevice(s.dc) && ValidProfiles(env.km, s.dc.profiles)
    ensures Overlay(env, s.files, id).Some? ==> s.dc.profile == Overlay(env, s.files, id).value
    ensures DevicePath(env, id).Some? && StatePath(env).Some?
    ensures var r := LoadFile(env, s.files, id); r.ok && s.dc == r.data.(profile := s.dc.profile)
  {
    hide TomlReader.Parse, FromToml, Overlay, ValidDevice;
    var path := DevicePath(env, id).value;
    if path in s.files && TomlReader.Parse(env.libc, s.files[path]).Ok? {
      LoadSettles(env.km, TomlReader.Parse(env.libc, s.files[path]).value);
    }
  }

  lemma UntouchedLoads(env: Env, files: Files, now: Files, id: string, path: Option<string>)
    requires ValidIdentity(id) && Untouched(files, now, path)
    requires path == DevicePath(env, id) || path == StatePath(env)
    ensures LoadRemote(env, now, id) == LoadRemote(env, files, id)
  {
    hide LoadedText, TomlReader.Parse, ProfileOf;
    PathsDiffer(env, id);
    if path.Some? {
      assert |TempOf(path.value)| > |path.value|;
      if DevicePath(env, id).Some? {
        assert Look(now, DevicePath(env, id).value) == Look(files, DevicePath(env, id).value);
      }
      if StatePath(env).Some? {
        assert Look(now, StatePath(env).value) == Look(files, StatePath(env).value);
      }
    }
  }

  /** Loading the remote now would give what is in memory, up to the digits that are written. */
  ghost predicate Close(env: Env, id: string, s: Store) {
    var r := LoadRemote(env, s.files, id);
    && r.ok && SameText(env.libc, r.data, s.dc)
    && SettledDevice(s.dc) && ValidProfiles(env.km, s.dc.profiles)
  }

  lemma AgreesIsClose(env: Env, id: string, s: Store)
    requires Agrees(env, id, s)
    ensures Close(env, id, s)
  {
    LoadedSettled(env, id, s);
    hide LoadRemote;
  }

  /** The load after a saved mutation gives the configuration in memory, its numbers rounded to 15 digits,
      exactly when that is valid. */
  lemma MutationLoads(env: Env, id: string, s: Store, t: Store, m: Mutation)
    requires env.km.Valid() && ValidIdentity(id) && Close(env, id, s)
    requires Allowed(env.km, m) && Storable(env.libc, Mutated(s.dc, m))
    requires Stepped(env, id, s, t, Mutates(m, true))
    ensures var r := LoadRemote(env, t.files, id);
            && t.dc == Mutated(s.dc, m)
            && (r.ok <==> ValidDevice(env.km, RereadDevice(env.libc, t.dc)))
            && (r.ok ==> r.data == RereadDevice(env.libc, t.dc))
  {
    hide LoadedText, SavedText, StateTree, ProfileOf, Mutated, Storable, SettledDevice, Reloadable, RereadProfiles;
    hide ValidDevice;
    var loaded := Store(s.files, LoadRemote(env, s.files, id).data);
    LoadedSettled(env, id, loaded);
    MutatedSettled(env.km, s.dc, m);
    SaveLoad(env.km, env.libc, t.dc);
    PathsDiffer(env, id);
    var path := DevicePath(env, id).value;
    assert |TempOf(path)| > |path|;
    assert t.files[path] == SavedText(env.km, env.libc, t.dc).value;
    OverlayUnchanged(env, s.files, t.files, id);
    assert t.dc.profile == loaded.dc.profile;
  }

  /** After a saved mutation the disk gives the memory back exactly when the mutation is reloadable and no
      number has more digits than are written. */
  lemma MutationReloads(env: Env, id: string, s: Store, t: Store, m: Mutation)
    requires env.km.Valid() && ValidIdentity(id) && Agrees(env, id, s)
    requires Allowed(env.km, m) && Storable(env.libc, Mutated(s.dc, m))
    requires Stepped(env, id, s, t, Mutates(m, true))
    ensures Agrees(env, id, t) <==> Reloadable(s.dc, m) && ExactDevice(env.libc, t.dc)
  {
    LoadedSettled(env, id, s);
    AgreesIsClose(env, id, s);
    MutationLoads(env, id, s, t, m);
    hide LoadRemote, Mutated, Storable, SettledDevice, Reloadable, RereadDevice, ExactDevice, ValidDevice, Stepped;
    hide Allowed;
    MutatedSettled(env.km, s.dc, m);
    RereadExact(env.libc, t.dc);
  }

  lemma OverlayUnchanged(env: Env, files: Files, now: Files, id: string)
    requires StatePath(env).Some? && Look(now, StatePath(env).value) == Look(files, StatePath(env).value)
    ensures Overlay(env, now, id) == Overlay(env, files, id)
  {
  }

  /** What a caller of the bus may pass: numbers within the limits and C strings. */
  ghost predicate Permitted(env: Env, s: Store, e: Event) {
    && (e.Mutates? ==> Allowed(env.km, e.m) && Storable(env.libc, Mutated(s.dc, e.m)))
    && (e.Activates? ==> NulFree(e.profile) && AllPrintable(env.libc))
  }

  /** The call does not save what cannot be read back. */
  ghost predicate Keeps(env: Env, s: Store, e: Event) {
    e.Mutates? && e.saved ==> Reloadable(s.dc, e.m) && ExactDevice(env.libc, Mutated(s.dc, e.m))
  }

  /** One accepted call, from a state in which memory and disk agree.  A saved mutation keeps the
      agreement exactly when it is reloadable and its numbers are exact; a mutation that could not be
      saved is undone; a saved profile becomes the active one and changes nothing else. */
  lemma StepAgrees(env: Env, id: string, s: Store, t: Store, e: Event)
    requires env.km.Valid() && ValidIdentity(id) && Agrees(env, id, s) && Stepped(env, id, s, t, e)
    requires Permitted(env, s, e)
    ensures Agrees(env, id, t) <==> Keeps(env, s, e)
    ensures t.dc == if !e.saved then s.dc
                    else if e.Mutates? then Mutated(s.dc, e.m)
                    else s.dc.(profile := e.profile)
  {
    hide LoadRemote, Mutated, Storable, AllPrintable, Reloadable, ExactDevice, Untouched, SavedText, StateText;
    match e
    case Mutates(m, saved) =>
      if saved {
        MutationReloads(env, id, s, t, m);
      } else {
        UntouchedLoads(env, s.files, t.files, id, DevicePath(env, id));
      }
    case Activates(profile, saved) =>
      if saved {
        LoadedSettled(env, id, s);
        SavedProfileLoads(env, s.files, id, profile, id);
      } else {
        UntouchedLoads(env, s.files, t.files, id, StatePath(env));
      }
  }

  /** The same up to the digits that are written: only what cannot be reloaded at all breaks it. */
  lemma StepClose(env: Env, id: string, s: Store, t: Store, e: Event)
    requires env.km.Valid() && ValidIdentity(id) && Rounds(env.libc)
    requires Close(env, id, s) && Stepped(env, id, s, t, e) && Permitted(env, s, e)
    ensures Close(env, id, t) <==> (e.Mutates? && e.saved ==> Reloadable(s.dc, e.m))
    ensures SameText(env.libc, t.dc, if !e.saved then s.dc
                                     else if e.Mutates? then Mutated(s.dc, e.m)
                                     else s.dc.(profile := e.profile))
  {
    hide Storable, AllPrintable, Reloadable, Untouched, SavedText, StateText, RereadProfiles, ValidDevice, Mutated;
    hide Rounds;
    var loaded := Store(s.files, LoadRemote(env, s.files, id).data);
    LoadedSettled(env, id, loaded);
    match e
    case Mutates(m, saved) =>
      if saved {
        ClosePersists(env, id, s, t, m);
      } else {
        UntouchedLoads(env, s.files, t.files, id, DevicePath(env, id));
        hide LoadRemote;
      }
    case Activates(profile, saved) =>
      if saved {
        SavedProfileLoads(env, s.files, id, profile, id);
        hide LoadRemote;
        assert Agrees(env, id, t);
        AgreesIsClose(env, id, t);
      } else {
        UntouchedLoads(env, s.files, t.files, id, StatePath(env));
        hide LoadRemote;
      }
  }

  lemma ClosePersists(env: Env, id: string, s: Store, t: Store, m: Mutation)
    requires env.km.Valid() && ValidIdentity(id) && Rounds(env.libc)
    requires Close(env, id, s) && Stepped(env, id, s, t, Mutates(m, true)) && Permitted(env, s, Mutates(m, true))
    ensures Close(env, id, t) <==> Reloadable(s.dc, m)
    ensures t.dc == Mutated(s.dc, m)
  {
    MutationLoads(env, id, s, t, m);
    hide LoadRemote, Mutated, Storable, SettledDevice, Reloadable, RereadProfiles, Stepped, Allowed, Rounds;
    MutatedSettled(env.km, s.dc, m);
    RereadReloadable(env.km, env.libc, s.dc, m);
    RereadTwice(env.libc, t.dc);
  }

  lemma DeviceFilesDiffer(env: Env, a: string, b: string)
    requires a != b
    ensures var pa, pb := env.configRoot + "/devices.d/" + a + ".toml", env.configRoot + "/devices.d/" + b + ".toml";
            pa != pb && pb != TempOf(pa)
  {
    var root := env.configRoot + "/devices.d/";
    var pa, pb := root + a + ".toml", root + b + ".toml";
    assert pb[|pb| - 1] == 'l' && TempOf(pa)[|TempOf(pa)| - 1] == 'p';
    assert pa[|root|..|pa| - 5] == a && pb[|root|..|pb| - 5] == b;
  }

  /** A call for one remote never changes what is loaded for another one. */
  lemma OthersUndisturbed(env: Env, id: string, s: Store, t: Store, e: Event, other: string)
    requires ValidIdentity(id) && ValidIdentity(other) && other != id && Stepped(env, id, s, t, e)
    requires e.Activates? ==> NulFree(e.profile) && AllPrintable(env.libc)
    ensures LoadRemote(env, t.files, other) == LoadRemote(env, s.files, other)
  {
    hide LoadedText, StateTree, ProfileOf, Mutated, SavedText, StateText, AllPrintable;
    PathsDiffer(env, id);
    PathsDiffer(env, other);
    DeviceFilesDiffer(env, id, other);
    match e
    case Mutates(_, _) =>
      var d, o := DevicePath(env, id), DevicePath(env, other);
      if d.Some? && o.Some? {
        assert Look(t.files, o.value) == Look(s.files, o.value);
      }
      if StatePath(env).Some? {
        assert d.Some? ==> Look(t.files, StatePath(env).value) == Look(s.files, StatePath(env).value);
        OverlayUnchanged(env, s.files, t.files, other);
      }
    case Activates(profile, saved) =>
      if saved {
        SavedProfileLoads(env, s.files, id, profile, other);
      } else {
        UntouchedLoads(env, s.files, t.files, other, StatePath(env));
      }
  }

  /** A speed or sensitivity of 0 passes the bus and is saved, but no later load of the remote succeeds. */
  lemma ZeroSpeedIsLost(env: Env, id: string, s: Store, t: Store, m: Mutation)
    requires env.km.Valid() && ValidIdentity(id) && Close(env, id, s)
    requires m == SetScroll(0.0) || m == SetSensitivity(0.0)
    requires Storable(env.libc, Mutated(s.dc, m)) && Rounded(env.libc, 0.0) == 0.0
    requires Stepped(env, id, s, t, Mutates(m, true))
    ensures Refusal(env.km, id, s.dc, id, if m.SetScroll? then CallScroll(0.0) else CallSensitivity(0.0), true) == None
    ensures !LoadRemote(env, t.files, id).ok
  {
    hide LoadRemote, Storable, RereadProfiles, Stepped, Rounded, EditFirst, Ensured;
    MutationLoads(env, id, s, t, m);
    ZeroLost(env, s.dc, m);
  }

  lemma ZeroLost(env: Env, dc: DeviceData, m: Mutation)
    requires m == SetScroll(0.0) || m == SetSensitivity(0.0)
    requires SettledDevice(dc) && ValidProfiles(env.km, dc.profiles) && Rounded(env.libc, 0.0) == 0.0
    ensures !ValidDevice(env.km, RereadDevice(env.libc, Mutated(dc, m)))
  {
    hide RereadProfiles, Rounded, EditFirst, Ensured;
    ZeroStays(env.km, env.libc, dc, if m.SetScroll? then Scroll(0.0) else Sens(0.0));
  }

  /** A speed with more digits than are written is accepted, saved and applied; then the disk holds
      another one than the memory. */
  lemma LongSpeedDiffers(env: Env, id: string, s: Store, t: Store, v: real)
    requires env.km.Valid() && ValidIdentity(id) && Agrees(env, id, s)
    requires 0.0 < v <= 100.0 && Rounded(env.libc, v) != v && Storable(env.libc, Mutated(s.dc, SetScroll(v)))
    requires Stepped(env, id, s, t, Mutates(SetScroll(v), true))
    ensures Refusal(env.km, id, s.dc, id, CallScroll(v), true) == None
    ensures !Agrees(env, id, t)
  {
    hide LoadRemote, Storable, Agrees, SavedText, Rounded, ActiveEdited, SettledDevice, ValidProfiles, ExactDevice;
    MutationReloads(env, id, s, t, SetScroll(v));
    LoadedSettled(env, id, s);
    LongHeld(env.km, env.libc, s.dc, v);
  }

  // ------------------------------------------------------------------
  // Whole runs
  // ------------------------------------------------------------------

  /** The states of a run, one more than its events. */
  ghost predicate IsRun(env: Env, id: string, ss: seq<Store>, es: seq<Event>) {
    |ss| == |es| + 1 && forall i :: 0 <= i < |es| ==> Stepped(env, id, ss[i], ss[i + 1], es[i])
  }

  /** What the configuration in memory should be after a run. */
  function Wanted(dc: DeviceData, es: seq<Event>): DeviceData {
    if es == [] then dc
    else
      var d := Wanted(dc, es[..|es| - 1]);
      var e := es[|es| - 1];
      if !e.saved then d
      else
        match e
        case Mutates(m, _) => Mutated(d, m)
        case Activates(profile, _) => d.(profile := profile)
  }

  lemma RunPrefix(env: Env, id: string, ss: seq<Store>, es: seq<Event>)
    requires IsRun(env, id, ss, es) && es != []
    ensures IsRun(env, id, ss[..|es|], es[..|es| - 1])
  {
    var n := |es| - 1;
    forall i | 0 <= i < n ensures Stepped(env, id, ss[..n + 1][i], ss[..n + 1][i + 1], es[..n][i]) {
      assert Stepped(env, id, ss[i], ss[i + 1], es[i]);
    }
  }

  ghost predicate AllPermitted(env: Env, ss: seq<Store>, es: seq<Event>)
    requires |es| <= |ss|
  {
    forall i :: 0 <= i < |es| ==> Permitted(env, ss[i], es[i])
  }

  /** Over any run of calls, saved or not, a load from the disk gives the configuration in memory after
      every call, exactly when every saved mutation was reloadable and its numbers exact.  The memory then
      holds the start configuration with the saved changes, in order. */
  lemma {:induction false} RunAgrees(env: Env, id: string, ss: seq<Store>, es: seq<Event>)
    requires env.km.Valid() && ValidIdentity(id)
    requires IsRun(env, id, ss, es) && Agrees(env, id, ss[0]) && AllPermitted(env, ss, es)
    ensures (forall i :: 0 <= i <= |es| ==> Agrees(env, id, ss[i])) <==>
            (forall i :: 0 <= i < |es| ==> Keeps(env, ss[i], es[i]))
    ensures (forall i :: 0 <= i < |es| ==> Keeps(env, ss[i], es[i])) ==> ss[|es|].dc == Wanted(ss[0].dc, es)
    decreases |es|
  {
    hide LoadRemote, Mutated, Permitted, Keeps, Stepped, Agrees;
    if es != [] {
      var n := |es| - 1;
      var before, init := ss[..n + 1], es[..n];
      RunPrefix(env, id, ss, es);
      RunAgrees(env, id, before, init);
      assert (forall i :: 0 <= i <= n ==> Agrees(env, id, ss[i])) <==>
             (forall i :: 0 <= i < n ==> Keeps(env, ss[i], es[i])) by {
        assert forall i :: 0 <= i <= n ==> before[i] == ss[i];
        assert forall i :: 0 <= i < n ==> init[i] == es[i];
      }
      if Agrees(env, id, ss[n]) {
        StepAgrees(env, id, ss[n], ss[n + 1], es[n]);
      }
    }
  }

  /** The call does not save what no load accepts. */
  ghost predicate KeepsClose(s: Store, e: Event) {
    e.Mutates? && e.saved ==> Reloadable(s.dc, e.m)
  }

  /** Over any run, with whatever numbers, memory and disk agree up to the digits that are written after
      every call, exactly when every saved mutation was reloadable.  Up to those digits the memory then holds
      the start configuration with the saved changes, in order. */
  lemma {:induction false} RunClose(env: Env, id: string, ss: seq<Store>, es: seq<Event>)
    requires env.km.Valid() && ValidIdentity(id) && Rounds(env.libc)
    requires IsRun(env, id, ss, es) && Close(env, id, ss[0]) && AllPermitted(env, ss, es)
    ensures (forall i :: 0 <= i <= |es| ==> Close(env, id, ss[i])) <==>
            (forall i :: 0 <= i < |es| ==> KeepsClose(ss[i], es[i]))
    ensures (forall i :: 0 <= i < |es| ==> KeepsClose(ss[i], es[i])) ==>
              SameText(env.libc, ss[|es|].dc, Wanted(ss[0].dc, es))
    decreases |es|
  {
    hide LoadRemote, Mutated, Permitted, KeepsClose, Stepped, Close, Rounds, RereadProfiles;
    if es != [] {
      var n := |es| - 1;
      var before, init := ss[..n + 1], es[..n];
      RunPrefix(env, id, ss, es);
      assert forall i :: 0 <= i <= n ==> before[i] == ss[i];
      assert forall i :: 0 <= i < n ==> init[i] == es[i];
      RunClose(env, id, before, init);
      if Close(env, id, ss[n]) {
        LastClose(env, id, ss[n], ss[n + 1], es[n], Wanted(ss[0].dc, init));
      }
    }
  }

  lemma LastClose(env: Env, id: string, s: Store, t: Store, e: Event, wanted: DeviceData)
    requires env.km.Valid() && ValidIdentity(id) && Rounds(env.libc)
    requires Close(env, id, s) && Stepped(env, id, s, t, e) && Permitted(env, s, e)
    ensures Close(env, id, t) <==> KeepsClose(s, e)
    ensures SameText(env.libc, s.dc, wanted) ==>
              SameText(env.libc, t.dc, if !e.saved then wanted
                                       else if e.Mutates? then Mutated(wanted, e.m)
                                       else wanted.(profile := e.profile))
  {
    hide LoadRemote, Mutated, Permitted, Reloadable, Stepped, Close, Rounds, RereadProfiles;
    StepClose(env, id, s, t, e);
    if e.Mutates? && SameText(env.libc, s.dc, wanted) {
      MutatedSameText(env.libc, s.dc, wanted, e.m);
    }
  }
}
