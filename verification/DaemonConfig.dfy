/**
 The daemon's files (tools/src/daemon_config.c): one device file per remote, and state.toml with the
 active profile of every remote.
 */
module DaemonConfig {
  import opened Wrappers
  import opened Strings
  import opened TomlTree
  import opened TomlWriter
  import opened TomlReader
  import opened TomlRoundTrip
  import opened TomlWellFormed
  import opened Profiles
  import opened DeviceConfig
  import opened DeviceRoundTrip
  import opened AtomicWrite

  /** What the daemon is started with. */
  datatype Env = Env(km: Keymap, libc: Libc, configRoot: string, stateDir: string)

  /** path_join into a buffer of PATH_MAX bytes. */
  function Joined(path: string): Option<string> { if |path| + 1 > PATH_MAX then None else Some(path) }

  function DevicePath(env: Env, id: string): Option<string> {
    Joined(env.configRoot + "/devices.d/" + id + ".toml")
  }

  function StatePath(env: Env): Option<string> { Joined(env.stateDir + "/state.toml") }

  lemma PathsAre(env: Env, id: string)
    ensures DevicePath(env, id).Some? ==> DevicePath(env, id).value == env.configRoot + "/devices.d/" + id + ".toml"
    ensures StatePath(env).Some? ==> StatePath(env).value == env.stateDir + "/state.toml"
    ensures env.configRoot + "/devices.d/" + id + ".toml" + ".tmp" == env.configRoot + "/devices.d/" + id + ".toml.tmp"
    ensures env.stateDir + "/state.toml" + ".tmp" == env.stateDir + "/state.toml.tmp"
  {
    assert ".toml" + ".tmp" == ".toml.tmp" && "/state.toml" + ".tmp" == "/state.toml.tmp";
    Assoc(env.configRoot + "/devices.d/" + id, ".toml", ".tmp");
    Assoc(env.stateDir, "/state.toml", ".tmp");
  }

  predicate IsHex(c: char) { IsDigit(c) || 'a' <= c <= 'f' || 'A' <= c <= 'F' }

  /** daemon_identity_valid: "unknown" or a Bluetooth address. */
  predicate ValidIdentity(id: string) {
    id == "unknown" || (|id| == 17 && forall i :: 0 <= i < 17 ==> if i % 3 == 2 then id[i] == ':' else IsHex(id[i]))
  }

  lemma IdentityNulFree(id: string)
    requires ValidIdentity(id)
    ensures NulFree(id)
  {
  }

  lemma TempEndsInP(path: string)
    ensures IsTemp(path) ==> path[|path| - 1] == 'p'
  {
    assert IsTemp(path) ==> path[|path| - 1] == path[|path| - 4..][3];
  }

  /** A device file is never state.toml, nor a temporary file. */
  lemma PathsDiffer(env: Env, id: string)
    requires ValidIdentity(id)
    ensures var d, s := env.configRoot + "/devices.d/" + id + ".toml", env.stateDir + "/state.toml";
            d != s && d != TempOf(s) && s != TempOf(d) && !IsTemp(d) && !IsTemp(s)
  {
    var d, s := env.configRoot + "/devices.d/" + id + ".toml", env.stateDir + "/state.toml";
    assert d[|d| - 1] == 'l' && s[|s| - 1] == 'l';
    TempEndsInP(d);
    TempEndsInP(s);
    assert TempOf(d)[|TempOf(d)| - 1] == 'p' && TempOf(s)[|TempOf(s)| - 1] == 'p';
    assert s[|s| - 11] == '/';
    assert d[|d| - 11] == id[|id| - 6];
    assert id != "unknown" ==> id[11] == ':';
    assert id[|id| - 6] != '/';
  }

  // ------------------------------------------------------------------
  // Loading
  // ------------------------------------------------------------------

  /** device_config_load_file over fresh defaults; no file leaves the defaults. */
  function LoadFile(env: Env, files: Files, id: string): Loaded<DeviceData> {
    match DevicePath(env, id)
    case None => Loaded(false, INITIAL)
    case Some(path) =>
      if path in files then LoadedText(env.km, env.libc, files[path]) else Loaded(true, INITIAL)
  }

  /** The tree of state.toml, unless it is absent or does not parse. */
  function StateTree(env: Env, files: Files): Option<Members> {
    match StatePath(env)
    case None => None
    case Some(path) =>
      if path in files && Parse(env.libc, files[path]).Ok? then Some(Parse(env.libc, files[path]).value) else None
  }

  /** The active profile that a state tree names for a remote. */
  function ProfileOf(root: Members, id: string): Option<string> {
    match Get(root, "devices")
    case Some(Table(devs)) =>
      (match Get(devs, id)
       case Some(Table(dev)) => (match Get(dev, "profile") case Some(Str(s)) => Some(s) case _ => None)
       case _ => None)
    case _ => None
  }

  function Overlay(env: Env, files: Files, id: string): Option<string> {
    match StateTree(env, files)
    case None => None
    case Some(root) => ProfileOf(root, id)
  }

  /** daemon_config_load_remote: the device file, with the active profile of state.toml on top. */
  function LoadRemote(env: Env, files: Files, id: string): Loaded<DeviceData> {
    var r := LoadFile(env, files, id);
    if !r.ok then r
    else if StatePath(env).None? then Loaded(false, r.data)
    else
      match Overlay(env, files, id)
      case None => r
      case Some(profile) => Loaded(true, r.data.(profile := profile))
  }

  /** device_config_load_file, into a configuration that holds the defaults. */
  method ReadFile(env: Env, fs: FileSystem, path: string, out: DeviceConfig) returns (rc: int)
    requires out.Data() == INITIAL
    modifies out
    ensures path !in fs.files ==> rc == 1 && out.Data() == INITIAL
    ensures path in fs.files ==>
              rc <= 0 && Loaded(rc == 0, out.Data()) == LoadedText(env.km, env.libc, fs.files[path])
  {
    if path !in fs.files {
      return 1;
    }
    var root, _ := TomlParse(env.libc, fs.files[path]);
    if root.None? {
      return -1;
    }
    var ok := out.ReadToml(env.km, root.value);
    return if ok then 0 else -1;
  }

  method LoadStateTree(env: Env, fs: FileSystem, path: string) returns (root: Option<Members>)
    requires StatePath(env) == Some(path)
    ensures root == StateTree(env, fs.files)
  {
    if path !in fs.files {
      return None;
    }
    var tree, _ := TomlParse(env.libc, fs.files[path]);
    return tree;
  }

  method LoadInto(env: Env, fs: FileSystem, id: string, out: DeviceConfig) returns (ok: bool)
    requires out.Data() == INITIAL
    modifies out
    ensures Loaded(ok, out.Data()) == LoadRemote(env, fs.files, id)
  {
    hide LoadedText, StateTree, ProfileOf;
    var path := DevicePath(env, id);
    if path.None? {
      return false;
    }
    var rc := ReadFile(env, fs, path.value, out);
    if rc < 0 {
      return false;
    }
    var statePath := StatePath(env);
    if statePath.None? {
      return false;
    }
    var root := LoadStateTree(env, fs, statePath.value);
    if root.Some? {
      var profile := ProfileOf(root.value, id);
      if profile.Some? {
        out.profile := profile.value;
      }
    }
    return true;
  }

  /** The device's table is at this path, and names the profile. */
  lemma ProfileAt(root: Members, id: string, profile: string)
    ensures ProfileOf(root, id) == Some(profile) <==>
            At(root, ["devices", id]).Some? && Get(At(root, ["devices", id]).value, "profile") == Some(Str(profile))
  {
    var path := ["devices", id];
    assert path[1..] == [id] && path[1..][1..] == [];
    match Get(root, "devices")
    case Some(Table(devs)) => assert At(root, path) == At(devs, [id]);
    case _ =>
  }

  /** What a load gives: the device file's configuration, or the built-in one when there is no file, with the
      active profile that state.toml names for the remote, if that can be read. */
  lemma LoadMeans(env: Env, files: Files, id: string, profile: string)
    ensures var d, s := env.configRoot + "/devices.d/" + id + ".toml", env.stateDir + "/state.toml";
            var base := if d in files then LoadedText(env.km, env.libc, files[d])
                        else Loaded(true, DeviceData("default", None, true, false, []));
            var r := LoadRemote(env, files, id);
            && (|d| >= 4096 ==> !r.ok)
            && (|d| < 4096 && !base.ok ==> r == base)
            && (|d| < 4096 && base.ok && |s| >= 4096 ==> !r.ok)
            && (|d| < 4096 && base.ok && |s| < 4096 ==>
                  if s !in files || Parse(env.libc, files[s]).Err? then r == base
                  else
                    var root := Parse(env.libc, files[s]).value;
                    && r.ok && r.data == base.data.(profile := r.data.profile)
                    && (At(root, ["devices", id]).Some? &&
                        Get(At(root, ["devices", id]).value, "profile") == Some(Str(profile)) ==>
                          r.data.profile == profile)
                    && (r.data.profile != base.data.profile ==>
                          && At(root, ["devices", id]).Some?
                          && Get(At(root, ["devices", id]).value, "profile") == Some(Str(r.data.profile))))
  {
    hide LoadedText, Parse, ProfileOf, At;
    var s := env.stateDir + "/state.toml";
    if s in files && Parse(env.libc, files[s]).Ok? {
      var root := Parse(env.libc, files[s]).value;
      ProfileAt(root, id, profile);
      if ProfileOf(root, id).Some? {
        ProfileAt(root, id, ProfileOf(root, id).value);
      }
    }
  }

  // ------------------------------------------------------------------
  // Saving the active profile
  // ------------------------------------------------------------------

  /** The table under a key, added empty when the key is absent; None when the key holds something else. */
  function EnsureTable(t: Members, key: string): Option<Members> {
    match Get(t, key)
    case None => Some(t + [Member(key, Table([]))])
    case Some(Table(_)) => Some(t)
    case Some(_) => None
  }

  /** table_set_str. */
  function SetStr(t: Members, key: string, s: string): Members {
    if Get(t, key).Some? then SetVal(t, key, Str(s)) else t + [Member(key, Str(s))]
  }

  predicate TableOrAbsent(v: Option<Value>) { v.None? || v.value.Table? }

  lemma EnsureTableGet(t: Members, key: string)
    ensures EnsureTable(t, key).Some? <==> TableOrAbsent(Get(t, key))
    ensures EnsureTable(t, key).Some? ==>
              var v := Get(EnsureTable(t, key).value, key);
              && v.Some? && v.value.Table?
              && v.value.members == if Get(t, key).Some? then Get(t, key).value.members else []
    ensures EnsureTable(t, key).Some? ==>
              forall k :: k != key ==> Get(EnsureTable(t, key).value, k) == Get(t, k)
  {
    forall k ensures Get(t + [Member(key, Table([]))], k) ==
                     if Get(t, k).Some? then Get(t, k) else if key == k then Some(Table([])) else None {
      GetAppend(t, Member(key, Table([])), k);
    }
  }

  lemma SetStrGet(t: Members, key: string, s: string)
    ensures Get(SetStr(t, key, s), key) == Some(Str(s))
    ensures forall k :: k != key ==> Get(SetStr(t, key, s), k) == Get(t, k)
  {
    forall k ensures Get(SetStr(t, key, s), k) == if k == key then Some(Str(s)) else Get(t, k) {
      GetAppend(t, Member(key, Str(s)), k);
      GetSetVal(t, key, Str(s), k);
    }
  }

  /** The table of a remote with its profile set. */
  function WithEntry(devs: Members, id: string, profile: string): Option<Members> {
    match EnsureTable(devs, id)
    case None => None
    case Some(d) =>
      if Get(d, id).Some? && Get(d, id).value.Table? then
        Some(SetVal(d, id, Table(SetStr(Get(d, id).value.members, "profile", profile))))
      else None
  }

  /** The state tree with the profile of a remote set; None when a value is in the way. */
  function WithProfile(root: Members, id: string, profile: string): Option<Members> {
    match EnsureTable(root, "devices")
    case None => None
    case Some(r) =>
      if Get(r, "devices").Some? && Get(r, "devices").value.Table? then
        match WithEntry(Get(r, "devices").value.members, id, profile)
        case None => None
        case Some(devs) => Some(SetVal(r, "devices", Table(devs)))
      else None
  }

  /** The remotes' table, as far as there is one. */
  function DevicesOf(root: Members): Members {
    match Get(root, "devices") case Some(Table(devs)) => devs case _ => []
  }

  lemma WithEntryGet(devs: Members, id: string, profile: string)
    ensures WithEntry(devs, id, profile).Some? <==> TableOrAbsent(Get(devs, id))
    ensures WithEntry(devs, id, profile).Some? ==>
              var r := WithEntry(devs, id, profile).value;
              && Get(r, id).Some? && Get(r, id).value.Table?
              && Get(Get(r, id).value.members, "profile") == Some(Str(profile))
              && (forall k :: k != "profile" && Get(devs, id).Some? ==>
                    Get(Get(r, id).value.members, k) == Get(Get(devs, id).value.members, k))
              && (forall other :: other != id ==> Get(r, other) == Get(devs, other))
  {
    EnsureTableGet(devs, id);
    if TableOrAbsent(Get(devs, id)) {
      var d := EnsureTable(devs, id).value;
      var dev := Get(d, id).value.members;
      SetStrGet(dev, "profile", profile);
      forall k ensures Get(WithEntry(devs, id, profile).value, k) ==
                       if k == id then Some(Table(SetStr(dev, "profile", profile))) else Get(d, k) {
        GetSetVal(d, id, Table(SetStr(dev, "profile", profile)), k);
      }
    }
  }

  /** Setting a profile is refused exactly when a value that is no table stands in the way; it sets
      that one value and leaves every other remote and every other key alone. */
  lemma WithProfileGet(root: Members, id: string, profile: string)
    ensures WithProfile(root, id, profile).Some? <==>
            TableOrAbsent(Get(root, "devices")) && TableOrAbsent(Get(DevicesOf(root), id))
    ensures WithProfile(root, id, profile).Some? ==>
              var r := WithProfile(root, id, profile).value;
              && ProfileOf(r, id) == Some(profile)
              && (forall other :: other != id ==> Get(DevicesOf(r), other) == Get(DevicesOf(root), other))
              && (forall k :: k != "devices" ==> Get(r, k) == Get(root, k))
  {
    hide WithEntry;
    EnsureTableGet(root, "devices");
    if TableOrAbsent(Get(root, "devices")) {
      var t := EnsureTable(root, "devices").value;
      var devs := Get(t, "devices").value.members;
      WithEntryGet(devs, id, profile);
      if WithEntry(devs, id, profile).Some? {
        var devs' := WithEntry(devs, id, profile).value;
        forall k ensures Get(SetVal(t, "devices", Table(devs')), k) ==
                         if k == "devices" then Some(Table(devs')) else Get(t, k) {
          GetSetVal(t, "devices", Table(devs'), k);
        }
      }
    }
  }

  const VERSION: Members := [Member("version", Int(2))]

  /** The tree to start from: state.toml, or a new one when that is absent or does not parse. */
  function BaseTree(env: Env, files: Files): Members {
    match StateTree(env, files) case Some(root) => root case None => VERSION
  }

  /** The text that daemon_config_save_profile writes; None when it gives up before that. */
  function StateText(env: Env, files: Files, id: string, profile: string): Option<string> {
    match WithProfile(BaseTree(env, files), id, profile)
    case None => None
    case Some(root) => Dumps(env.libc, Table(root))
  }

  method EnsureMember(t: Members, key: string) returns (r: Option<Members>)
    ensures r == EnsureTable(t, key)
  {
    var v := Get(t, key);
    if v.Some? && v.value.Table? {
      return Some(t);
    }
    // toml_table_add refuses a key that is there already
    return if v.Some? then None else Some(t + [Member(key, Table([]))]);
  }

  lemma {:induction false} SetValAt(t: Members, i: nat, key: string, v: Value)
    requires i < |t| && t[i].key == key
    requires forall k :: 0 <= k < i ==> t[k].key != key
    ensures Get(t, key).Some? && SetVal(t, key, v) == t[i := Member(key, v)]
    decreases i
  {
    if i > 0 {
      var tail := t[1..];
      assert forall k :: 0 <= k < i - 1 ==> tail[k] == t[k + 1];
      SetValAt(tail, i - 1, key, v);
      assert t[i := Member(key, v)] == [t[0]] + tail[i - 1 := Member(key, v)];
    }
  }

  method TableSetStr(t: Members, key: string, s: string) returns (r: Members)
    ensures r == SetStr(t, key, s)
  {
    for i := 0 to |t|
      invariant forall k :: 0 <= k < i ==> t[k].key != key
    {
      if t[i].key == key {
        SetValAt(t, i, key, Str(s));
        return t[i := Member(key, Str(s))];
      }
    }
    GetIndex(t, key);
    return t + [Member(key, Str(s))];
  }

  /** b has the keys of a in the same places, and at most one more after them. */
  ghost predicate KeepsOrder(a: Members, b: Members) {
    |a| <= |b| <= |a| + 1 && forall i :: 0 <= i < |a| ==> b[i].key == a[i].key
  }

  lemma {:induction false} SetValKeys(ms: Members, key: string, v: Value)
    ensures |SetVal(ms, key, v)| == |ms| && KeepsOrder(ms, SetVal(ms, key, v))
  {
    if ms != [] && ms[0].key != key {
      SetValKeys(ms[1..], key, v);
    }
  }

  lemma SetStrKeys(t: Members, key: string, s: string)
    ensures KeepsOrder(t, SetStr(t, key, s))
  {
    SetValKeys(t, key, Str(s));
  }

  lemma WithEntryOrder(devs: Members, id: string, profile: string)
    requires WithEntry(devs, id, profile).Some?
    ensures KeepsOrder(devs, WithEntry(devs, id, profile).value)
  {
    var d := EnsureTable(devs, id).value;
    SetValKeys(d, id, Table(SetStr(Get(d, id).value.members, "profile", profile)));
  }

  /** What is new in the state tree comes after what was there; nothing else moves. */
  lemma WithProfileOrder(root: Members, id: string, profile: string)
    requires WithProfile(root, id, profile).Some?
    ensures var r := WithProfile(root, id, profile).value;
            && KeepsOrder(root, r) && KeepsOrder(DevicesOf(root), DevicesOf(r))
            && forall a, b :: Get(DevicesOf(root), id) == Some(Table(a)) && Get(DevicesOf(r), id) == Some(Table(b)) ==>
                 KeepsOrder(a, b)
  {
    EnsureTableGet(root, "devices");
    var t := EnsureTable(root, "devices").value;
    var devs := Get(t, "devices").value.members;
    var devs' := WithEntry(devs, id, profile).value;
    SetValKeys(t, "devices", Table(devs'));
    GetSetVal(t, "devices", Table(devs'), "devices");
    WithEntryOrder(devs, id, profile);
    EnsureTableGet(devs, id);
    var d := EnsureTable(devs, id).value;
    var dev := Get(d, id).value.members;
    GetSetVal(d, id, Table(SetStr(dev, "profile", profile)), id);
    SetStrKeys(dev, "profile", profile);
    assert DevicesOf(root) == devs;
    hide KeepsOrder, SetStr, EnsureTable;
  }

  /** A failed write leaves at most a temporary file behind. */
  ghost predicate Untouched(before: Files, now: Files, path: Option<string>) {
    if path.Some? then OnlyTemp(before, now, TempOf(path.value)) else now == before
  }

  /** daemon_config_save_profile.  `dirs` says whether the state directory could be made. */
  method SaveProfile(env: Env, fs: FileSystem, id: string, profile: string, dirs: bool, luck: Luck) returns (rc: int)
    modifies fs
    ensures var path, text := StatePath(env), StateText(env, old(fs.files), id, profile);
            rc == if path.Some? && text.Some? && dirs && Succeeds(old(fs.files), path.value, text.value, luck)
                  then 0 else -1
    ensures rc == 0 ==>
              var path, text := StatePath(env).value, StateText(env, old(fs.files), id, profile).value;
              fs.files == old(fs.files)[path := text] - {TempOf(path)}
    ensures rc == 0 ==>
              && Look(fs.files, env.stateDir + "/state.toml") == StateText(env, old(fs.files), id, profile)
              && env.stateDir + "/state.toml.tmp" !in fs.files
    ensures rc < 0 ==> Untouched(old(fs.files), fs.files, StatePath(env))
    ensures var path, text := StatePath(env), StateText(env, old(fs.files), id, profile);
            if path.Some? && text.Some? then fs.CrashSafe(old(fs.history), old(fs.State()), path.value, text.value)
            else fs.history == old(fs.history)
  {
    hide StateTree, WithEntry, Dumps, Succeeds, Joined;
    PathsAre(env, id);
    var path := StatePath(env);
    if path.None? {
      return -1;
    }
    var loaded := LoadStateTree(env, fs, path.value);
    var root := if loaded.Some? then loaded.value else VERSION;
    var tree := SetProfileIn(root, id, profile);
    if tree.None? {
      return -1;
    }
    var text := TomlDumps(env.libc, Table(tree.value));
    if text.None? || !dirs {
      return -1;
    }
    rc := fs.AtomicWrite(path.value, text.value, luck);
  }

  method SetProfileIn(root: Members, id: string, profile: string) returns (r: Option<Members>)
    ensures r == WithProfile(root, id, profile)
  {
    hide EnsureTable, SetStr;
    var t := EnsureMember(root, "devices");
    if t.None? {
      return None;
    }
    EnsureTableGet(root, "devices");
    var devs := Get(t.value, "devices").value.members;
    var d := EnsureMember(devs, id);
    if d.None? {
      return None;
    }
    EnsureTableGet(devs, id);
    var dev := TableSetStr(Get(d.value, id).value.members, "profile", profile);
    return Some(SetVal(t.value, "devices", Table(SetVal(d.value, id, Table(dev)))));
  }

  /** daemon_config_save_device. */
  method SaveDevice(env: Env, fs: FileSystem, dc: DeviceConfig, id: string, dirs: bool, luck: Luck) returns (rc: int)
    modifies fs
    ensures dc.Data() == old(dc.Data())
    ensures var path, text := DevicePath(env, id), SavedText(env.km, env.libc, dc.Data());
            rc == if path.Some? && text.Some? && dirs && Succeeds(old(fs.files), path.value, text.value, luck)
                  then 0 else -1
    ensures rc == 0 ==>
              var path, text := DevicePath(env, id).value, SavedText(env.km, env.libc, dc.Data()).value;
              fs.files == old(fs.files)[path := text] - {TempOf(path)}
    ensures rc == 0 ==>
              && Look(fs.files, env.configRoot + "/devices.d/" + id + ".toml") ==
                 SavedText(env.km, env.libc, dc.Data())
              && env.configRoot + "/devices.d/" + id + ".toml.tmp" !in fs.files
    ensures rc < 0 ==> Untouched(old(fs.files), fs.files, DevicePath(env, id))
    ensures var path, text := DevicePath(env, id), SavedText(env.km, env.libc, dc.Data());
            if path.Some? && text.Some? then fs.CrashSafe(old(fs.history), old(fs.State()), path.value, text.value)
            else fs.history == old(fs.history)
  {
    hide Dumps, ToToml, Succeeds, Joined;
    PathsAre(env, id);
    var path := DevicePath(env, id);
    if path.None? {
      return -1;
    }
    var root := dc.WriteToml(env.km);
    if root.None? {
      return -1;
    }
    var text := TomlDumps(env.libc, Table(root.value));
    if text.None? || !dirs {
      return -1;
    }
    rc := fs.AtomicWrite(path.value, text.value, luck);
  }

  // ------------------------------------------------------------------
  // What a saved profile changes
  // ------------------------------------------------------------------

  lemma ProfileOfReread(libc: Libc, root: Members, id: string)
    requires WritableTable(libc, root)
    ensures ProfileOf(RereadTree(libc, root), id) == ProfileOf(root, id)
  {
    hide RereadTree, WritableTable;
    TableUnique(libc, root);
    GetReread(libc, root, "devices");
    match Get(root, "devices")
    case Some(Table(devs)) =>
      MemberTable(libc, root, "devices");
      TableUnique(libc, devs);
      GetReread(libc, devs, id);
      match Get(devs, id) {
        case Some(Table(dev)) =>
          MemberTable(libc, devs, id);
          TableUnique(libc, dev);
          GetReread(libc, dev, "profile");
        case _ =>
      }
    case _ =>
  }

  lemma TableUnique(libc: Libc, ms: Members)
    requires WritableTable(libc, ms)
    ensures Unique(ms)
  {
  }

  lemma MemberTable(libc: Libc, ms: Members, key: string)
    requires WritableTable(libc, ms) && Get(ms, key).Some? && Get(ms, key).value.Table?
    ensures WritableTable(libc, Get(ms, key).value.members)
  {
    GetWritable(libc, ms, key);
  }

  lemma EnsureWritable(libc: Libc, t: Members, key: string)
    requires WritableTable(libc, t) && NulFree(key) && EnsureTable(t, key).Some?
    ensures WritableTable(libc, EnsureTable(t, key).value)
  {
    if Get(t, key).None? {
      assert WritableTable(libc, []);
      AppendTable(libc, t, Member(key, Table([])));
    }
  }

  lemma SetStrWritable(libc: Libc, t: Members, key: string, s: string)
    requires WritableTable(libc, t) && NulFree(key) && NulFree(s)
    ensures WritableTable(libc, SetStr(t, key, s))
  {
    if Get(t, key).Some? {
      SetValTable(libc, t, key, Str(s));
    } else {
      AppendTable(libc, t, Member(key, Str(s)));
    }
  }

  lemma WithEntryWritable(libc: Libc, devs: Members, id: string, profile: string)
    requires WritableTable(libc, devs) && NulFree(id) && NulFree(profile) && WithEntry(devs, id, profile).Some?
    ensures WritableTable(libc, WithEntry(devs, id, profile).value)
  {
    hide SetStr, EnsureTable;
    EnsureTableGet(devs, id);
    EnsureWritable(libc, devs, id);
    var d := EnsureTable(devs, id).value;
    MemberTable(libc, d, id);
    var dev := Get(d, id).value.members;
    assert NulFree("profile");
    SetStrWritable(libc, dev, "profile", profile);
    assert Writable(libc, Table(SetStr(dev, "profile", profile)));
    SetValTable(libc, d, id, Table(SetStr(dev, "profile", profile)));
  }

  lemma WithProfileWritable(libc: Libc, root: Members, id: string, profile: string)
    requires WritableTable(libc, root) && NulFree(id) && NulFree(profile) && WithProfile(root, id, profile).Some?
    ensures WritableTable(libc, WithProfile(root, id, profile).value)
  {
    hide WithEntry, EnsureTable;
    assert NulFree("devices");
    EnsureTableGet(root, "devices");
    EnsureWritable(libc, root, "devices");
    var t := EnsureTable(root, "devices").value;
    MemberTable(libc, t, "devices");
    var devs := Get(t, "devices").value.members;
    WithEntryWritable(libc, devs, id, profile);
    assert Writable(libc, Table(WithEntry(devs, id, profile).value));
    SetValTable(libc, t, "devices", Table(WithEntry(devs, id, profile).value));
  }

  lemma BaseWritable(env: Env, files: Files)
    requires AllPrintable(env.libc)
    ensures WritableTable(env.libc, BaseTree(env, files))
  {
    if StateTree(env, files).Some? {
      ParseWritable(env.libc, files[StatePath(env).value]);
    } else {
      assert NulFree("version");
      assert VERSION[1..] == [];
      assert Writable(env.libc, Int(2));
    }
  }

  /** The disk after a successful write of `text` to `path`. */
  function Written(files: Files, path: string, text: string): Files { files[path := text] - {TempOf(path)} }

  /** After saving the profile of one remote, state.toml names that profile for it and the same
      profile as before for every other remote. */
  lemma SavedProfile(env: Env, files: Files, id: string, profile: string, other: string)
    requires AllPrintable(env.libc) && NulFree(id) && NulFree(profile) && StatePath(env).Some?
    requires StateText(env, files, id, profile).Some?
    ensures var files' := Written(files, StatePath(env).value, StateText(env, files, id, profile).value);
            Overlay(env, files', other) == if other == id then Some(profile) else Overlay(env, files, other)
  {
    hide Parse, Dumps, WithProfile, WritableTable, AllPrintable;
    var base := BaseTree(env, files);
    BaseWritable(env, files);
    var root := WithProfile(base, id, profile).value;
    WithProfileWritable(env.libc, base, id, profile);
    DumpsRead(env.libc, root);
    var path, text := StatePath(env).value, StateText(env, files, id, profile).value;
    var files' := Written(files, path, text);
    assert |TempOf(path)| > |path|;
    assert StateTree(env, files') == Some(RereadTree(env.libc, root));
    ProfileOfReread(env.libc, root, other);
    WithProfileGet(base, id, profile);
    if other != id {
      SameEntry(root, base, other);
      if StateTree(env, files).None? {
        assert ProfileOf(VERSION, other) == None by {
          VersionOnly();
        }
      }
    }
  }

  /** A new state.toml says that it is of version 2. */
  lemma NewStateVersion(env: Env, files: Files, id: string, profile: string)
    requires AllPrintable(env.libc) && NulFree(id) && NulFree(profile) && StatePath(env).Some?
    requires StateTree(env, files).None? && StateText(env, files, id, profile).Some?
    ensures var tree := StateTree(env, Written(files, StatePath(env).value, StateText(env, files, id, profile).value));
            tree.Some? && Get(tree.value, "version") == Some(Int(2))
  {
    hide Parse, Dumps, WithProfile, WritableTable, AllPrintable;
    BaseWritable(env, files);
    var root := WithProfile(VERSION, id, profile).value;
    WithProfileWritable(env.libc, VERSION, id, profile);
    DumpsRead(env.libc, root);
    var path, text := StatePath(env).value, StateText(env, files, id, profile).value;
    assert |TempOf(path)| > |path|;
    assert StateTree(env, Written(files, path, text)) == Some(RereadTree(env.libc, root));
    WithProfileGet(VERSION, id, profile);
    VersionOnly();
    TableUnique(env.libc, root);
    hide RereadTree;
    GetReread(env.libc, root, "version");
  }

  lemma SameEntry(a: Members, b: Members, id: string)
    requires Get(DevicesOf(a), id) == Get(DevicesOf(b), id)
    ensures ProfileOf(a, id) == ProfileOf(b, id)
  {
  }

  lemma VersionOnly()
    ensures Get(VERSION, "devices") == None && Get(VERSION, "version") == Some(Int(2)) && "version" != "devices"
  {
    assert |"version"| == |"devices"| && "version"[0] != "devices"[0];
    assert VERSION[1..] == [];
  }

  /** The table of every other remote comes back as it was, as far as its floats have exact texts. */
  lemma SavedOthers(env: Env, files: Files, id: string, profile: string, other: string)
    requires AllPrintable(env.libc) && NulFree(id) && NulFree(profile) && StatePath(env).Some? && other != id
    requires StateText(env, files, id, profile).Some?
    ensures var files' := Written(files, StatePath(env).value, StateText(env, files, id, profile).value);
            StateTree(env, files').Some? &&
            var v := Get(DevicesOf(BaseTree(env, files)), other);
            Get(DevicesOf(StateTree(env, files').value), other) ==
            if v.Some? then Some(RereadValue(env.libc, v.value)) else None
  {
    hide Parse, Dumps, WithProfile, WritableTable, AllPrintable, RereadTree;
    var base := BaseTree(env, files);
    BaseWritable(env, files);
    var root := WithProfile(base, id, profile).value;
    WithProfileWritable(env.libc, base, id, profile);
    DumpsRead(env.libc, root);
    var path, text := StatePath(env).value, StateText(env, files, id, profile).value;
    assert |TempOf(path)| > |path|;
    assert StateTree(env, Written(files, path, text)) == Some(RereadTree(env.libc, root));
    WithProfileGet(base, id, profile);
    TableUnique(env.libc, root);
    GetReread(env.libc, root, "devices");
    assert Get(root, "devices").Some? && Get(root, "devices").value.Table?;
    MemberTable(env.libc, root, "devices");
    TableUnique(env.libc, DevicesOf(root));
    GetReread(env.libc, DevicesOf(root), other);
  }

  /** The load of a remote after its profile was saved: as before, with the saved profile active. */
  lemma SavedProfileLoads(env: Env, files: Files, id: string, profile: string, other: string)
    requires AllPrintable(env.libc) && ValidIdentity(id) && ValidIdentity(other) && NulFree(profile)
    requires StatePath(env).Some? && StateText(env, files, id, profile).Some?
    ensures var files' := Written(files, StatePath(env).value, StateText(env, files, id, profile).value);
            if other != id then LoadRemote(env, files', other) == LoadRemote(env, files, other)
            else
              var r := LoadFile(env, files, id);
              LoadRemote(env, files', id) == if r.ok then Loaded(true, r.data.(profile := profile)) else r
  {
    hide StateText, Overlay, LoadedText, AllPrintable;
    IdentityNulFree(id);
    SavedProfile(env, files, id, profile, other);
    PathsDiffer(env, other);
    var files' := Written(files, StatePath(env).value, StateText(env, files, id, profile).value);
    assert LoadFile(env, files', other) == LoadFile(env, files, other);
  }

  /** Loading after a crash during a write of one of the remote's files gives what a load before the
      write would have given, or what a load after it gives. */
  lemma CrashLoads(env: Env, before: Disk, now: Files, id: string, path: string, text: string)
    requires ValidIdentity(id) && (DevicePath(env, id) == Some(path) || StatePath(env) == Some(path))
    requires Flushed(before) && OldOrNew(before, now, path, text)
    ensures LoadRemote(env, now, id) == LoadRemote(env, before.files, id) ||
            LoadRemote(env, now, id) == LoadRemote(env, Written(before.files, path, text), id)
  {
    hide LoadedText, ProfileOf, Parse;
    PathsDiffer(env, id);
    var after := Written(before.files, path, text);
    assert |TempOf(path)| > |path|;
    var d, s := DevicePath(env, id), StatePath(env);
    if Look(now, path) == Look(before.files, path) {
      assert d.Some? ==> Look(now, d.value) == Look(before.files, d.value);
      assert s.Some? ==> Look(now, s.value) == Look(before.files, s.value);
    } else {
      assert d.Some? ==> Look(now, d.value) == Look(after, d.value);
      assert s.Some? ==> Look(now, s.value) == Look(after, s.value);
    }
  }
}
