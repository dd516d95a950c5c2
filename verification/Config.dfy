/** The two-file credential store, its migration of older layouts, and the key resolver over it. */
module Config {
  import opened Wrappers

  datatype Mode = Sandbox | Production

  // An expiry is absent where none is stored or the stored date does not parse.
  datatype KeyEntry = KeyEntry(apiKey: string, expiresAt: Option<int>)

  datatype ProfileKeys =
    ProfileKeys(management: Option<KeyEntry>, sandbox: Option<KeyEntry>, production: Option<KeyEntry>)

  datatype Project = Project(id: string, slug: string)

  // One entry of a profile map; a map lists its entries in insertion order, each name once.
  datatype Profile = Profile(name: string, keys: ProfileKeys)

  // What either file may hold, in any layout: fields that do not parse are absent. `flat` is the oldest
  // layout's own key at the top level.
  datatype Stored = Stored(mode: Option<Mode>, activeProject: Option<Project>, profiles: seq<Profile>,
                           sandbox: Option<KeyEntry>, production: Option<KeyEntry>, flat: Option<KeyEntry>)

  // Both files, each None where it is missing or malformed.
  datatype Files = Files(config: Option<Stored>, credentials: Option<Stored>)

  datatype StoredConfig = StoredConfig(mode: Mode, activeProject: Option<Project>, profiles: seq<Profile>)

  const DEFAULT_PROFILE := "default"
  const NO_KEYS := ProfileKeys(None, None, None)
  const EMPTY := Stored(None, None, [], None, None, None)

  function ActiveName(project: Option<Project>): string {
    if project.Some? then project.value.slug else DEFAULT_PROFILE
  }

  predicate HasKey(keys: ProfileKeys) { keys.sandbox.Some? || keys.production.Some? }

  predicate HasStoredCredential(keys: ProfileKeys) { keys.management.Some? || HasKey(keys) }

  function Slot(keys: ProfileKeys, mode: Mode): Option<KeyEntry> {
    if mode == Sandbox then keys.sandbox else keys.production
  }

  function WithSlot(keys: ProfileKeys, mode: Mode, entry: KeyEntry): ProfileKeys {
    if mode == Sandbox then keys.(sandbox := Some(entry)) else keys.(production := Some(entry))
  }

  /** Profile maps. */

  function KeysOf(profiles: seq<Profile>, name: string): ProfileKeys {
    if profiles == [] then NO_KEYS
    else if profiles[0].name == name then profiles[0].keys
    else KeysOf(profiles[1..], name)
  }

  // Assignment to a property: in place if it is there, else at the end.
  function Put(profiles: seq<Profile>, name: string, keys: ProfileKeys): seq<Profile> {
    if profiles == [] then [Profile(name, keys)]
    else if profiles[0].name == name then [Profile(name, keys)] + profiles[1..]
    else [profiles[0]] + Put(profiles[1..], name, keys)
  }

  // Only profiles that hold a credential.
  function Kept(profiles: seq<Profile>): seq<Profile> {
    if profiles == [] then []
    else (if HasStoredCredential(profiles[0].keys) then [profiles[0]] else []) + Kept(profiles[1..])
  }

  lemma KeptOn(profiles: seq<Profile>, i: nat, kept: seq<Profile>)
    requires i < |profiles|
    ensures kept + Kept(profiles[i..])
      == (if HasStoredCredential(profiles[i].keys) then kept + [profiles[i]] else kept) + Kept(profiles[i + 1..])
  {
    assert profiles[i..][1..] == profiles[i + 1..];
  }

  // Spreading one map over another.
  function Spread(under: seq<Profile>, over: seq<Profile>): seq<Profile>
    decreases |over|
  {
    if over == [] then under else Spread(Put(under, over[0].name, over[0].keys), over[1..])
  }

  /** Reading and writing. */

  function LegacyOf(s: Stored): ProfileKeys {
    if s.sandbox.Some? || s.production.Some? then ProfileKeys(None, s.sandbox, s.production)
    else ProfileKeys(None, s.flat, None)
  }

  function Or<T>(a: Option<T>, b: Option<T>): Option<T> { if a.Some? then a else b }

  function ConfigOf(files: Files): Stored { if files.config.Some? then files.config.value else EMPTY }

  function CredentialsOf(files: Files): Stored { if files.credentials.Some? then files.credentials.value else EMPTY }

  function ActiveOf(files: Files): string { ActiveName(ConfigOf(files).activeProject) }

  // The profile maps of both files, the settings file's over the secrets file's.
  function Merged(files: Files): seq<Profile> {
    Spread(Kept(CredentialsOf(files).profiles), Kept(ConfigOf(files).profiles))
  }

  // The pair kept at the top level by older layouts, the secrets file's over the settings file's.
  function Legacy(files: Files): ProfileKeys {
    var inConfig, inCredentials := LegacyOf(ConfigOf(files)), LegacyOf(CredentialsOf(files));
    ProfileKeys(None, Or(inCredentials.sandbox, inConfig.sandbox), Or(inCredentials.production, inConfig.production))
  }

  // Whether the legacy pair is folded into the active profile.
  predicate Folds(files: Files) { HasKey(Legacy(files)) && !HasKey(KeysOf(Merged(files), ActiveOf(files))) }

  function ProfilesOf(files: Files): seq<Profile> {
    if Folds(files) then Put(Merged(files), ActiveOf(files), Legacy(files)) else Merged(files)
  }

  function Read(files: Files): Option<StoredConfig> {
    var mode := Or(ConfigOf(files).mode, CredentialsOf(files).mode);
    if mode.None? && Kept(ProfilesOf(files)) == [] then None
    else
      var project := ConfigOf(files).activeProject;
      Some(StoredConfig(if mode.Some? then mode.value else Sandbox, project, ProfilesOf(files)))
  }

  // Whether a read that may migrate rewrites the files.
  predicate Rewrites(files: Files) { Read(files).Some? && (HasKey(LegacyOf(ConfigOf(files))) || Folds(files)) }

  function Written(c: StoredConfig): Files {
    Files(Some(EMPTY.(mode := Some(c.mode), activeProject := c.activeProject)),
          Some(EMPTY.(profiles := Kept(c.profiles))))
  }

  function AfterRead(files: Files): Files { if Rewrites(files) then Written(Read(files).value) else files }

  function Tidied(c: StoredConfig): StoredConfig { c.(profiles := Kept(c.profiles)) }

  class Store {
    var files: Files

    constructor (f: Files)
      ensures files == f
    {
      files := f;
    }

    // `readConfig`.
    method ReadConfig(persistMigrations: bool) returns (config: Option<StoredConfig>)
      modifies this
      ensures config == Read(old(files))
      ensures files == if persistMigrations then AfterRead(old(files)) else old(files)
    {
      var cfgObj, credObj := ConfigOf(files), CredentialsOf(files);
      var mode := Or(cfgObj.mode, credObj.mode);
      var activeName := ActiveName(cfgObj.activeProject);
      var profiles := Spread(Kept(credObj.profiles), Kept(cfgObj.profiles));
      var legacyCfg, legacyCred := LegacyOf(cfgObj), LegacyOf(credObj);
      var legacy :=
        ProfileKeys(None, Or(legacyCred.sandbox, legacyCfg.sandbox), Or(legacyCred.production, legacyCfg.production));
      var migratedLegacy := HasKey(legacy) && !HasKey(KeysOf(profiles, activeName));
      if migratedLegacy { profiles := Put(profiles, activeName, legacy); }
      if mode.None? && Kept(profiles) == [] { return None; }
      var c := StoredConfig(if mode.Some? then mode.value else Sandbox, cfgObj.activeProject, profiles);
      if (HasKey(legacyCfg) || migratedLegacy) && persistMigrations { WriteConfig(c); }
      return Some(c);
    }

    // `writeConfig`: two files, the second holding only the profiles with a credential.
    method WriteConfig(c: StoredConfig)
      modifies this
      ensures files == Written(c)
    {
      var kept: seq<Profile> := [];
      for i := 0 to |c.profiles|
        invariant kept + Kept(c.profiles[i..]) == Kept(c.profiles)
      {
        KeptOn(c.profiles, i, kept);
        if HasStoredCredential(c.profiles[i].keys) { kept := kept + [c.profiles[i]]; }
      }
      assert kept == Kept(c.profiles) by { assert c.profiles[|c.profiles|..] == []; }
      files := Files(Some(EMPTY.(mode := Some(c.mode), activeProject := c.activeProject)),
                     Some(EMPTY.(profiles := kept)));
    }

    method SetKey(mode: Mode, entry: KeyEntry)
      modifies this
      ensures files == Written(KeySet(old(files), mode, entry))
    {
      var read := ReadConfig(true);
      var cfg := if read.Some? then read.value else StoredConfig(mode, None, []);
      var name := ActiveName(cfg.activeProject);
      WriteConfig(cfg.(profiles := Put(cfg.profiles, name, WithSlot(KeysOf(cfg.profiles, name), mode, entry))));
    }

    method SetProfileKeys(name: string, keys: ProfileKeys, mode: Mode, project: Option<Project>)
      modifies this
      ensures files == Written(StoredConfig(mode, project, Put(ReadOr(old(files), mode).profiles, name, keys)))
    {
      var read := ReadConfig(true);
      var cfg := if read.Some? then read.value else StoredConfig(mode, None, []);
      WriteConfig(StoredConfig(mode, project, Put(cfg.profiles, name, keys)));
    }

    method SetMode(mode: Mode)
      modifies this
      ensures files == Written(ReadOr(old(files), mode).(mode := mode))
    {
      var read := ReadConfig(true);
      var cfg := if read.Some? then read.value else StoredConfig(mode, None, []);
      WriteConfig(cfg.(mode := mode));
    }

    method SetActiveProject(project: Option<Project>)
      modifies this
      ensures files == Written(ReadOr(old(files), Sandbox).(activeProject := project))
    {
      var read := ReadConfig(true);
      var cfg := if read.Some? then read.value else StoredConfig(Sandbox, None, []);
      WriteConfig(cfg.(activeProject := project));
    }

    // `resolveKey`; `explicitKey` is what the environment or the project's files give.
    method ResolveKey(explicitKey: Option<string>, orgRead: bool, mode: Option<Mode>, now: int, persistMigrations: bool)
      returns (key: Option<string>)
      modifies this
      ensures key == Resolved(old(files), explicitKey, orgRead, mode, now)
      ensures explicitKey.Some? || !persistMigrations ==> files == old(files)
      ensures explicitKey.None? && persistMigrations ==> files == AfterRead(old(files))
    {
      if explicitKey.Some? { return explicitKey; }
      var cfg := ReadConfig(persistMigrations);
      if cfg.None? { return None; }
      var slot := if mode.Some? then mode.value else cfg.value.mode;
      var names := SearchOrder(cfg.value, orgRead);
      for i := 0 to |names|
        invariant FirstKey(cfg.value.profiles, names, slot, now) == FirstKey(cfg.value.profiles, names[i..], slot, now)
      {
        assert names[i..][1..] == names[i + 1..];
        var entry := Slot(KeysOf(cfg.value.profiles, names[i]), slot);
        if entry.None? { continue; }
        if entry.value.expiresAt.Some? && entry.value.expiresAt.value <= now { continue; }
        return Some(entry.value.apiKey);
      }
      return None;
    }
  }

  // What a setter starts from.
  function ReadOr(files: Files, mode: Mode): StoredConfig {
    if Read(files).Some? then Read(files).value else StoredConfig(mode, None, [])
  }

  function KeySet(files: Files, mode: Mode, entry: KeyEntry): StoredConfig {
    var cfg := ReadOr(files, mode);
    var name := ActiveName(cfg.activeProject);
    cfg.(profiles := Put(cfg.profiles, name, WithSlot(KeysOf(cfg.profiles, name), mode, entry)))
  }

  /** Resolving. */

  function Names(profiles: seq<Profile>): seq<string> {
    seq(|profiles|, i requires 0 <= i < |profiles| => profiles[i].name)
  }

  // A list without repeats, each name where it first stands.
  function Once(names: seq<string>, seen: set<string>): (r: seq<string>)
    ensures forall n :: n in r <==> n in names && n !in seen
  {
    if names == [] then []
    else if names[0] in seen then Once(names[1..], seen)
    else [names[0]] + Once(names[1..], seen + {names[0]})
  }

  function SearchOrder(c: StoredConfig, orgRead: bool): seq<string> {
    var active := ActiveName(c.activeProject);
    if orgRead then Once([active, DEFAULT_PROFILE] + Names(c.profiles), {}) else [active]
  }

  predicate Live(entry: Option<KeyEntry>, now: int) {
    entry.Some? && (entry.value.expiresAt.Some? ==> entry.value.expiresAt.value > now)
  }

  function FirstKey(profiles: seq<Profile>, names: seq<string>, mode: Mode, now: int): Option<string> {
    if names == [] then None
    else
      var entry := Slot(KeysOf(profiles, names[0]), mode);
      if Live(entry, now) then Some(entry.value.apiKey) else FirstKey(profiles, names[1..], mode, now)
  }

  function Resolved(
      files: Files, explicitKey: Option<string>, orgRead: bool, mode: Option<Mode>, now: int): Option<string> {
    if explicitKey.Some? then explicitKey
    else
      match Read(files)
      case None => None
      case Some(c) => FirstKey(c.profiles, SearchOrder(c, orgRead), if mode.Some? then mode.value else c.mode, now)
  }

  /** Round trips. */

  lemma {:induction false} KeptTwice(profiles: seq<Profile>)
    ensures Kept(Kept(profiles)) == Kept(profiles)
  {
    if profiles != [] {
      KeptTwice(profiles[1..]);
      var rest := Kept(profiles[1..]);
      assert ([profiles[0]] + rest)[1..] == rest && [] + rest == rest;
    }
  }

  /** Reading back what was written gives the configuration without the profiles that hold no credential,
      and has nothing to migrate. */
  lemma ReadAfterWrite(c: StoredConfig)
    ensures Read(Written(c)) == Some(Tidied(c)) && !Rewrites(Written(c))
  {
    KeptTwice(c.profiles);
    assert Merged(Written(c)) == Kept(c.profiles);
  }

  lemma {:induction false} PutKeepsCredentials(profiles: seq<Profile>, name: string, keys: ProfileKeys)
    requires HasStoredCredential(keys) && Kept(profiles) == profiles
    ensures Kept(Put(profiles, name, keys)) == Put(profiles, name, keys)
  {
    if profiles != [] {
      FirstIsKept(profiles);
      if profiles[0].name == name {
        assert ([Profile(name, keys)] + profiles[1..])[1..] == profiles[1..];
      } else {
        PutKeepsCredentials(profiles[1..], name, keys);
        assert Put(profiles, name, keys)[1..] == Put(profiles[1..], name, keys);
      }
    }
  }

  lemma {:induction false} KeptIsShorter(profiles: seq<Profile>)
    ensures |Kept(profiles)| <= |profiles|
  {
    if profiles != [] { KeptIsShorter(profiles[1..]); }
  }

  lemma FirstIsKept(profiles: seq<Profile>)
    requires profiles != [] && Kept(profiles) == profiles
    ensures HasStoredCredential(profiles[0].keys) && Kept(profiles[1..]) == profiles[1..]
  {
    KeptIsShorter(profiles[1..]);
  }

  lemma {:induction false} SpreadKeepsCredentials(under: seq<Profile>, over: seq<Profile>)
    requires Kept(under) == under && Kept(over) == over
    ensures Kept(Spread(under, over)) == Spread(under, over)
    decreases |over|
  {
    if over != [] {
      FirstIsKept(over);
      PutKeepsCredentials(under, over[0].name, over[0].keys);
      SpreadKeepsCredentials(Put(under, over[0].name, over[0].keys), over[1..]);
    }
  }

  // Whatever is read holds only profiles with a credential.
  lemma ReadIsTidy(files: Files)
    ensures Kept(ProfilesOf(files)) == ProfilesOf(files)
  {
    KeptTwice(CredentialsOf(files).profiles);
    KeptTwice(ConfigOf(files).profiles);
    SpreadKeepsCredentials(Kept(CredentialsOf(files).profiles), Kept(ConfigOf(files).profiles));
    if Folds(files) { PutKeepsCredentials(Merged(files), ActiveOf(files), Legacy(files)); }
  }

  /** Migration is idempotent: a second read agrees with the first and writes nothing. */
  lemma MigrationIsIdempotent(files: Files)
    ensures Read(AfterRead(files)) == Read(files)
    ensures AfterRead(AfterRead(files)) == AfterRead(files)
  {
    if Rewrites(files) {
      ReadIsTidy(files);
      ReadAfterWrite(Read(files).value);
    }
  }

  /** Every key resolves alike before and after migration. */
  lemma MigrationKeepsResolution(files: Files, explicitKey: Option<string>, orgRead: bool, mode: Option<Mode>, now: int)
    ensures Resolved(AfterRead(files), explicitKey, orgRead, mode, now)
      == Resolved(files, explicitKey, orgRead, mode, now)
  {
    MigrationIsIdempotent(files);
  }

  lemma {:induction false} KeysAfterPut(profiles: seq<Profile>, name: string, keys: ProfileKeys, other: string)
    ensures KeysOf(Put(profiles, name, keys), other) == if other == name then keys else KeysOf(profiles, other)
  {
    if profiles != [] && profiles[0].name != name {
      KeysAfterPut(profiles[1..], name, keys, other);
      assert Put(profiles, name, keys)[1..] == Put(profiles[1..], name, keys);
    } else if profiles != [] {
      assert Put(profiles, name, keys)[1..] == profiles[1..];
    } else {
      assert Put(profiles, name, keys)[1..] == [];
    }
  }

  /** What folding costs: a read drops a stored management credential exactly when a legacy pair is
      folded into an active profile that held nothing else. Every other profile's keys are as stored. */
  lemma WhatAFoldDrops(files: Files, name: string)
    ensures var before, after := KeysOf(Merged(files), name), KeysOf(ProfilesOf(files), name);
      && (name != ActiveOf(files) || !Folds(files) ==> after == before)
      && (before.management.Some? && after.management.None? <==>
            name == ActiveOf(files) && HasKey(Legacy(files)) && before.management.Some? && !HasKey(before))
  {
    if Folds(files) { KeysAfterPut(Merged(files), ActiveOf(files), Legacy(files), name); }
  }

  lemma FoldCanDrop() returns (files: Files)
    ensures Read(files).Some? && KeysOf(Merged(files), DEFAULT_PROFILE).management.Some?
    ensures KeysOf(Read(files).value.profiles, DEFAULT_PROFILE).management.None?
  {
    var login := Profile(DEFAULT_PROFILE, NO_KEYS.(management := Some(KeyEntry("mk_1", None))));
    files := Files(Some(EMPTY.(flat := Some(KeyEntry("sk_1", None)))), Some(EMPTY.(profiles := [login])));
    assert Kept([login]) == [login];
    assert Merged(files) == [login];
    assert KeysOf([login], DEFAULT_PROFILE) == login.keys;
    KeysAfterPut(Merged(files), DEFAULT_PROFILE, Legacy(files), DEFAULT_PROFILE);
    ReadIsTidy(files);
    assert ProfilesOf(files) != [];
  }

  /** A key set for a mode is what a data lookup in that mode then resolves, and no other slot of any
      profile changes. */
  lemma SetKeyResolves(files: Files, mode: Mode, entry: KeyEntry, now: int)
    requires Live(Some(entry), now)
    ensures Resolved(Written(KeySet(files, mode, entry)), None, false, Some(mode), now) == Some(entry.apiKey)
    ensures Read(Written(KeySet(files, mode, entry))) == Some(KeySet(files, mode, entry))
    ensures var was := ReadOr(files, mode);
      forall n, m :: n != ActiveName(was.activeProject) || m != mode ==>
        Slot(KeysOf(KeySet(files, mode, entry).profiles, n), m) == Slot(KeysOf(was.profiles, n), m)
  {
    var c := KeySet(files, mode, entry);
    var was := ReadOr(files, mode);
    var name := ActiveName(was.activeProject);
    ReadAfterWrite(c);
    KeysAfterPut(was.profiles, name, WithSlot(KeysOf(was.profiles, name), mode, entry), name);
    ReadIsTidy(files);
    PutKeepsCredentials(was.profiles, name, WithSlot(KeysOf(was.profiles, name), mode, entry));
    assert SearchOrder(Tidied(c), false) == [name];
    forall n { KeysAfterPut(was.profiles, name, WithSlot(KeysOf(was.profiles, name), mode, entry), n); }
  }

  /** A data lookup uses the explicit key or the active profile's, and nothing else. */
  lemma DataUsesTheActiveProfile(files: Files, mode: Option<Mode>, now: int)
    requires Read(files).Some?
    ensures var c := Read(files).value;
      var entry := Slot(KeysOf(c.profiles, ActiveName(c.activeProject)), if mode.Some? then mode.value else c.mode);
      Resolved(files, None, false, mode, now) == if Live(entry, now) then Some(entry.value.apiKey) else None
  {
    var c := Read(files).value;
    var names := SearchOrder(c, false);
    assert names == [ActiveName(c.activeProject)] && names[1..] == [];
    assert FirstKey(c.profiles, names[1..], if mode.Some? then mode.value else c.mode, now) == None;
  }

  lemma {:induction false} FirstKeyFinds(profiles: seq<Profile>, names: seq<string>, mode: Mode, now: int)
    ensures var r := FirstKey(profiles, names, mode, now);
      && (r.Some? <==> exists n :: n in names && Live(Slot(KeysOf(profiles, n), mode), now))
      && (r.Some? ==> exists n :: n in names && Live(Slot(KeysOf(profiles, n), mode), now)
                                  && Slot(KeysOf(profiles, n), mode).value.apiKey == r.value)
  {
    if names != [] {
      FirstKeyFinds(profiles, names[1..], mode, now);
      assert names[0] in names && forall n :: n in names[1..] ==> n in names;
      assert forall n :: n in names ==> n == names[0] || n in names[1..];
    }
  }

  lemma {:induction false} NamesOfKeys(profiles: seq<Profile>, name: string)
    ensures HasStoredCredential(KeysOf(profiles, name)) ==> name in Names(profiles)
  {
    if profiles != [] {
      NamesOfKeys(profiles[1..], name);
      assert Names(profiles) == [profiles[0].name] + Names(profiles[1..]);
    }
  }

  /** An organisation-level read finds a stored key exactly when some profile has a live one for the mode. */
  lemma OrgReadFindsAnyKey(files: Files, mode: Option<Mode>, now: int)
    requires Read(files).Some?
    ensures var c := Read(files).value;
      var slot := if mode.Some? then mode.value else c.mode;
      Resolved(files, None, true, mode, now).Some? <==> exists n :: Live(Slot(KeysOf(c.profiles, n), slot), now)
  {
    var c := Read(files).value;
    var slot := if mode.Some? then mode.value else c.mode;
    FirstKeyFinds(c.profiles, SearchOrder(c, true), slot, now);
    forall n | Live(Slot(KeysOf(c.profiles, n), slot), now) ensures n in SearchOrder(c, true) {
      NamesOfKeys(c.profiles, n);
      assert n in [ActiveName(c.activeProject), DEFAULT_PROFILE] + Names(c.profiles);
    }
  }
}
