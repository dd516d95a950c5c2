/** What reading the credential files finds, slot by slot, and what each setter leaves to be read. */
module ConfigReads {
  import opened Wrappers
  import opened Config

  // A map names each profile once.
  ghost predicate NamedOnce(profiles: seq<Profile>) {
    forall i, j | 0 <= i < j < |profiles| :: profiles[i].name != profiles[j].name
  }

  ghost predicate IsMap(files: Files) {
    NamedOnce(ConfigOf(files).profiles) && NamedOnce(CredentialsOf(files).profiles)
  }

  ghost predicate Lists(profiles: seq<Profile>, name: string) {
    exists i :: 0 <= i < |profiles| && profiles[i].name == name
  }

  lemma NamedOnceRest(profiles: seq<Profile>)
    requires profiles != []
    ensures NamedOnce(profiles) <==> NamedOnce(profiles[1..]) && !Lists(profiles[1..], profiles[0].name)
  {
    var rest := profiles[1..];
    assert forall i :: 0 <= i < |rest| ==> rest[i] == profiles[i + 1];
    if NamedOnce(rest) && !Lists(rest, profiles[0].name) {
      forall i, j | 0 <= i < j < |profiles| ensures profiles[i].name != profiles[j].name {
        assert profiles[j] == rest[j - 1];
        if i > 0 { assert profiles[i] == rest[i - 1]; }
      }
    }
    if NamedOnce(profiles) {
      forall i | 0 <= i < |rest| ensures rest[i].name != profiles[0].name {}
    }
  }

  lemma ListsRest(profiles: seq<Profile>, name: string)
    requires profiles != []
    ensures Lists(profiles, name) <==> profiles[0].name == name || Lists(profiles[1..], name)
  {
    var rest := profiles[1..];
    assert forall i :: 0 <= i < |rest| ==> rest[i] == profiles[i + 1];
    if Lists(profiles, name) && profiles[0].name != name {
      var i :| 0 <= i < |profiles| && profiles[i].name == name;
      assert rest[i - 1].name == name;
    }
    if Lists(rest, name) {
      var i :| 0 <= i < |rest| && rest[i].name == name;
      assert profiles[i + 1].name == name;
    }
  }

  lemma {:induction false} Unlisted(profiles: seq<Profile>, name: string)
    requires !Lists(profiles, name)
    ensures KeysOf(profiles, name) == NO_KEYS
  {
    if profiles != [] {
      ListsRest(profiles, name);
      Unlisted(profiles[1..], name);
    }
  }

  lemma {:induction false} PutLists(profiles: seq<Profile>, name: string, keys: ProfileKeys, other: string)
    ensures Lists(Put(profiles, name, keys), other) <==> Lists(profiles, other) || other == name
  {
    var after := Put(profiles, name, keys);
    ListsRest(after, other);
    if profiles != [] {
      ListsRest(profiles, other);
      if profiles[0].name == name {
        assert after[1..] == profiles[1..];
      } else {
        assert after[1..] == Put(profiles[1..], name, keys);
        PutLists(profiles[1..], name, keys, other);
      }
    } else {
      assert after[1..] == [];
    }
  }

  lemma {:induction false} PutNamesOnce(profiles: seq<Profile>, name: string, keys: ProfileKeys)
    requires NamedOnce(profiles)
    ensures NamedOnce(Put(profiles, name, keys))
  {
    if profiles != [] {
      var after := Put(profiles, name, keys);
      NamedOnceRest(profiles);
      NamedOnceRest(after);
      if profiles[0].name == name {
        assert after[1..] == profiles[1..];
      } else {
        assert after[1..] == Put(profiles[1..], name, keys);
        PutNamesOnce(profiles[1..], name, keys);
        PutLists(profiles[1..], name, keys, profiles[0].name);
      }
    }
  }

  // What is left of a map is named once, and a profile's keys are there if it holds a credential.
  lemma {:induction false} KeptKeys(profiles: seq<Profile>, name: string)
    requires NamedOnce(profiles)
    ensures NamedOnce(Kept(profiles)) && (Lists(Kept(profiles), name) ==> Lists(profiles, name))
    ensures KeysOf(Kept(profiles), name) ==
      if HasStoredCredential(KeysOf(profiles, name)) then KeysOf(profiles, name) else NO_KEYS
  {
    if profiles != [] {
      var first, rest, kept := profiles[0], profiles[1..], Kept(profiles[1..]);
      NamedOnceRest(profiles);
      ListsRest(profiles, name);
      KeptKeys(rest, name);
      KeptKeys(rest, first.name);
      if HasStoredCredential(first.keys) {
        assert Kept(profiles) == [first] + kept && ([first] + kept)[1..] == kept;
        NamedOnceRest([first] + kept);
        ListsRest([first] + kept, name);
      } else {
        assert Kept(profiles) == kept;
        if name == first.name {
          Unlisted(rest, name);
        }
      }
    }
  }

  lemma {:induction false} SpreadKeys(under: seq<Profile>, over: seq<Profile>, name: string)
    requires NamedOnce(under) && NamedOnce(over)
    ensures NamedOnce(Spread(under, over))
    ensures KeysOf(Spread(under, over), name) == if Lists(over, name) then KeysOf(over, name) else KeysOf(under, name)
    decreases |over|
  {
    if over != [] {
      var first, rest := over[0], over[1..];
      NamedOnceRest(over);
      ListsRest(over, name);
      PutNamesOnce(under, first.name, first.keys);
      SpreadKeys(Put(under, first.name, first.keys), rest, name);
      KeysAfterPut(under, first.name, first.keys, name);
    }
  }

  lemma {:induction false} KeptListsCredentials(profiles: seq<Profile>, name: string)
    requires NamedOnce(profiles)
    ensures Lists(Kept(profiles), name) <==> HasStoredCredential(KeysOf(profiles, name))
  {
    if profiles != [] {
      var first, rest, kept := profiles[0], profiles[1..], Kept(profiles[1..]);
      NamedOnceRest(profiles);
      KeptListsCredentials(rest, name);
      if name == first.name {
        Unlisted(rest, name);
      }
      if HasStoredCredential(first.keys) {
        assert ([first] + kept)[1..] == kept;
        ListsRest([first] + kept, name);
      } else {
        assert Kept(profiles) == kept;
      }
    }
  }

  // What a profile holds across the two files: the settings file's if that holds anything.
  function StoredKeys(files: Files, name: string): ProfileKeys {
    var inConfig, inCredentials := KeysOf(ConfigOf(files).profiles, name), KeysOf(CredentialsOf(files).profiles, name);
    if inConfig.management.Some? || inConfig.sandbox.Some? || inConfig.production.Some? then inConfig
    else inCredentials
  }

  lemma MergedKeys(files: Files, name: string)
    requires IsMap(files)
    ensures KeysOf(Merged(files), name) == StoredKeys(files, name) && NamedOnce(Merged(files))
  {
    var inConfig, inCredentials := ConfigOf(files).profiles, CredentialsOf(files).profiles;
    KeptKeys(inConfig, name);
    KeptKeys(inCredentials, name);
    KeptListsCredentials(inConfig, name);
    SpreadKeys(Kept(inCredentials), Kept(inConfig), name);
  }

  // The key an older layout keeps at the top level of a file for a mode; the oldest one's is for the sandbox.
  function TopLevel(s: Stored, mode: Mode): Option<KeyEntry> {
    match mode
    case Production => s.production
    case Sandbox => if s.sandbox.None? && s.production.None? then s.flat else s.sandbox
  }

  predicate HoldsTopLevel(s: Stored) { s.sandbox.Some? || s.production.Some? || s.flat.Some? }

  /** Every slot of every profile, as it is read: the stored one, except that an active profile without a data
      key takes the keys older layouts keep at the top level, each in its own mode, the secrets file's first. */
  lemma WhatIsRead(files: Files, name: string, mode: Mode)
    requires IsMap(files) && Read(files).Some?
    ensures var found := Slot(KeysOf(Read(files).value.profiles, name), mode);
      var stored := StoredKeys(files, name);
      var inConfig, inCredentials := ConfigOf(files), CredentialsOf(files);
      if name == ActiveOf(files) && stored.sandbox.None? && stored.production.None?
      then found == Or(TopLevel(inCredentials, mode), TopLevel(inConfig, mode))
      else found == match mode case Sandbox => stored.sandbox case Production => stored.production
  {
    MergedKeys(files, name);
    MergedKeys(files, ActiveOf(files));
    if Folds(files) { KeysAfterPut(Merged(files), ActiveOf(files), Legacy(files), name); }
  }

  lemma {:induction false} NoneKept(profiles: seq<Profile>)
    ensures Kept(profiles) == [] <==> forall p | p in profiles :: !HasStoredCredential(p.keys)
  {
    if profiles != [] {
      NoneKept(profiles[1..]);
      assert forall p :: p in profiles <==> p == profiles[0] || p in profiles[1..];
    }
  }

  lemma {:induction false} SpreadOfNothing(under: seq<Profile>, over: seq<Profile>)
    ensures Spread(under, over) == [] <==> under == [] && over == []
    decreases |over|
  {
    if over != [] { SpreadOfNothing(Put(under, over[0].name, over[0].keys), over[1..]); }
  }

  lemma {:induction false} KeysAreListed(profiles: seq<Profile>, name: string)
    requires HasStoredCredential(KeysOf(profiles, name))
    ensures profiles != []
  {}

  /** Nothing is read exactly when neither file gives a mode or a credential in any layout. Otherwise the mode is
      the settings file's, else the secrets file's, else the sandbox; the project is the settings file's. */
  lemma WhenAnythingIsRead(files: Files)
    ensures var inConfig, inCredentials := ConfigOf(files), CredentialsOf(files);
      && (Read(files).None? <==>
            && inConfig.mode.None? && inCredentials.mode.None?
            && !HoldsTopLevel(inConfig) && !HoldsTopLevel(inCredentials)
            && (forall p | p in inConfig.profiles :: !HasStoredCredential(p.keys))
            && forall p | p in inCredentials.profiles :: !HasStoredCredential(p.keys))
      && (Read(files).Some? ==>
            && Read(files).value.activeProject == inConfig.activeProject
            && (inConfig.mode.Some? ==> Read(files).value.mode == inConfig.mode.value)
            && (inConfig.mode.None? && inCredentials.mode.Some? ==> Read(files).value.mode == inCredentials.mode.value)
            && (inConfig.mode.None? && inCredentials.mode.None? ==> Read(files).value.mode == Sandbox))
  {
    var inConfig, inCredentials := ConfigOf(files), CredentialsOf(files);
    ReadIsTidy(files);
    NoneKept(inConfig.profiles);
    NoneKept(inCredentials.profiles);
    SpreadOfNothing(Kept(inCredentials.profiles), Kept(inConfig.profiles));
    assert HasKey(Legacy(files)) <==> HoldsTopLevel(inConfig) || HoldsTopLevel(inCredentials);
    if HasKey(Legacy(files)) && !Folds(files) { KeysAreListed(Merged(files), ActiveOf(files)); }
    if Folds(files) { PutIsSomething(Merged(files), ActiveOf(files), Legacy(files)); }
  }

  lemma PutIsSomething(profiles: seq<Profile>, name: string, keys: ProfileKeys)
    ensures Put(profiles, name, keys) != []
  {}

  /** A read that may migrate rewrites exactly when it reads anything and finds a key at the top level of the
      settings file, or of the secrets file while the active profile has no data key. What it leaves has no key
      at the top level of the settings file, and the split files hold settings and secrets apart. */
  lemma WhenAReadMigrates(files: Files)
    requires IsMap(files)
    ensures var stored := StoredKeys(files, ActiveOf(files));
      AfterRead(files) == files ||
        HoldsTopLevel(ConfigOf(files))
        || (HoldsTopLevel(CredentialsOf(files)) && stored.sandbox.None? && stored.production.None?)
    ensures Read(files).Some? ==> !HoldsTopLevel(ConfigOf(AfterRead(files)))
    ensures var stored := StoredKeys(files, ActiveOf(files));
      HoldsTopLevel(CredentialsOf(files)) && stored.sandbox.None? && stored.production.None? ==>
        !HoldsTopLevel(CredentialsOf(AfterRead(files)))
    ensures AfterRead(files) != files ==>
      && ConfigOf(AfterRead(files)).profiles == [] && !HoldsTopLevel(CredentialsOf(AfterRead(files)))
      && CredentialsOf(AfterRead(files)).mode.None? && CredentialsOf(AfterRead(files)).activeProject.None?
  {
    WhenAnythingIsRead(files);
    MergedKeys(files, ActiveOf(files));
    assert HasKey(LegacyOf(ConfigOf(files))) <==> HoldsTopLevel(ConfigOf(files));
    assert HasKey(LegacyOf(CredentialsOf(files))) <==> HoldsTopLevel(CredentialsOf(files));
  }

  /** Whatever is written, the settings file holds no key and the secrets file nothing but profiles with one. */
  lemma SecretsStandApart(c: StoredConfig)
    ensures var files := Written(c);
      && ConfigOf(files) == Stored(Some(c.mode), c.activeProject, [], None, None, None)
      && CredentialsOf(files).mode.None? && CredentialsOf(files).activeProject.None?
      && !HoldsTopLevel(CredentialsOf(files))
      && forall p :: p in CredentialsOf(files).profiles <==>
           p in c.profiles && (p.keys.management.Some? || p.keys.sandbox.Some? || p.keys.production.Some?)
  {
    KeptHolds(c.profiles);
  }

  lemma {:induction false} KeptHolds(profiles: seq<Profile>)
    ensures forall p :: p in Kept(profiles) <==> p in profiles && HasStoredCredential(p.keys)
  {
    if profiles != [] {
      KeptHolds(profiles[1..]);
      assert forall p :: p in profiles <==> p == profiles[0] || p in profiles[1..];
    }
  }

  lemma ReadIsAMap(files: Files)
    requires IsMap(files)
    ensures NamedOnce(ReadOr(files, Sandbox).profiles) && NamedOnce(ReadOr(files, Production).profiles)
  {
    MergedKeys(files, "");
    if Folds(files) { PutNamesOnce(Merged(files), ActiveOf(files), Legacy(files)); }
  }

  /** Storing a project's keys makes its mode and project the current ones and its keys its profile's, and leaves
      every other profile as it was. */
  lemma ProfileKeysReadBack(
      files: Files, name: string, keys: ProfileKeys, mode: Mode, project: Option<Project>, other: string)
    requires IsMap(files)
    ensures var was := ReadOr(files, mode);
      var read := Read(Written(StoredConfig(mode, project, Put(was.profiles, name, keys))));
      && read.Some? && read.value.mode == mode && read.value.activeProject == project
      && (HasStoredCredential(keys) ==> KeysOf(read.value.profiles, name) == keys)
      && (!HasStoredCredential(keys) ==> KeysOf(read.value.profiles, name) == NO_KEYS)
      && (other != name ==> KeysOf(read.value.profiles, other) == KeysOf(was.profiles, other))
  {
    var was := ReadOr(files, mode);
    var all := Put(was.profiles, name, keys);
    ReadAfterWrite(StoredConfig(mode, project, all));
    ReadIsAMap(files);
    PutNamesOnce(was.profiles, name, keys);
    KeptKeys(all, name);
    KeptKeys(all, other);
    KeysAfterPut(was.profiles, name, keys, name);
    KeysAfterPut(was.profiles, name, keys, other);
    KeysOfTidy(files, mode, other);
  }

  // A profile that is read holds a credential or is none.
  lemma KeysOfTidy(files: Files, mode: Mode, name: string)
    requires IsMap(files)
    ensures var keys := KeysOf(ReadOr(files, mode).profiles, name);
      HasStoredCredential(keys) || keys == NO_KEYS
  {
    ReadIsTidy(files);
    ReadIsAMap(files);
    KeptKeys(ReadOr(files, mode).profiles, name);
  }

  /** Setting the mode or the project is read back, and changes nothing else that is read. */
  lemma SettingsReadBack(files: Files, mode: Mode, project: Option<Project>)
    ensures Read(Written(ReadOr(files, mode).(mode := mode))) == Some(ReadOr(files, mode).(mode := mode))
    ensures Read(Written(ReadOr(files, Sandbox).(activeProject := project)))
      == Some(ReadOr(files, Sandbox).(activeProject := project))
  {
    ReadIsTidy(files);
    ReadAfterWrite(ReadOr(files, mode).(mode := mode));
    ReadAfterWrite(ReadOr(files, Sandbox).(activeProject := project));
  }

  /** A key that resolves is the explicit one, or a stored one that has not expired, of the asked mode, of the
      active profile unless any of the organisation's will do. */
  lemma ResolvedIsStored(files: Files, explicitKey: Option<string>, orgRead: bool, mode: Option<Mode>, now: int)
    ensures explicitKey.Some? ==> Resolved(files, explicitKey, orgRead, mode, now) == explicitKey
    ensures explicitKey.None? && Resolved(files, explicitKey, orgRead, mode, now).Some? ==>
      && Read(files).Some?
      && var c := Read(files).value;
         exists name :: (orgRead || name == ActiveOf(files))
           && var entry := Slot(KeysOf(c.profiles, name), if mode.Some? then mode.value else c.mode);
              && entry.Some? && Some(entry.value.apiKey) == Resolved(files, explicitKey, orgRead, mode, now)
              && (entry.value.expiresAt.None? || now < entry.value.expiresAt.value)
  {
    if explicitKey.None? && Read(files).Some? {
      var c := Read(files).value;
      FirstKeyFinds(c.profiles, SearchOrder(c, orgRead), if mode.Some? then mode.value else c.mode, now);
    }
  }

  /** An organisation-level read prefers the active profile's key, then the default profile's. */
  lemma OrgReadPrefers(files: Files, mode: Option<Mode>, now: int)
    requires Read(files).Some?
    ensures var c := Read(files).value;
      var slot := if mode.Some? then mode.value else c.mode;
      var own := Slot(KeysOf(c.profiles, ActiveOf(files)), slot);
      var common := Slot(KeysOf(c.profiles, DEFAULT_PROFILE), slot);
      && (Live(own, now) ==> Resolved(files, None, true, mode, now) == Some(own.value.apiKey))
      && (!Live(own, now) && Live(common, now) ==> Resolved(files, None, true, mode, now) == Some(common.value.apiKey))
  {
    var c := Read(files).value;
    var slot := if mode.Some? then mode.value else c.mode;
    var active, names := ActiveOf(files), [ActiveOf(files), DEFAULT_PROFILE] + Names(c.profiles);
    assert names[0] == active && names[1..] == [DEFAULT_PROFILE] + Names(c.profiles);
    var order := SearchOrder(c, true);
    assert order == [active] + Once(names[1..], {} + {active});
    assert order[1..] == Once(names[1..], {} + {active});
    if active != DEFAULT_PROFILE {
      var rest := names[1..];
      assert rest[0] == DEFAULT_PROFILE;
      assert order[1..][0] == DEFAULT_PROFILE;
      var common := Slot(KeysOf(c.profiles, DEFAULT_PROFILE), slot);
      if Live(common, now) { assert FirstKey(c.profiles, order[1..], slot, now) == Some(common.value.apiKey); }
    }
  }
}
