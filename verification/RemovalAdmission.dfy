/** When a removal's prepare and commit go through, what an abort and a release do, and what each refusal says. */
module RemovalAdmission {
  import opened Wrappers
  import opened Tree
  import opened Paths
  import opened StoreModel
  import opened FileRemoval
  import opened RemovalRuns
  import opened RemovalProgress

  // The deadline lies ahead, by at most a minute.
  predicate Timely(c: Call, now: int) {
    c.expiresAt.Some? && now < c.expiresAt.value <= now + 60000
  }

  // The entry's file is published as the entry says, under directories.
  ghost predicate Described(files: Files, e: Entry, sha256: seq<byte> -> string) {
    && (forall d | d != [] && d < Split(e.path) :: IsDir(Lookup(files, d)))
    && exists bytes :: |bytes| == e.size && sha256(bytes) == e.sha256
         && Split(e.path) in files && files[Split(e.path)] == Row(Some(File(bytes, e.mode)), e.revision)
  }

  ghost predicate HasGrant(gs: seq<Grant>, e: Entry) {
    exists g :: g in gs && g.resource == "file:" + e.path
  }

  ghost predicate HasEntry(entries: seq<Entry>, g: Grant) {
    exists e :: e in entries && g.resource == "file:" + e.path
  }

  // One grant for each entry and none besides.
  ghost predicate NamesEach(gs: seq<Grant>, entries: seq<Entry>) {
    && |gs| == |entries|
    && (forall e | e in entries :: HasGrant(gs, e))
    && forall g | g in gs :: HasEntry(entries, g)
  }

  // The very lease is held already.
  predicate Renews(leases: map<string, Lease>, owner: string, g: Grant, now: int) {
    && g.resource in leases && leases[g.resource].active && leases[g.resource].expires > now
    && leases[g.resource].owner == owner
    && leases[g.resource].claim == g.claim && leases[g.resource].fence == g.fence
  }

  // A grant that still runs, newer than any lease of its resource or a renewal of it.
  predicate Fresh(leases: map<string, Lease>, owner: string, g: Grant, now: int) {
    && g.fence > 0 && g.expires > now
    && (g.resource !in leases || leases[g.resource].fence < g.fence || Renews(leases, owner, g, now))
  }

  ghost predicate Granted(db: Db, c: Call, now: int) {
    && c.grants.Some? && NamesEach(c.grants.value, c.removal.entries)
    && forall g | g in c.grants.value :: Fresh(db.leases, c.owner, g, now)
  }

  ghost predicate AllDescribed(db: Db, c: Call, env: Env) {
    forall e | e in c.removal.entries :: Described(db.files, e, env.sha256)
  }

  ghost predicate NothingElseRuns(db: Db, op: Op) {
    forall o | o != op :: !IsRunning(db, o)
  }

  lemma MatchesIsDescribed(files: Files, e: Entry, sha256: seq<byte> -> string)
    ensures EntryMatches(files, e, sha256) <==> Described(files, e, sha256)
  {
    var p := Split(e.path);
    if EntryMatches(files, e, sha256) {
      forall d | d != [] && d < p ensures IsDir(Lookup(files, d)) {
        assert d == p[..|d|];
      }
      assert files[p] == Row(Some(File(files[p].node.value.bytes, e.mode)), e.revision);
    }
    if Described(files, e, sha256) {
      forall n | 1 <= n < |p| ensures IsDir(Lookup(files, p[..n])) {
        assert p[..n] < p;
      }
    }
  }

  lemma {:induction false} ResourcesCount(entries: seq<Entry>)
    requires forall i, j | 0 <= i < j < |entries| :: entries[i].path != entries[j].path
    ensures |ResourcesOf(entries)| == |entries|
  {
    if entries == [] {
      assert ResourcesOf(entries) == {};
    } else {
      var init, last := entries[..|entries| - 1], entries[|entries| - 1];
      ResourcesCount(init);
      assert entries == init + [last];
      assert ResourcesOf(entries) == ResourcesOf(init) + {Resource(last)};
      forall e | e in init ensures Resource(e) != Resource(last) {
        assert Resource(e)[5..] == e.path && Resource(last)[5..] == last.path;
      }
    }
  }

  lemma NamedGrant(gs: seq<Grant>, e: Entry)
    ensures Resource(e) in Named(gs) <==> HasGrant(gs, e)
  {}

  lemma NamedEntry(entries: seq<Entry>, g: Grant)
    ensures g.resource in ResourcesOf(entries) <==> HasEntry(entries, g)
  {}

  lemma NamesEachIsSameNames(r: Removal, gs: seq<Grant>)
    requires Checked(r)
    ensures NamesEach(gs, r.entries) <==> SameNames(gs, r.entries)
  {
    ResourcesCount(r.entries);
    forall e ensures Resource(e) in Named(gs) <==> HasGrant(gs, e) { NamedGrant(gs, e); }
    forall g: Grant ensures g.resource in ResourcesOf(r.entries) <==> HasEntry(r.entries, g) {
      NamedEntry(r.entries, g);
    }
    SubsetBothWays(gs, r.entries);
  }

  lemma SubsetBothWays(gs: seq<Grant>, entries: seq<Entry>)
    ensures Named(gs) <= ResourcesOf(entries) <==> forall g | g in gs :: g.resource in ResourcesOf(entries)
    ensures ResourcesOf(entries) <= Named(gs) <==> forall e | e in entries :: Resource(e) in Named(gs)
  {
    if forall e | e in entries :: Resource(e) in Named(gs) {
      forall n | n in ResourcesOf(entries) ensures n in Named(gs) {}
    }
    if ResourcesOf(entries) <= Named(gs) {
      forall e | e in entries ensures Resource(e) in Named(gs) {
        assert Resource(e) in ResourcesOf(entries);
      }
    }
    if Named(gs) <= ResourcesOf(entries) {
      forall g | g in gs ensures g.resource in ResourcesOf(entries) {
        assert g.resource in Named(gs);
      }
    }
  }

  // What installing leaves: each grant's own lease, and every other lease as it was.
  ghost predicate LeasedAt(
      leases: map<string, Lease>, after: map<string, Lease>, owner: string, gs: seq<Grant>, r: string)
  {
    && (forall g | g in gs && g.resource == r ::
          r in after && after[r] == Lease(owner, g.claim, g.fence, g.expires, true))
    && ((forall g | g in gs :: g.resource != r) ==>
          (r in after <==> r in leases) && (r in leases ==> after[r] == leases[r]))
  }

  lemma InstallOne(leases: map<string, Lease>, owner: string, g: Grant, now: int)
    ensures Install(leases, owner, g, now).Ok? <==> Fresh(leases, owner, g, now)
    ensures Install(leases, owner, g, now).Ok? ==>
      Install(leases, owner, g, now).value == leases[g.resource := Lease(owner, g.claim, g.fence, g.expires, true)]
  {}

  /** Grants for distinct resources install exactly when each is fresh by itself; each then is the lease of its
      resource, and no other lease moves. */
  lemma {:induction false} InstallsExactlyFresh(leases: map<string, Lease>, owner: string, gs: seq<Grant>, now: int)
    requires forall i, j | 0 <= i < j < |gs| :: gs[i].resource != gs[j].resource
    ensures InstallAll(leases, owner, gs, now).Ok? <==> forall g | g in gs :: Fresh(leases, owner, g, now)
    ensures InstallAll(leases, owner, gs, now).Ok? ==>
      forall r :: LeasedAt(leases, InstallAll(leases, owner, gs, now).value, owner, gs, r)
  {
    if gs != [] {
      var init, last := gs[..|gs| - 1], gs[|gs| - 1];
      assert forall g :: g in gs <==> g in init || g == last;
      InstallsExactlyFresh(leases, owner, init, now);
      forall g | g in init ensures g.resource != last.resource {
        var i :| 0 <= i < |init| && init[i] == g;
        assert gs[i] == g;
      }
      var before := InstallAll(leases, owner, init, now);
      if before.Ok? {
        assert LeasedAt(leases, before.value, owner, init, last.resource);
        assert Fresh(before.value, owner, last, now) <==> Fresh(leases, owner, last, now);
        InstallOne(before.value, owner, last, now);
        if Fresh(leases, owner, last, now) {
          var after := InstallAll(leases, owner, gs, now).value;
          forall r ensures LeasedAt(leases, after, owner, gs, r) {
            assert LeasedAt(leases, before.value, owner, init, r);
          }
        }
      }
    }
  }

  /** The checks a prepare and a commit share. */
  ghost predicate Cleared(db: Db, c: Call, env: Env) {
    && Timely(c, env.now) && NothingElseRuns(db, c.removal.operationId) && !env.profileBusy
    && Granted(db, c, env.now) && AllDescribed(db, c, env)
  }

  lemma GrantsInstall(db: Db, c: Call, now: int)
    requires Checked(c.removal) && c.grants.Some?
    ensures Granted(db, c, now) <==>
      SameNames(c.grants.value, c.removal.entries) && InstallAll(db.leases, c.owner, c.grants.value, now).Ok?
  {
    var gs := c.grants.value;
    NamesEachIsSameNames(c.removal, gs);
    if SameNames(gs, c.removal.entries) {
        NamesAreDistinct(gs);
      InstallsExactlyFresh(db.leases, c.owner, gs, now);
    }
  }

  lemma EntriesMatch(db: Db, c: Call, env: Env)
    ensures AllDescribed(db, c, env) <==> AllMatch(db.files, c.removal.entries, env.sha256)
  {
    forall e ensures EntryMatches(db.files, e, env.sha256) <==> Described(db.files, e, env.sha256) {
      MatchesIsDescribed(db.files, e, env.sha256);
    }
  }

  // The guard's questions, as it asks them.
  lemma GuardAsks(db: Db, c: Call, env: Env)
    requires c.phase == Prepare || c.phase == Commit
    requires if c.phase == Prepare then c.removal.operationId !in db.ops
             else c.removal.operationId in db.ops && db.fence == Some(c.removal.operationId)
    ensures Guard(db, c, env).Ok? <==>
      && Timely(c, env.now) && !OtherRunning(db, c.removal.operationId) && !env.profileBusy
      && c.grants.Some? && SameNames(c.grants.value, c.removal.entries)
      && InstallAll(db.leases, c.owner, c.grants.value, env.now).Ok?
      && AllMatch(db.files, c.removal.entries, env.sha256)
  {}

  lemma AloneIsAlone(db: Db, op: Op)
    ensures OtherRunning(db, op) <==> !NothingElseRuns(db, op)
  {
    if !NothingElseRuns(db, op) {
      var o :| o != op && IsRunning(db, o);
      assert o in db.ops;
    }
    if OtherRunning(db, op) {
      var o :| o in db.ops && o != op && db.ops[o].status == Running;
      assert IsRunning(db, o);
    }
  }

  lemma GuardIsCleared(db: Db, c: Call, env: Env)
    requires Checked(c.removal) && (c.phase == Prepare || c.phase == Commit)
    requires if c.phase == Prepare then c.removal.operationId !in db.ops
             else c.removal.operationId in db.ops && db.fence == Some(c.removal.operationId)
    ensures Guard(db, c, env).Ok? <==> Cleared(db, c, env)
  {
    GuardAsks(db, c, env);
    AloneIsAlone(db, c.removal.operationId);
    if c.grants.Some? { GrantsInstall(db, c, env.now); }
    EntriesMatch(db, c, env);
  }

  // A prepare of a new id enters its guard, and then asks only whether anything is staged.
  lemma PrepareEnters(db: Db, c: Call, env: Env)
    requires c.phase == Prepare
    ensures Exec(db, c, env).0 == Prepared <==>
      && c.removal.operationId !in db.ops && (db.fence.None? || db.fence == Some(c.removal.operationId))
      && Guard(db, c, env).Ok? && !AnyStaged(db)
  {}

  /** A prepare is admitted exactly when it is timely, new, unfenced and alone, with nothing staged, one fresh
      grant for each entry, and every entry's file published just as it says. */
  lemma WhenPrepared(db: Db, c: Call, env: Env)
    requires Checked(c.removal) && c.phase == Prepare
    ensures Exec(db, c, env).0 == Prepared <==>
      && c.removal.operationId !in db.ops && (db.fence.None? || db.fence == Some(c.removal.operationId))
      && (forall o | o in db.staging :: db.staging[o] == map[])
      && Cleared(db, c, env)
  {
    PrepareEnters(db, c, env);
    if c.removal.operationId !in db.ops { GuardIsCleared(db, c, env); }
  }

  /** A commit of a running removal applies exactly when it comes from the caller that prepared it, is timely to
      the end, finds what was captured still published and meets the same checks again. */
  lemma WhenCommitted(db: Db, c: Call, env: Env)
    requires RemovalInv(db) && Checked(c.removal) && c.phase == Commit && IsRunning(db, c.removal.operationId)
    ensures !Exec(db, c, env).0.Refused? <==>
      var op := c.removal.operationId;
      && db.ops[op].owner == c.owner && db.ops[op].intent == SourceRemoval(c.removal)
      && Current(db, op) && !env.late
      && Cleared(db, c, env)
  {
    assert OnRecordAt(db, c.removal.operationId);
    if !Exec(db, c, env).0.Refused? {
      CommitIsReached(db, c, env);
      GuardIsCleared(db, c, env);
      CommitNeeds(db, c, env);
    } else if SameCaller(db, c) && Current(db, c.removal.operationId) && !env.late && Cleared(db, c, env) {
      GuardIsCleared(db, c, env);
      CurrentCommitPublishes(db, c, env);
    }
  }

  lemma CommitNeeds(db: Db, c: Call, env: Env)
    requires c.phase == Commit && IsRunning(db, c.removal.operationId) && Guard(db, c, env).Ok?
    requires !CommitStep(db.(leases := Guard(db, c, env).value), c, env).0.Refused?
    ensures Current(db, c.removal.operationId) && !env.late
  {
    var leased := db.(leases := Guard(db, c, env).value);
    assert Current(leased, c.removal.operationId) <==> Current(db, c.removal.operationId);
  }

  /** What a prepare and a commit that go through leave of the leases: each grant's own, every other as it was. */
  lemma GrantsAreLeased(db: Db, c: Call, env: Env, r: string)
    requires RemovalInv(db) && Checked(c.removal)
    requires Exec(db, c, env).0 == Prepared
      || (c.phase == Commit && IsRunning(db, c.removal.operationId) && !Exec(db, c, env).0.Refused?)
    ensures c.grants.Some?
    ensures LeasedAt(db.leases, Exec(db, c, env).1.leases, c.owner, c.grants.value, r)
  {
    if c.phase == Commit { CommitIsReached(db, c, env); } else { PrepareEnters(db, c, env); }
    var guarded := Guard(db, c, env);
    GuardAsks(db, c, env);
    NamesAreDistinct(c.grants.value);
    InstallsExactlyFresh(db.leases, c.owner, c.grants.value, env.now);
    GuardLeases(db, c, env);
    if c.phase == Commit {
      CommitKeepsLeases(db.(leases := guarded.value), c, env);
    } else {
      PrepareKeepsLeases(db.(leases := guarded.value), c);
    }
  }

  lemma GuardLeases(db: Db, c: Call, env: Env)
    requires Guard(db, c, env).Ok?
    ensures c.grants.Some? && InstallAll(db.leases, c.owner, c.grants.value, env.now) == Guard(db, c, env)
  {}

  lemma CommitKeepsLeases(db: Db, c: Call, env: Env)
    requires c.removal.operationId in db.ops && c.grants.Some?
    ensures CommitStep(db, c, env).1.leases == db.leases
  {}

  lemma PrepareKeepsLeases(db: Db, c: Call)
    ensures PrepareStep(db, c).1.leases == db.leases
  {}

  /** Refusals, aborts and releases. */

  ghost predicate OwnRecord(db: Db, c: Call) {
    c.removal.operationId in db.ops ==>
      db.ops[c.removal.operationId].owner == c.owner
      && db.ops[c.removal.operationId].intent == SourceRemoval(c.removal)
  }

  // Some grant has run out, or never ran.
  ghost predicate SomeSpent(c: Call, now: int) {
    c.grants.Some? && exists g :: g in c.grants.value && (g.fence <= 0 || g.expires <= now)
  }

  predicate Overtaken(leases: map<string, Lease>, owner: string, g: Grant, now: int) {
    g.resource in leases && g.fence <= leases[g.resource].fence && !Renews(leases, owner, g, now)
  }

  // Some grant is older than the lease its resource has, or as old and not the same.
  ghost predicate SomeOvertaken(db: Db, c: Call, now: int) {
    c.grants.Some? && exists g :: g in c.grants.value && Overtaken(db.leases, c.owner, g, now)
  }

  // What each reason says of the tables and the message.
  ghost predicate IsSo(reason: Reason, db: Db, c: Call, env: Env) {
    var op := c.removal.operationId;
    match reason
    case IdempotencyConflict => !OwnRecord(db, c)
    case AdapterBusy =>
      || (db.fence.Some? && db.fence.value != op)
      || ((c.phase == Prepare || c.phase == Commit) && (!NothingElseRuns(db, op) || env.profileBusy))
      || (c.phase == Prepare && exists o :: o in db.staging && db.staging[o] != map[])
    case OperationClosed =>
      || (c.phase == Release && (op !in db.ops || IsRunning(db, op)))
      || (c.phase == Prepare && op in db.ops)
      || (c.phase == Commit && op !in db.ops)
    case PermissionDenied => !Timely(c, env.now) || (c.phase == Commit && env.late)
    case ClaimRequired => c.grants.None? || !NamesEach(c.grants.value, c.removal.entries)
    case ClaimLost => SomeSpent(c, env.now)
    case FenceTokenStale => SomeOvertaken(db, c, env.now)
    case StaleContext => !AllDescribed(db, c, env) || (c.phase == Commit && !Current(db, op))
  }

  lemma {:induction false} InstallRefusalIsSo(db: Db, c: Call, env: Env, n: nat)
    requires c.grants.Some? && n <= |c.grants.value|
    requires forall i, j | 0 <= i < j < |c.grants.value| :: c.grants.value[i].resource != c.grants.value[j].resource
    requires InstallAll(db.leases, c.owner, c.grants.value[..n], env.now).Err?
    ensures IsSo(InstallAll(db.leases, c.owner, c.grants.value[..n], env.now).error, db, c, env)
  {
    if n > 0 {
      var gs, init, last := c.grants.value[..n], c.grants.value[..n - 1], c.grants.value[n - 1];
      assert gs[..n - 1] == init && gs[n - 1] == last;
      var before := InstallAll(db.leases, c.owner, init, env.now);
      if before.Err? {
        InstallRefusalIsSo(db, c, env, n - 1);
      } else {
        InstallsExactlyFresh(db.leases, c.owner, init, env.now);
        assert LeasedAt(db.leases, before.value, c.owner, init, last.resource);
        assert last in c.grants.value;
      }
    }
  }

  // A refused guard, reason by reason.
  lemma GuardRefuses(db: Db, c: Call, env: Env)
    requires c.phase == Prepare || c.phase == Commit
    requires Guard(db, c, env).Err?
    ensures match Guard(db, c, env).error
      case PermissionDenied => !Timely(c, env.now)
      case OperationClosed =>
        if c.phase == Prepare then c.removal.operationId in db.ops
        else c.removal.operationId !in db.ops || db.fence != Some(c.removal.operationId)
      case AdapterBusy => OtherRunning(db, c.removal.operationId) || env.profileBusy
      case ClaimRequired => c.grants.None? || !SameNames(c.grants.value, c.removal.entries)
      case StaleContext => !AllMatch(db.files, c.removal.entries, env.sha256)
      case error =>
        && c.grants.Some? && SameNames(c.grants.value, c.removal.entries)
        && InstallAll(db.leases, c.owner, c.grants.value, env.now) == Err(error)
  {
    if c.grants.Some? { InstallReasons(db.leases, c.owner, c.grants.value, env.now); }
  }

  lemma {:induction false} InstallReasons(leases: map<string, Lease>, owner: string, gs: seq<Grant>, now: int)
    ensures InstallAll(leases, owner, gs, now).Err? ==>
      InstallAll(leases, owner, gs, now).error in {ClaimLost, FenceTokenStale}
  {
    if gs != [] { InstallReasons(leases, owner, gs[..|gs| - 1], now); }
  }

  lemma GrantRefusalIsSo(db: Db, c: Call, env: Env)
    requires Checked(c.removal) && c.grants.Some? && SameNames(c.grants.value, c.removal.entries)
    requires InstallAll(db.leases, c.owner, c.grants.value, env.now).Err?
    ensures IsSo(InstallAll(db.leases, c.owner, c.grants.value, env.now).error, db, c, env)
  {
    ResourcesCount(c.removal.entries);
    NamesAreDistinct(c.grants.value);
    assert c.grants.value[..|c.grants.value|] == c.grants.value;
    InstallRefusalIsSo(db, c, env, |c.grants.value|);
  }

  lemma GuardRefusalIsSo(db: Db, c: Call, env: Env)
    requires RemovalInv(db) && Checked(c.removal) && OwnRecord(db, c)
    requires c.phase == Prepare || c.phase == Commit
    requires c.removal.operationId in db.ops ==> IsRunning(db, c.removal.operationId)
    requires Guard(db, c, env).Err?
    ensures IsSo(Guard(db, c, env).error, db, c, env)
  {
    GuardRefuses(db, c, env);
    match Guard(db, c, env).error
    case PermissionDenied =>
    case OperationClosed => assert OnRecordAt(db, c.removal.operationId);
    case AdapterBusy => AloneIsAlone(db, c.removal.operationId);
    case ClaimRequired => if c.grants.Some? { NamesEachIsSameNames(c.removal, c.grants.value); }
    case StaleContext => EntriesMatch(db, c, env);
    case error => GrantRefusalIsSo(db, c, env);
  }

  // A commit step that is refused past its guard.
  lemma CommitRefuses(db: Db, c: Call, env: Env)
    requires RemovalInv(db) && Checked(c.removal) && IsRunning(db, c.removal.operationId) && c.grants.Some?
    requires db.ops[c.removal.operationId].intent.SourceRemoval?
    requires AllMatch(db.files, c.removal.entries, env.sha256)
    ensures !Current(db, c.removal.operationId) ==> CommitStep(db, c, env).0 == Refused(StaleContext)
    ensures Current(db, c.removal.operationId) && env.late ==> CommitStep(db, c, env).0 == Refused(PermissionDenied)
  {
    assert OnRecordAt(db, c.removal.operationId);
    if Current(db, c.removal.operationId) { CommitStages(db, c, env); }
  }

  lemma CommitRefusalIsSo(db: Db, c: Call, env: Env)
    requires RemovalInv(db) && Checked(c.removal) && c.phase == Commit && OwnRecord(db, c)
    requires IsRunning(db, c.removal.operationId) && Guard(db, c, env).Ok?
    requires CommitStep(db.(leases := Guard(db, c, env).value), c, env).0.Refused?
    ensures IsSo(CommitStep(db.(leases := Guard(db, c, env).value), c, env).0.reason, db, c, env)
  {
    var leased := db.(leases := Guard(db, c, env).value);
    assert Current(leased, c.removal.operationId) <==> Current(db, c.removal.operationId);
    LeasesKeepInv(db, leased.leases);
    CommitRefuses(leased, c, env);
    if Current(db, c.removal.operationId) && !env.late {
      var other := LeasedCommit(db, c, env);
    }
  }

  // Where a refusal comes from.
  lemma RefusedBy(db: Db, c: Call, env: Env)
    requires (c.phase == Prepare || c.phase == Commit) && OwnRecord(db, c)
    requires db.fence.None? || db.fence.value == c.removal.operationId
    requires Exec(db, c, env).0.Refused?
    ensures c.removal.operationId in db.ops ==> IsRunning(db, c.removal.operationId)
    ensures var guarded := Guard(db, c, env);
      Exec(db, c, env).0 ==
        if guarded.Err? then Refused(guarded.error)
        else if c.phase == Prepare then Refused(AdapterBusy)
        else CommitStep(db.(leases := guarded.value), c, env).0
    ensures Guard(db, c, env).Ok? && c.phase == Prepare ==> AnyStaged(db)
  {}

  /** A refused message leaves the tables as they were, and the reason it is given is so. */
  lemma RefusalIsSo(db: Db, c: Call, env: Env)
    requires RemovalInv(db) && Checked(c.removal) && Exec(db, c, env).0.Refused?
    ensures Exec(db, c, env).1 == db
    ensures IsSo(Exec(db, c, env).0.reason, db, c, env)
  {
    var op := c.removal.operationId;
    if (c.phase == Prepare || c.phase == Commit) && OwnRecord(db, c) && (db.fence.None? || db.fence.value == op) {
      RefusedBy(db, c, env);
      if Guard(db, c, env).Err? {
        GuardRefusalIsSo(db, c, env);
      } else if c.phase == Commit {
        CommitRefusalIsSo(db, c, env);
      }
    }
  }

  /** The id of someone else's request, or of another request, answers nothing in any phase. */
  lemma OthersAreTurnedAway(db: Db, c: Call, env: Env)
    requires RemovalInv(db) && Checked(c.removal)
    ensures !OwnRecord(db, c) <==> Exec(db, c, env).0 == Refused(IdempotencyConflict)
    ensures !OwnRecord(db, c) ==> Exec(db, c, env).1 == db
  {
    if Exec(db, c, env).0.Refused? { RefusalIsSo(db, c, env); }
  }

  // An abort of an id that has an outcome.
  lemma AbortOfSettled(db: Db, c: Call)
    requires RemovalInv(db) && c.removal.operationId in db.ops && !IsRunning(db, c.removal.operationId)
    ensures AbortStep(db, c) == (Answered(db.ops[c.removal.operationId].receipt), db)
    ensures db.ops[c.removal.operationId].receipt.Some?
  {
    assert OnRecordAt(db, c.removal.operationId);
  }

  // An abort of a running or a new id.
  lemma AbortRejects(db: Db, c: Call)
    requires RemovalInv(db) && (c.removal.operationId in db.ops ==> IsRunning(db, c.removal.operationId))
    requires OwnRecord(db, c)
    ensures var (reply, after) := AbortStep(db, c);
      var op := c.removal.operationId;
      && op in after.ops && after.ops[op].status == Rejected && after.ops[op].receipt.Some?
      && reply == Answered(after.ops[op].receipt) && after.files == db.files
      && after.ops[op].owner == c.owner && after.ops[op].intent == SourceRemoval(c.removal)
      && after.fence == (if op in db.ops then db.fence else Some(op))
      && after.ops[op].receipt.value.resources == {} && after.ops[op].receipt.value.code == "permission_denied"
      && after.ops[op].receipt.value.observed == (if op in db.ops then DepsOf(db, op) else map[])
      && after.ops[op].receipt.value.bound == Some(Bound(c.removal.digest, c.removal.principal))
  {
    assert OnRecordAt(db, c.removal.operationId);
  }

  /** An abort that nobody else's fence stops always answers with a receipt: the outcome on record, or else a
      rejection that names no file and attests what was captured. A new id takes the fence with it. */
  lemma AbortSettles(db: Db, c: Call, env: Env)
    requires RemovalInv(db) && c.phase == Abort && OwnRecord(db, c)
    requires db.fence.None? || db.fence.value == c.removal.operationId
    ensures var (reply, after) := Exec(db, c, env);
      var op := c.removal.operationId;
      && op in after.ops && after.ops[op].status != Running && after.ops[op].receipt.Some?
      && reply == Answered(after.ops[op].receipt) && after.files == db.files
      && after.ops[op].owner == c.owner && after.ops[op].intent == SourceRemoval(c.removal)
      && (op in db.ops && db.ops[op].status != Running ==> after == db)
      && (op in db.ops ==> after.fence == db.fence) && (op !in db.ops ==> after.fence == Some(op))
      && (op !in db.ops || IsRunning(db, op) ==>
            && after.ops[op].status == Rejected && after.ops[op].receipt.value.resources == {}
            && after.ops[op].receipt.value.code == "permission_denied"
            && after.ops[op].receipt.value.observed == (if op in db.ops then DepsOf(db, op) else map[])
            && after.ops[op].receipt.value.bound == Some(Bound(c.removal.digest, c.removal.principal)))
  {
    if c.removal.operationId in db.ops && !IsRunning(db, c.removal.operationId) {
      AbortOfSettled(db, c);
    } else {
      AbortRejects(db, c);
    }
    assert Exec(db, c, env) == AbortStep(db, c);
  }

  /** A release answers exactly for a settled id under no other fence; all it does is lift its own. */
  lemma WhenReleased(db: Db, c: Call, env: Env)
    requires RemovalInv(db) && c.phase == Release
    ensures Exec(db, c, env).0 == Released <==>
      && c.removal.operationId in db.ops && OwnRecord(db, c) && !IsRunning(db, c.removal.operationId)
      && (db.fence.None? || db.fence.value == c.removal.operationId)
    ensures Exec(db, c, env).0 == Released ==> Exec(db, c, env).1 == db.(fence := None)
  {}

  /** An inspection changes nothing and reports the record and the fence. */
  lemma InspectReports(db: Db, c: Call, env: Env)
    requires RemovalInv(db) && c.phase == Inspect && OwnRecord(db, c)
    ensures var (reply, after) := Exec(db, c, env);
      && after == db && reply.Inspected? && reply.fenced == db.fence
      && (reply.status.None? <==> c.removal.operationId !in db.ops)
      && (reply.status == Some(Running) <==> IsRunning(db, c.removal.operationId))
      && (reply.receipt.Some? <==> c.removal.operationId in db.ops && !IsRunning(db, c.removal.operationId))
      && (reply.receipt.Some? ==> db.ops[c.removal.operationId].receipt == reply.receipt)
      && (reply.status.Some? ==> db.ops[c.removal.operationId].status == reply.status.value)
  {
    assert OnRecordAt(db, c.removal.operationId);
  }
}
