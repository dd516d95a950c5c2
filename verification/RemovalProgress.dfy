/** A prepared removal that nobody disturbs can be committed. */
module RemovalProgress {
  import opened Wrappers
  import opened Tree
  import opened Paths
  import opened StoreModel
  import opened Publication
  import opened Drafts
  import opened FileRemoval
  import opened RemovalRuns

  lemma {:induction false} NamesFit(gs: seq<Grant>)
    ensures |Named(gs)| <= |gs|
  {
    if gs == [] {
      assert Named(gs) == {};
    } else {
      var init, last := gs[..|gs| - 1], gs[|gs| - 1];
      NamesFit(init);
      assert gs == init + [last];
      assert Named(gs) == Named(init) + {last.resource};
    }
  }

  // As many resources as grants: no resource is named twice.
  lemma {:induction false} NamesAreDistinct(gs: seq<Grant>)
    requires |Named(gs)| == |gs|
    ensures forall i, j | 0 <= i < j < |gs| :: gs[i].resource != gs[j].resource
  {
    if gs != [] {
      var init, last := gs[..|gs| - 1], gs[|gs| - 1];
      assert gs == init + [last];
      assert Named(gs) == Named(init) + {last.resource};
      NamesFit(init);
      NamesAreDistinct(init);
      forall i | 0 <= i < |init| ensures gs[i].resource != last.resource {
        assert gs[i] in init && gs[i].resource in Named(init);
      }
    }
  }

  /** Installing grants for distinct resources leaves every one of them held. */
  lemma {:induction false} InstalledHold(leases: map<string, Lease>, owner: string, gs: seq<Grant>, now: int)
    requires forall i, j | 0 <= i < j < |gs| :: gs[i].resource != gs[j].resource
    requires InstallAll(leases, owner, gs, now).Ok?
    ensures forall i | 0 <= i < |gs| :: LeaseHolds(InstallAll(leases, owner, gs, now).value, owner, gs[i], now)
  {
    if gs != [] {
      var init := gs[..|gs| - 1];
      InstalledHold(leases, owner, init, now);
      forall i | 0 <= i < |init|
        ensures LeaseHolds(InstallAll(leases, owner, gs, now).value, owner, gs[i], now)
      {
        assert gs[i] == init[i];
      }
    }
  }

  lemma GuardInstalls(db: Db, c: Call, env: Env)
    requires Guard(db, c, env).Ok?
    ensures forall g | g in c.grants.value :: LeaseHolds(Guard(db, c, env).value, c.owner, g, env.now)
  {
    NamesAreDistinct(c.grants.value);
    InstalledHold(db.leases, c.owner, c.grants.value, env.now);
  }

  lemma ChangesOfDeletions(db: Db, op: Op, ps: seq<Path>)
    requires StageOf(db, op) == AllDeleted(ps) && forall p | p in ps :: Lookup(db.files, p).Some?
    ensures Changes(db, op) == set p | p in ps
  {}

  // Nothing else stands in the way of a commit step.
  lemma CommitStepGoesThrough(db: Db, c: Call, env: Env, staged: Db)
    requires c.removal.operationId in db.ops && c.grants.Some? && !env.late
    requires Current(db, c.removal.operationId) && StageOf(db, c.removal.operationId) == map[]
    requires staged == DeleteAll(db, c.removal.operationId, PathsOf(c.removal.entries))
    requires Current(staged, c.removal.operationId)
    requires Changes(staged, c.removal.operationId) == set p | p in PathsOf(c.removal.entries)
    requires forall g | g in c.grants.value :: LeaseHolds(staged.leases, c.owner, g, env.now)
    ensures !CommitStep(db, c, env).0.Refused?
  {}

  // A commit of a current, unstaged removal whose entries match and whose grants hold goes through.
  lemma CommitGoesThrough(db: Db, c: Call, env: Env)
    requires RemovalInv(db) && Checked(c.removal) && IsRunning(db, c.removal.operationId) && c.grants.Some?
    requires db.ops[c.removal.operationId].intent.SourceRemoval?
    requires Current(db, c.removal.operationId) && !env.late
    requires forall e | e in c.removal.entries :: EntryMatches(db.files, e, env.sha256)
    requires forall g | g in c.grants.value :: LeaseHolds(db.leases, c.owner, g, env.now)
    ensures !CommitStep(db, c, env).0.Refused?
  {
    var op, ps := c.removal.operationId, PathsOf(c.removal.entries);
    assert OnRecordAt(db, op);
    CommitStages(db, c, env);
    var staged := DeleteAll(db, op, ps);
    EntriesArePublished(db, c, env);
    ChangesOfDeletions(staged, op, ps);
    CommitStepGoesThrough(db, c, env, staged);
  }

  lemma EntriesArePublished(db: Db, c: Call, env: Env)
    requires Checked(c.removal) && forall e | e in c.removal.entries :: EntryMatches(db.files, e, env.sha256)
    ensures forall p | p in PathsOf(c.removal.entries) :: Lookup(db.files, p).Some?
  {
    PathsAreDistinct(c.removal);
    forall p | p in PathsOf(c.removal.entries) ensures Lookup(db.files, p).Some? {
      var e :| e in c.removal.entries && Split(e.path) == p;
      assert EntryMatches(db.files, e, env.sha256);
    }
  }

  /** A prepare that is let through leaves the fence, the operation running with its entries captured
      at their published revisions, and the files as they were. */
  lemma PreparedIsCurrent(db: Db, c: Call, env: Env)
    requires RemovalInv(db) && Checked(c.removal) && c.phase == Prepare
    requires Exec(db, c, env).0 == Prepared
    ensures var op, db' := c.removal.operationId, Exec(db, c, env).1;
      && db'.files == db.files && db'.fence == Some(op)
      && IsRunning(db', op) && SameCaller(db', c) && Current(db', op)
      && DepsOf(db', op).Keys == (set p | p in PathsOf(c.removal.entries))
  {
    var op := c.removal.operationId;
    assert OnRecordAt(db, op);
    var leased := db.(leases := Guard(db, c, env).value);
    var admitted := Admit(leased, c);
    assert ClosedOp(db, op);
    CaptureAllIsDraft(admitted, op, PathsOf(c.removal.entries));
    assert DepsOf(admitted, op) == map[];
  }

  // Past its guard a commit is its commit step over the installed leases.
  lemma EnterIsCommit(db: Db, c: Call, env: Env)
    requires c.phase == Commit && Guard(db, c, env).Ok?
    requires !CommitStep(db.(leases := Guard(db, c, env).value), c, env).0.Refused?
    ensures EnterStep(db, c, env) == CommitStep(db.(leases := Guard(db, c, env).value), c, env)
  {}

  lemma ExecEnters(db: Db, c: Call, env: Env)
    requires c.phase == Commit && IsRunning(db, c.removal.operationId) && SameCaller(db, c)
    requires db.fence == Some(c.removal.operationId)
    ensures Exec(db, c, env) == EnterStep(db, c, env)
  {}

  lemma LeasedCommit(db: Db, c: Call, env: Env) returns (leased: Db)
    requires RemovalInv(db) && Checked(c.removal) && c.phase == Commit
    requires IsRunning(db, c.removal.operationId) && SameCaller(db, c) && Current(db, c.removal.operationId)
    requires Guard(db, c, env).Ok? && !env.late
    ensures leased == db.(leases := Guard(db, c, env).value)
    ensures !CommitStep(leased, c, env).0.Refused?
  {
    leased := db.(leases := Guard(db, c, env).value);
    GuardInstalls(db, c, env);
    LeasesKeepInv(db, leased.leases);
    CommitGoesThrough(leased, c, env);
  }

  /** Nothing but the commit's own deadline, grants and entries can stand in the way of a running removal
      whose captured revisions are still published: its commit then applies. */
  lemma CurrentCommitPublishes(db: Db, c: Call, env: Env)
    requires RemovalInv(db) && Checked(c.removal) && c.phase == Commit
    requires IsRunning(db, c.removal.operationId) && SameCaller(db, c) && Current(db, c.removal.operationId)
    requires Guard(db, c, env).Ok? && !env.late
    ensures var (reply, after) := Exec(db, c, env);
      && after.ops[c.removal.operationId].status == Applied
      && reply == Answered(after.ops[c.removal.operationId].receipt)
  {
    var leased := LeasedCommit(db, c, env);
    assert OnRecordAt(db, c.removal.operationId);
    ExecEnters(db, c, env);
    EnterIsCommit(db, c, env);
    CommitPublishes(leased, c, env);
  }
}
