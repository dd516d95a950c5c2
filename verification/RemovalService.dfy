/** The removal calls as the supervisor runs them: one transaction, step by step. */
module RemovalService {
  import opened Wrappers
  import opened Tree
  import opened Paths
  import opened StoreModel
  import opened Connection
  import opened FileRemoval
  import opened RemovalRuns

  lemma {:induction false} InstallStopsAtFirstRefusal(
      leases: map<string, Lease>, owner: string, gs: seq<Grant>, now: int, n: nat)
    requires n <= |gs| && InstallAll(leases, owner, gs[..n], now).Err?
    ensures InstallAll(leases, owner, gs, now) == InstallAll(leases, owner, gs[..n], now)
  {
    if n < |gs| {
      assert gs[..|gs| - 1][..n] == gs[..n];
      InstallStopsAtFirstRefusal(leases, owner, gs[..|gs| - 1], now, n);
    } else {
      assert gs[..n] == gs;
    }
  }

  method InstallGrants(store: Store, owner: string, gs: seq<Grant>, now: int) returns (refused: Option<Reason>)
    modifies store`db
    ensures var r := InstallAll(old(store.db).leases, owner, gs, now);
      if r.Ok? then refused.None? && store.db == old(store.db).(leases := r.value) else refused == Some(r.error)
  {
    ghost var before := store.db.leases;
    var i := 0;
    while i < |gs|
      invariant i <= |gs|
      invariant InstallAll(before, owner, gs[..i], now) == Ok(store.db.leases)
      invariant store.db == old(store.db).(leases := store.db.leases)
    {
      assert gs[..i + 1][..i] == gs[..i];
      var r := Install(store.db.leases, owner, gs[i], now);
      if r.Err? {
        InstallStopsAtFirstRefusal(before, owner, gs, now, i + 1);
        return Some(r.error);
      }
      store.db := store.db.(leases := r.value);
      i := i + 1;
    }
    assert gs[..i] == gs;
    return None;
  }

  // Every exact file and each of its ancestors, before anything is staged.
  method CheckEntries(store: Store, entries: seq<Entry>, sha256: seq<byte> -> string) returns (ok: bool)
    requires forall e | e in entries :: PathName(e.path)
    ensures ok <==> forall e | e in entries :: EntryMatches(store.db.files, e, sha256)
  {
    var i := 0;
    while i < |entries|
      invariant i <= |entries|
      invariant forall e | e in entries[..i] :: EntryMatches(store.db.files, e, sha256)
    {
      var e := entries[i];
      var p := Split(e.path);
      var n := 1;
      while n < |p|
        invariant 1 <= n <= |p|
        invariant forall m | 1 <= m < n :: IsDir(Lookup(store.db.files, p[..m]))
      {
        if !IsDir(Lookup(store.db.files, p[..n])) { return false; }
        n := n + 1;
      }
      var row := Lookup(store.db.files, p);
      if row.None? || !row.value.File? || Revision(store.db.files, p) != e.revision || row.value.mode != e.mode
        || |row.value.bytes| != e.size || sha256(row.value.bytes) != e.sha256
      {
        return false;
      }
      assert entries[..i + 1] == entries[..i] + [e];
      i := i + 1;
    }
    assert entries[..i] == entries;
    return true;
  }

  method CaptureEntries(store: Store, op: Op, entries: seq<Entry>)
    modifies store`db
    ensures store.db == CaptureAll(old(store.db), op, PathsOf(entries))
  {
    var i := 0;
    ghost var ps := PathsOf(entries);
    while i < |entries|
      invariant i <= |entries| && store.db == CaptureAll(old(store.db), op, ps[..i])
    {
      assert ps[..i + 1][..i] == ps[..i];
      store.CapturePath(op, Split(entries[i].path));
      i := i + 1;
    }
    assert ps[..i] == ps;
  }

  lemma DeleteOneMore(db: Db, op: Op, ps: seq<Path>, i: nat)
    requires i < |ps|
    ensures DeleteAll(db, op, ps[..i + 1]) == StageRow(DeleteAll(db, op, ps[..i]), op, ps[i], None)
  {
    assert ps[..i + 1][..i] == ps[..i];
  }

  method StageDeletions(store: Store, op: Op, entries: seq<Entry>)
    requires forall e | e in entries :: PathName(e.path)
    modifies store`db
    ensures store.db == DeleteAll(old(store.db), op, PathsOf(entries))
  {
    var i := 0;
    ghost var ps := PathsOf(entries);
    while i < |entries|
      invariant i <= |entries| && store.db == DeleteAll(old(store.db), op, ps[..i])
    {
      DeleteOneMore(old(store.db), op, ps, i);
      PathNameIsValidPath(entries[i].path);
      var p := Split(entries[i].path);
      assert !StageRefused(store.db, op, p, None);
      var ok := store.Stage(op, p, None);
      i := i + 1;
    }
    assert ps[..i] == ps;
  }

  // Everything a prepare and a commit check alike; the grants are installed on the way.
  method CheckCall(store: Store, c: Call, env: Env) returns (refused: Option<Reason>)
    requires Checked(c.removal) && (c.phase == Prepare || c.phase == Commit)
    modifies store`db
    ensures var r := Guard(old(store.db), c, env);
      if r.Ok? then refused.None? && store.db == old(store.db).(leases := r.value) else refused == Some(r.error)
  {
    var op := c.removal.operationId;
    if c.expiresAt.None? || !(0 < c.expiresAt.value - env.now <= 60000) { return Some(PermissionDenied); }
    if c.phase == Prepare && op in store.db.ops { return Some(OperationClosed); }
    if c.phase == Commit && (op !in store.db.ops || store.db.fence != Some(op)) { return Some(OperationClosed); }
    if OtherRunning(store.db, op) || env.profileBusy { return Some(AdapterBusy); }
    if c.grants.None? || !SameNames(c.grants.value, c.removal.entries) { return Some(ClaimRequired); }
    refused := InstallGrants(store, c.owner, c.grants.value, env.now);
    if refused.Some? { return; }
    var ok := CheckEntries(store, c.removal.entries, env.sha256);
    if !ok { return Some(StaleContext); }
  }

  method PrepareCall(store: Store, c: Call) returns (reply: Reply)
    modifies store`db
    ensures reply == PrepareStep(old(store.db), c).0
    ensures !reply.Refused? ==> store.db == PrepareStep(old(store.db), c).1
  {
    if AnyStaged(store.db) { return Refused(AdapterBusy); }
    store.db := Admit(store.db, c);
    CaptureEntries(store, c.removal.operationId, c.removal.entries);
    return Prepared;
  }

  method CommitCall(store: Store, c: Call, env: Env) returns (reply: Reply)
    requires Checked(c.removal) && c.removal.operationId in store.db.ops && c.grants.Some?
    modifies store`db
    ensures reply == CommitStep(old(store.db), c, env).0
    ensures !reply.Refused? ==> store.db == CommitStep(old(store.db), c, env).1
  {
    var op := c.removal.operationId;
    if !Current(store.db, op) { return Refused(StaleContext); }
    if StageOf(store.db, op) != map[] { return Refused(StaleContext); }
    StageDeletions(store, op, c.removal.entries);
    if !Current(store.db, op) { return Refused(StaleContext); }
    if env.late { return Refused(PermissionDenied); }
    if Changes(store.db, op) != (set p | p in PathsOf(c.removal.entries)) { return Refused(ClaimRequired); }
    if exists g | g in c.grants.value :: !LeaseHolds(store.db.leases, c.owner, g, env.now) {
      return Refused(ClaimLost);
    }
    store.db := Publish(store.db, op);
    return Answered(store.db.ops[op].receipt);
  }

  method EnterCall(store: Store, c: Call, env: Env) returns (reply: Reply)
    requires store.db == store.committed && Checked(c.removal) && (c.phase == Prepare || c.phase == Commit)
    modifies store
    ensures store.db == store.committed
    ensures (reply, store.db) == EnterStep(old(store.db), c, env)
  {
    var refused := CheckCall(store, c, env);
    if refused.Some? {
      store.Rollback();
      return Refused(refused.value);
    }
    if c.phase == Prepare {
      reply := PrepareCall(store, c);
    } else {
      reply := CommitCall(store, c, env);
    }
    if reply.Refused? { store.Rollback(); } else { store.Commit(); }
  }

  method AbortCall(store: Store, c: Call) returns (reply: Reply)
    modifies store
    ensures store.db == store.committed
    ensures (reply, store.db) == AbortStep(old(store.db), c)
  {
    var op := c.removal.operationId;
    if op !in store.db.ops { store.db := Admit(store.db, c); }
    if store.db.ops[op].receipt.None? {
      store.db := Finish(store.db, op, Rejected, {}, "permission_denied");
    }
    store.Commit();
    return Answered(store.db.ops[op].receipt);
  }

  /** One phase message, as a transaction: committed when it replies, rolled back when it refuses. */
  method Execute(store: Store, c: Call, env: Env) returns (reply: Reply)
    requires store.db == store.committed && Checked(c.removal)
    modifies store
    ensures store.db == store.committed
    ensures (reply, store.db) == Exec(old(store.db), c, env)
  {
    var op := c.removal.operationId;
    if op in store.db.ops && !SameCaller(store.db, c) { return Refused(IdempotencyConflict); }
    if c.phase == Inspect {
      return Inspected(if op in store.db.ops then Some(store.db.ops[op].status) else None,
                       if op in store.db.ops then store.db.ops[op].receipt else None, store.db.fence);
    }
    if store.db.fence.Some? && store.db.fence.value != op { return Refused(AdapterBusy); }
    if c.phase == Release {
      if op !in store.db.ops || store.db.ops[op].status == Running { return Refused(OperationClosed); }
      if store.db.fence == Some(op) { store.db := store.db.(fence := None); }
      store.Commit();
      return Released;
    }
    if c.phase == Abort {
      reply := AbortCall(store, c);
      return;
    }
    if op in store.db.ops && store.db.ops[op].status != Running { return Answered(store.db.ops[op].receipt); }
    reply := EnterCall(store, c, env);
  }
}
