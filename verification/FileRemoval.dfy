/** Fenced removal of exact files: one transaction per phase message. */
module FileRemoval {
  import opened Wrappers
  import opened Tree
  import opened Paths
  import opened StoreModel
  import opened Publication
  import opened Connection

  datatype Phase = Inspect | Prepare | Commit | Abort | Release

  datatype Grant = Grant(resource: string, claim: string, fence: int, expires: int)

  // A phase message whose caller, shape, workspace and input have been checked.
  datatype Call = Call(
    phase: Phase, removal: Removal, owner: string, expiresAt: Option<int>, grants: Option<seq<Grant>>)

  // What one call reads of its surroundings: the clock, whether its deadline has passed when it is
  // about to publish, whether a profile names an operation, and the content digest.
  datatype Env = Env(now: int, late: bool, profileBusy: bool, sha256: seq<byte> -> string)

  datatype Reason =
    | PermissionDenied | IdempotencyConflict | AdapterBusy | OperationClosed
    | ClaimRequired | ClaimLost | FenceTokenStale | StaleContext

  datatype Reply =
    | Inspected(status: Option<Status>, receipt: Option<Receipt>, fenced: Option<Op>)
    | Released
    | Answered(receipt: Option<Receipt>)
    | Prepared
    | Refused(reason: Reason)

  // What `checked_input` leaves: at least one and at most 128 entries, named once each.
  ghost predicate Checked(r: Removal) {
    && 1 <= |r.entries| <= 128
    && (forall e | e in r.entries :: PathName(e.path))
    && forall i, j | 0 <= i < j < |r.entries| :: r.entries[i].path != r.entries[j].path
  }

  function PathsOf(entries: seq<Entry>): seq<Path> {
    seq(|entries|, i requires 0 <= i < |entries| => Split(entries[i].path))
  }

  function Resource(e: Entry): string { "file:" + e.path }

  function ResourcesOf(entries: seq<Entry>): set<string> {
    set e | e in entries :: Resource(e)
  }

  function Named(gs: seq<Grant>): set<string> {
    set g | g in gs :: g.resource
  }

  // As many grants as resources, for those resources.
  predicate SameNames(gs: seq<Grant>, entries: seq<Entry>) {
    |gs| == |ResourcesOf(entries)| && Named(gs) == ResourcesOf(entries)
  }

  /** `install`: a fresh grant replaces an older fence, renews itself, or is refused. */
  function Install(leases: map<string, Lease>, owner: string, g: Grant, now: int): Result<map<string, Lease>, Reason> {
    if g.fence <= 0 || g.expires <= now then Err(ClaimLost)
    else if g.resource in leases && g.fence <= leases[g.resource].fence then
      var held := leases[g.resource];
      if held.active && held.expires > now && held.claim == g.claim && held.owner == owner && held.fence == g.fence
      then Ok(leases[g.resource := held.(expires := g.expires)])
      else Err(FenceTokenStale)
    else Ok(leases[g.resource := Lease(owner, g.claim, g.fence, g.expires, true)])
  }

  function InstallAll(leases: map<string, Lease>, owner: string, gs: seq<Grant>, now: int)
    : Result<map<string, Lease>, Reason>
  {
    if gs == [] then Ok(leases)
    else
      var before := InstallAll(leases, owner, gs[..|gs| - 1], now);
      if before.Err? then before else Install(before.value, owner, gs[|gs| - 1], now)
  }

  predicate LeaseHolds(leases: map<string, Lease>, owner: string, g: Grant, now: int) {
    && g.resource in leases && leases[g.resource].active && leases[g.resource].expires > now
    && leases[g.resource].owner == owner && leases[g.resource].claim == g.claim && leases[g.resource].fence == g.fence
  }

  // Every ancestor is a published directory and the file is the one the entry describes.
  predicate EntryMatches(files: Files, e: Entry, sha256: seq<byte> -> string) {
    var p := Split(e.path);
    && (forall n | 1 <= n < |p| :: IsDir(Lookup(files, p[..n])))
    && p in files && files[p].node.Some? && files[p].node.value.File?
    && files[p].revision == e.revision && files[p].node.value.mode == e.mode
    && |files[p].node.value.bytes| == e.size && sha256(files[p].node.value.bytes) == e.sha256
  }

  predicate AllMatch(files: Files, entries: seq<Entry>, sha256: seq<byte> -> string) {
    forall e | e in entries :: EntryMatches(files, e, sha256)
  }

  function CaptureAll(db: Db, op: Op, ps: seq<Path>): (r: Db)
    ensures r == db.(deps := r.deps)
  {
    if ps == [] then db else Capture(CaptureAll(db, op, ps[..|ps| - 1]), op, ps[|ps| - 1])
  }

  function DeleteAll(db: Db, op: Op, ps: seq<Path>): (r: Db)
    ensures r == db.(staging := r.staging, deps := r.deps)
  {
    if ps == [] then db else StageRow(DeleteAll(db, op, ps[..|ps| - 1]), op, ps[|ps| - 1], None)
  }

  predicate OtherRunning(db: Db, op: Op) {
    exists o | o in db.ops :: o != op && db.ops[o].status == Running
  }

  predicate AnyStaged(db: Db) {
    exists o | o in db.staging :: db.staging[o] != map[]
  }

  function AsIntent(c: Call): Intent { SourceRemoval(c.removal) }

  predicate SameCaller(db: Db, c: Call)
    requires c.removal.operationId in db.ops
  {
    db.ops[c.removal.operationId].owner == c.owner && db.ops[c.removal.operationId].intent == AsIntent(c)
  }

  function Admit(db: Db, c: Call): Db {
    Start(db.(fence := Some(c.removal.operationId)), c.removal.operationId, c.owner, AsIntent(c), {})
  }

  // Prepare and commit share everything up to the entry checks.
  function Guard(db: Db, c: Call, env: Env): (r: Result<map<string, Lease>, Reason>)
    ensures r.Ok? ==>
      && c.grants.Some? && !OtherRunning(db, c.removal.operationId)
      && (c.phase == Prepare ==> c.removal.operationId !in db.ops)
      && (c.phase == Commit ==> c.removal.operationId in db.ops && db.fence == Some(c.removal.operationId))
      && forall e | e in c.removal.entries :: EntryMatches(db.files, e, env.sha256)
  {
    var op := c.removal.operationId;
    if c.expiresAt.None? || !(0 < c.expiresAt.value - env.now <= 60000) then Err(PermissionDenied)
    else if c.phase == Prepare && op in db.ops then Err(OperationClosed)
    else if c.phase == Commit && (op !in db.ops || db.fence != Some(op)) then Err(OperationClosed)
    else if OtherRunning(db, op) || env.profileBusy then Err(AdapterBusy)
    else if c.grants.None? || !SameNames(c.grants.value, c.removal.entries) then Err(ClaimRequired)
    else
      var leases := InstallAll(db.leases, c.owner, c.grants.value, env.now);
      if leases.Err? then leases
      else if !AllMatch(db.files, c.removal.entries, env.sha256) then Err(StaleContext)
      else leases
  }

  function PrepareStep(db: Db, c: Call): (Reply, Db) {
    if AnyStaged(db) then (Refused(AdapterBusy), db)
    else (Prepared, CaptureAll(Admit(db, c), c.removal.operationId, PathsOf(c.removal.entries)))
  }

  function CommitStep(db: Db, c: Call, env: Env): (Reply, Db)
    requires c.removal.operationId in db.ops && c.grants.Some?
  {
    var op, ps := c.removal.operationId, PathsOf(c.removal.entries);
    if !Current(db, op) then (Refused(StaleContext), db)
    else if StageOf(db, op) != map[] then (Refused(StaleContext), db)
    else
      var staged := DeleteAll(db, op, ps);
      if !Current(staged, op) then (Refused(StaleContext), db)
      else if env.late then (Refused(PermissionDenied), db)
      else if Changes(staged, op) != (set p | p in ps) then (Refused(ClaimRequired), db)
      else if exists g | g in c.grants.value :: !LeaseHolds(staged.leases, c.owner, g, env.now) then
        (Refused(ClaimLost), db)
      else
        var after := Publish(staged, op);
        (Answered(after.ops[op].receipt), after)
  }

  // An abort records a rejection unless an outcome is already on record, admitting the id if it must.
  function AbortStep(db: Db, c: Call): (Reply, Db) {
    var op := c.removal.operationId;
    var started := if op in db.ops then db else Admit(db, c);
    if started.ops[op].receipt.Some? then (Answered(started.ops[op].receipt), started)
    else
      var after := Finish(started, op, Rejected, {}, "permission_denied");
      (Answered(after.ops[op].receipt), after)
  }

  // A prepare or commit of an id with no outcome yet.
  function EnterStep(db: Db, c: Call, env: Env): (Reply, Db)
    requires c.phase == Prepare || c.phase == Commit
  {
    var guarded := Guard(db, c, env);
    if guarded.Err? then (Refused(guarded.error), db)
    else
      var leased := db.(leases := guarded.value);
      var (reply, after) := if c.phase == Prepare then PrepareStep(leased, c) else CommitStep(leased, c, env);
      if reply.Refused? then (reply, db) else (reply, after)
  }

  /** `execute`: the reply, and the tables after the transaction; a refusal leaves them as they were. */
  function Exec(db: Db, c: Call, env: Env): (Reply, Db) {
    var op := c.removal.operationId;
    if op in db.ops && !SameCaller(db, c) then (Refused(IdempotencyConflict), db)
    else if c.phase == Inspect then
      (Inspected(if op in db.ops then Some(db.ops[op].status) else None,
                 if op in db.ops then db.ops[op].receipt else None, db.fence), db)
    else if db.fence.Some? && db.fence.value != op then (Refused(AdapterBusy), db)
    else if c.phase == Release then
      if op !in db.ops || db.ops[op].status == Running then (Refused(OperationClosed), db)
      else (Released, if db.fence == Some(op) then db.(fence := None) else db)
    else if c.phase == Abort then AbortStep(db, c)
    else if op in db.ops && db.ops[op].status != Running then (Answered(db.ops[op].receipt), db)
    else EnterStep(db, c, env)
  }
}
