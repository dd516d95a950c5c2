/** What every phase message of a source removal keeps, and what whole runs of them promise. */
module RemovalRuns {
  import opened Wrappers
  import opened Tree
  import opened Paths
  import opened StoreModel
  import opened Publication
  import opened Drafts
  import opened FileRemoval
  import Runs

  ghost predicate OnRecordAt(db: Db, op: Op) {
    op in db.ops ==>
      && (db.ops[op].status == Running <==> db.ops[op].receipt.None?)
      && (db.ops[op].intent.SourceRemoval? && db.ops[op].status == Running ==>
            && db.fence == Some(op)
            && op !in db.snapshots && StageOf(db, op) == map[])
  }

  /** A running removal is the one the fence names, and the fenced operation is on record. */
  ghost predicate RemovalInv(db: Db) {
    && Inv(db)
    && (db.fence.Some? ==> db.fence.value in db.ops && db.ops[db.fence.value].intent.SourceRemoval?)
    && forall op {:trigger OnRecordAt(db, op)} :: OnRecordAt(db, op)
  }

  lemma AuthorityKeepsInv(db: Db, fence: Option<Op>, leases: map<string, Lease>)
    requires Inv(db)
    ensures Inv(db.(fence := fence, leases := leases))
  {
    NextKeepsInv(db, db.(fence := fence, leases := leases), Authority(fence, leases));
  }

  lemma {:induction false} CaptureAllIsDraft(db: Db, op: Op, ps: seq<Path>)
    ensures Draft(db, CaptureAll(db, op, ps), op)
    ensures StageOf(CaptureAll(db, op, ps), op) == StageOf(db, op)
    ensures DepsOf(CaptureAll(db, op, ps), op).Keys == DepsOf(db, op).Keys + (set p | p in ps)
  {
    if ps == [] {
      NoDraft(db, op);
    } else {
      var init, last := ps[..|ps| - 1], ps[|ps| - 1];
      CaptureAllIsDraft(db, op, init);
      CaptureKeepsDraft(db, CaptureAll(db, op, init), op, last);
      assert ps == init + [last];
    }
  }

  function AllDeleted(ps: seq<Path>): Stage {
    map p | p in ps :: None
  }

  lemma OneMoreDeleted(init: seq<Path>, last: Path)
    ensures AllDeleted(init)[last := None] == AllDeleted(init + [last])
  {}

  // Deleting distinct published files over an empty stage leaves a sound draft holding just those deletions.
  lemma {:induction false} DeleteAllIsSound(db: Db, op: Op, ps: seq<Path>)
    requires Sound(db, op) && StageOf(db, op) == map[]
    requires forall p | p in ps :: ValidPath(p) && View(db, op, p).Some? && !IsDir(View(db, op, p))
    requires forall i, j | 0 <= i < j < |ps| :: ps[i] != ps[j]
    ensures Draft(db, DeleteAll(db, op, ps), op) && Sound(DeleteAll(db, op, ps), op)
    ensures StageOf(DeleteAll(db, op, ps), op) == AllDeleted(ps)
  {
    if ps == [] {
      NoDraft(db, op);
    } else {
      var init, last := ps[..|ps| - 1], ps[|ps| - 1];
      assert ps == init + [last];
      DeleteAllIsSound(db, op, init);
      var mid := DeleteAll(db, op, init);
      assert last in ps && last !in init;
      assert View(mid, op, last) == View(db, op, last);
      StageKeepsSound(db, mid, op, last, None);
      StageKeepsDraft(db, mid, op, last, None);
      OneMoreDeleted(init, last);
    }
  }

  lemma PathsAreDistinct(r: Removal)
    requires Checked(r)
    ensures forall i, j | 0 <= i < j < |r.entries| :: PathsOf(r.entries)[i] != PathsOf(r.entries)[j]
    ensures forall p | p in PathsOf(r.entries) :: ValidPath(p) && exists e :: e in r.entries && Split(e.path) == p
    ensures forall e | e in r.entries :: Split(e.path) in PathsOf(r.entries)
  {
    var ps := PathsOf(r.entries);
    forall i, j | 0 <= i < j < |r.entries| ensures ps[i] != ps[j] {
      TextSplit(r.entries[i].path);
      TextSplit(r.entries[j].path);
    }
    forall p | p in ps ensures ValidPath(p) && exists e :: e in r.entries && Split(e.path) == p {
      var i :| 0 <= i < |ps| && ps[i] == p;
      assert r.entries[i] in r.entries;
      PathNameIsValidPath(r.entries[i].path);
    }
    forall e | e in r.entries ensures Split(e.path) in ps {
      var i :| 0 <= i < |r.entries| && r.entries[i] == e;
      assert ps[i] == Split(e.path);
    }
  }

  // The only admission path of a removal: the fence is set and the operation starts with nothing staged.
  lemma AdmitKeepsInv(db: Db, c: Call)
    requires RemovalInv(db) && c.removal.operationId !in db.ops
    requires db.fence.None? || db.fence.value == c.removal.operationId
    ensures RemovalInv(Admit(db, c)) && IsRunning(Admit(db, c), c.removal.operationId)
    ensures Admit(db, c).files == db.files
  {
    var op := c.removal.operationId;
    AuthorityKeepsInv(db, Some(op), db.leases);
    StartKeepsInv(db.(fence := Some(op)), op, c.owner, AsIntent(c), {});
    var db' := Admit(db, c);
    assert !IsRunning(db, op) && ClosedOp(db, op);
    forall o ensures OnRecordAt(db', o) { assert OnRecordAt(db, o); }
  }

  lemma LeasesKeepInv(db: Db, leases: map<string, Lease>)
    requires RemovalInv(db)
    ensures RemovalInv(db.(leases := leases))
  {
    var leased := db.(leases := leases);
    AuthorityKeepsInv(db, db.fence, leases);
    forall o ensures OnRecordAt(leased, o) { assert OnRecordAt(db, o); }
  }

  lemma PrepareKeepsInv(db: Db, c: Call)
    requires RemovalInv(db) && c.removal.operationId !in db.ops
    requires db.fence.None? || db.fence.value == c.removal.operationId
    ensures RemovalInv(PrepareStep(db, c).1)
    ensures PrepareStep(db, c).1.files == db.files
  {
    var op, ps := c.removal.operationId, PathsOf(c.removal.entries);
    if !AnyStaged(db) {
      var admitted := Admit(db, c);
      AdmitKeepsInv(db, c);
      var after := CaptureAll(admitted, op, ps);
      CaptureAllIsDraft(admitted, op, ps);
      assert OpInv(admitted, op) && OnRecordAt(admitted, op);
      assert StageOf(admitted, op) == map[];
      forall q ensures CoveredAt(admitted.files, map[], DepsOf(after, op), q) {}
      PrivateKeepsInv(admitted, after, op);
      forall o ensures OnRecordAt(after, o) { assert OnRecordAt(admitted, o); }
    }
  }

  // The staged deletions of a commit whose entries all matched.
  lemma CommitStages(db: Db, c: Call, env: Env)
    requires RemovalInv(db) && Checked(c.removal) && IsRunning(db, c.removal.operationId)
    requires db.ops[c.removal.operationId].intent.SourceRemoval?
    requires Current(db, c.removal.operationId)
    requires forall e | e in c.removal.entries :: EntryMatches(db.files, e, env.sha256)
    ensures var op, ps := c.removal.operationId, PathsOf(c.removal.entries);
      && Inv(DeleteAll(db, op, ps)) && Source(DeleteAll(db, op, ps), op) == db.files
      && StageOf(DeleteAll(db, op, ps), op) == AllDeleted(ps)
      && Draft(db, DeleteAll(db, op, ps), op)
  {
    var op, ps := c.removal.operationId, PathsOf(c.removal.entries);
    assert OnRecordAt(db, op) && OpInv(db, op);
    PathsAreDistinct(c.removal);
    forall p | p in ps ensures View(db, op, p).Some? && !IsDir(View(db, op, p)) {
      var e :| e in c.removal.entries && Split(e.path) == p;
      assert EntryMatches(db.files, e, env.sha256);
    }
    DeleteAllIsSound(db, op, ps);
    PrivateKeepsInv(db, DeleteAll(db, op, ps), op);
  }

  lemma PublishingKeepsInv(db: Db, staged: Db, op: Op)
    requires RemovalInv(db) && Draft(db, staged, op)
    requires Inv(staged) && IsRunning(staged, op) && Current(staged, op)
    ensures RemovalInv(Publish(staged, op))
  {
    PublishKeepsInv(staged, op);
    var after := Publish(staged, op);
    forall o ensures OnRecordAt(after, o) {
      assert OnRecordAt(db, o);
      if o != op {
        assert SameRows(db, staged, o);
        assert StageOf(after, o) == StageOf(staged, o);
      }
    }
  }

  // What a commit that is not refused found, and that it publishes its deletions.
  lemma CommitPublishes(db: Db, c: Call, env: Env)
    requires c.removal.operationId in db.ops && c.grants.Some? && !CommitStep(db, c, env).0.Refused?
    ensures var op, ps := c.removal.operationId, PathsOf(c.removal.entries);
      var staged := DeleteAll(db, op, ps);
      && Current(db, op) && Current(staged, op) && Changes(staged, op) == (set p | p in ps)
      && CommitStep(db, c, env).1 == Publish(staged, op)
      && CommitStep(db, c, env).0 == Answered(Publish(staged, op).ops[op].receipt)
  {}

  lemma CommitKeepsInv(db: Db, c: Call, env: Env)
    requires RemovalInv(db) && Checked(c.removal) && IsRunning(db, c.removal.operationId) && c.grants.Some?
    requires db.ops[c.removal.operationId].intent.SourceRemoval?
    requires forall e | e in c.removal.entries :: EntryMatches(db.files, e, env.sha256)
    ensures !CommitStep(db, c, env).0.Refused? ==> RemovalInv(CommitStep(db, c, env).1)
  {
    if !CommitStep(db, c, env).0.Refused? {
      CommitPublishes(db, c, env);
      CommitStages(db, c, env);
      PublishingKeepsInv(db, DeleteAll(db, c.removal.operationId, PathsOf(c.removal.entries)), c.removal.operationId);
    }
  }

  /** Every message, whoever sends it and in whatever order, keeps the invariant. */
  lemma ExecKeepsInv(db: Db, c: Call, env: Env)
    requires RemovalInv(db) && Checked(c.removal)
    ensures RemovalInv(Exec(db, c, env).1)
  {
    var op := c.removal.operationId;
    assert OnRecordAt(db, op);
    if op in db.ops && !SameCaller(db, c) {
    } else if c.phase == Inspect || (db.fence.Some? && db.fence.value != op) {
    } else if c.phase == Release {
      AuthorityKeepsInv(db, None, db.leases);
      var after := Exec(db, c, env).1;
      forall o ensures OnRecordAt(after, o) { assert OnRecordAt(db, o); }
    } else if c.phase == Abort {
      AbortKeepsInv(db, c);
    } else if op in db.ops && db.ops[op].status != Running {
    } else {
      EnterKeepsInv(db, c, env);
    }
  }

  lemma EnterKeepsInv(db: Db, c: Call, env: Env)
    requires RemovalInv(db) && Checked(c.removal) && (c.phase == Prepare || c.phase == Commit)
    requires db.fence.None? || db.fence.value == c.removal.operationId
    requires c.removal.operationId in db.ops ==> IsRunning(db, c.removal.operationId) && SameCaller(db, c)
    ensures RemovalInv(EnterStep(db, c, env).1)
  {
    var guarded := Guard(db, c, env);
    if guarded.Ok? {
      var leased := db.(leases := guarded.value);
      LeasesKeepInv(db, guarded.value);
      if c.phase == Prepare { PrepareKeepsInv(leased, c); } else { CommitKeepsInv(leased, c, env); }
    }
  }

  lemma AbortKeepsInv(db: Db, c: Call)
    requires RemovalInv(db)
    requires c.removal.operationId in db.ops ==> SameCaller(db, c)
    requires db.fence.None? || db.fence.value == c.removal.operationId
    ensures RemovalInv(AbortStep(db, c).1)
  {
    var op := c.removal.operationId;
    if op !in db.ops { AdmitKeepsInv(db, c); }
    var started := if op in db.ops then db else Admit(db, c);
    assert OnRecordAt(started, op);
    if started.ops[op].receipt.None? {
      FinishKeepsInv(started, op, Rejected, {}, "permission_denied");
      var after := Finish(started, op, Rejected, {}, "permission_denied");
      forall o ensures OnRecordAt(after, o) { assert OnRecordAt(started, o); }
    }
  }

  /** What one message does. */

  /** Every later prepare, commit or abort by the same caller returns the recorded receipt, and changes
      nothing, exactly while no other id holds the fence. */
  lemma RepeatReturnsReceipt(db: Db, c: Call, env: Env)
    requires RemovalInv(db) && c.removal.operationId in db.ops && SameCaller(db, c)
    requires db.ops[c.removal.operationId].status != Running
    requires c.phase == Prepare || c.phase == Commit || c.phase == Abort
    ensures db.ops[c.removal.operationId].receipt.Some?
    ensures Exec(db, c, env) == (Answered(db.ops[c.removal.operationId].receipt), db) <==>
      db.fence.None? || db.fence.value == c.removal.operationId
    ensures Exec(db, c, env).1 == db
  {
    assert OnRecordAt(db, c.removal.operationId);
  }

  /** From a new store: once an id is aborted and released and another one aborted, a repeat of the first
      abort is refused although its receipt is on record. */
  lemma RepeatCanBeRefused(mode: nat, a: Call, b: Call, env: Env)
    requires a.phase == Abort && b.phase == Abort && a.removal.operationId != b.removal.operationId
    ensures var aborted := Exec(Runs.Fresh(mode), a, env).1;
      var released := Exec(aborted, a.(phase := Release), env).1;
      var db := Exec(released, b, env).1;
      && a.removal.operationId in db.ops && db.ops[a.removal.operationId].status == Rejected
      && db.ops[a.removal.operationId].receipt.Some? && SameCaller(db, a)
      && Exec(db, a, env) == (Refused(AdapterBusy), db)
  {
    var op := a.removal.operationId;
    var aborted := Exec(Runs.Fresh(mode), a, env).1;
    assert aborted.fence == Some(op) && op in aborted.ops && aborted.ops[op].status == Rejected;
    assert SameCaller(aborted, a);
    var released := Exec(aborted, a.(phase := Release), env).1;
    assert released == aborted.(fence := None);
    var db := Exec(released, b, env).1;
    assert db.fence == Some(b.removal.operationId) && db.ops[op] == released.ops[op];
  }

  /** While an id holds the fence, no message for another id but an inspection changes anything. */
  lemma FenceHoldsOthersOff(db: Db, c: Call, env: Env)
    requires db.fence.Some? && db.fence.value != c.removal.operationId
    ensures Exec(db, c, env).1 == db
    ensures c.phase != Inspect ==> Exec(db, c, env).0.Refused?
  {}

  /** An abort that overtakes its prepare records a rejection, and the prepare or commit that arrives
      later gets that rejection back and admits nothing. */
  lemma AbortOvertakes(db: Db, c: Call, env: Env, late: Call, env': Env)
    requires RemovalInv(db) && c.phase == Abort && c.removal.operationId !in db.ops
    requires db.fence.None? || db.fence.value == c.removal.operationId
    requires late == c.(phase := late.phase, expiresAt := late.expiresAt, grants := late.grants)
    requires late.phase == Prepare || late.phase == Commit
    ensures var (reply, after) := Exec(db, c, env);
      var op := c.removal.operationId;
      && after.files == db.files && after.fence == Some(op)
      && op in after.ops && after.ops[op].status == Rejected
      && after.ops[op].receipt.Some? && after.ops[op].receipt.value.resources == {}
      && reply == Answered(after.ops[op].receipt)
      && Exec(after, late, env') == (Answered(after.ops[op].receipt), after)
  {}

  /** From any state in which no other id holds the fence, aborting and then releasing clears it. */
  lemma AbortThenReleaseClears(db: Db, c: Call, env: Env, env': Env)
    requires RemovalInv(db) && c.phase == Abort
    requires c.removal.operationId in db.ops ==> SameCaller(db, c)
    requires db.fence.None? || db.fence.value == c.removal.operationId
    ensures var aborted := Exec(db, c, env).1;
      var (reply, released) := Exec(aborted, c.(phase := Release), env');
      reply == Released && released.fence.None?
  {
    assert OnRecordAt(db, c.removal.operationId);
  }

  // A commit that is let through ends in the commit step over the installed leases.
  lemma CommitIsReached(db: Db, c: Call, env: Env)
    requires c.phase == Commit && IsRunning(db, c.removal.operationId) && !Exec(db, c, env).0.Refused?
    ensures SameCaller(db, c) && Guard(db, c, env).Ok?
    ensures Exec(db, c, env) == EnterStep(db, c, env)
    ensures EnterStep(db, c, env) == CommitStep(db.(leases := Guard(db, c, env).value), c, env)
  {
    assert Exec(db, c, env) == EnterStep(db, c, env);
  }

  lemma PublishOfDeletions(staged: Db, op: Op, ps: seq<Path>, p: Path)
    requires op in staged.ops && StageOf(staged, op) == AllDeleted(ps)
    ensures Lookup(Publish(staged, op).files, p) == if p in ps then None else Lookup(staged.files, p)
    ensures Publish(staged, op).ops[op].status == Applied && Publish(staged, op).ops[op].receipt.Some?
    ensures Publish(staged, op).ops[op].receipt.value.resources == Changes(staged, op)
  {
    PublishedIsOverlay(staged, op, p);
  }

  /** A commit that publishes removes the named files, each as its entry describes it, and nothing else. */
  lemma CommitRemovesExactly(db: Db, c: Call, env: Env, p: Path)
    requires RemovalInv(db) && Checked(c.removal)
    requires c.phase == Commit && IsRunning(db, c.removal.operationId) && !Exec(db, c, env).0.Refused?
    ensures var (reply, after) := Exec(db, c, env);
      var op, ps := c.removal.operationId, PathsOf(c.removal.entries);
      && after.ops[op].status == Applied && reply == Answered(after.ops[op].receipt)
      && after.ops[op].receipt.value.resources == (set q | q in ps)
      && (forall e | e in c.removal.entries :: EntryMatches(db.files, e, env.sha256))
      && Lookup(after.files, p) == if p in ps then None else Lookup(db.files, p)
  {
    CommitIsReached(db, c, env);
    var leased, op, ps := db.(leases := Guard(db, c, env).value), c.removal.operationId, PathsOf(c.removal.entries);
    LeasesKeepInv(db, leased.leases);
    CommitPublishes(leased, c, env);
    CommitStages(leased, c, env);
    PublishOfDeletions(DeleteAll(leased, op, ps), op, ps, p);
  }

  /** No other message moves a published file. */
  lemma OnlyCommitMovesFiles(db: Db, c: Call, env: Env)
    requires c.phase != Commit || !IsRunning(db, c.removal.operationId) || Exec(db, c, env).0.Refused?
    ensures Exec(db, c, env).1.files == db.files
  {
    if c.phase == Prepare {
      PrepareMovesNoFiles(db, c, env);
    } else if c.phase == Abort {
      AbortMovesNoFiles(db, c);
    }
  }

  lemma PrepareMovesNoFiles(db: Db, c: Call, env: Env)
    requires c.phase == Prepare
    ensures EnterStep(db, c, env).1.files == db.files
  {}

  lemma AbortMovesNoFiles(db: Db, c: Call)
    ensures AbortStep(db, c).1.files == db.files
  {}

  /** Whole runs: messages in any order, repeated or lost, among native operations and restarts. */

  datatype Event = Message(call: Call, env: Env) | Native(step: Step)

  // A step of the native side: admissions wait for the fence, and no step touches a removal's own rows.
  ghost predicate NativeNext(db: Db, db': Db, step: Step) {
    && Next(db, db', step)
    && match step
       case Begin(_, _, intent, _) => intent.Native? && db.fence.None?
       case PinSource(op) => db.ops[op].intent.Native?
       case Private(op) => db.ops[op].intent.Native?
       case Close(op, _, _, _) => db.ops[op].intent.Native?
       case PublishOp(op) => db.ops[op].intent.Native?
       case Authority(fence, _) => fence == db.fence
       case Restart => true
  }

  ghost predicate Happens(db: Db, db': Db, e: Event) {
    match e
    case Message(call, env) => Checked(call.removal) && db' == Exec(db, call, env).1
    case Native(step) => NativeNext(db, db', step)
  }

  // While a removal is running, nothing else is.
  ghost predicate Exclusive(db: Db) {
    forall op, o {:trigger IsRunning(db, op), IsRunning(db, o)} ::
      IsRunning(db, op) && db.ops[op].intent.SourceRemoval? && IsRunning(db, o) ==> o == op
  }

  lemma NativeKeepsInv(db: Db, db': Db, step: Step)
    requires RemovalInv(db) && NativeNext(db, db', step)
    ensures RemovalInv(db')
  {
    NextKeepsInv(db, db', step);
    forall o ensures OnRecordAt(db', o) {
      assert OnRecordAt(db, o);
      if step.Private? && o != step.op { assert SameRows(db, db', o); }
    }
  }

  lemma NativeKeepsExclusive(db: Db, db': Db, step: Step)
    requires RemovalInv(db) && Exclusive(db) && NativeNext(db, db', step)
    ensures Exclusive(db')
  {
    forall op, o | IsRunning(db', op) && db'.ops[op].intent.SourceRemoval? && IsRunning(db', o) ensures o == op {
      assert OnRecordAt(db, op);
      assert IsRunning(db, op) && IsRunning(db, o);
    }
  }

  // A message touches no operation's record but its own.
  lemma OthersStay(db: Db, c: Call, env: Env, o: Op)
    requires o != c.removal.operationId
    ensures o in Exec(db, c, env).1.ops <==> o in db.ops
    ensures o in db.ops ==> Exec(db, c, env).1.ops[o] == db.ops[o]
  {
    if c.phase == Prepare || c.phase == Commit {
      EnterTouchesOwn(db, c, env, o);
    } else if c.phase == Abort {
      AbortTouchesOwn(db, c, o);
    }
  }

  lemma AbortTouchesOwn(db: Db, c: Call, o: Op)
    requires o != c.removal.operationId
    ensures o in AbortStep(db, c).1.ops <==> o in db.ops
    ensures o in db.ops ==> AbortStep(db, c).1.ops[o] == db.ops[o]
  {}

  lemma EnterTouchesOwn(db: Db, c: Call, env: Env, o: Op)
    requires (c.phase == Prepare || c.phase == Commit) && o != c.removal.operationId
    ensures o in EnterStep(db, c, env).1.ops <==> o in db.ops
    ensures o in db.ops ==> EnterStep(db, c, env).1.ops[o] == db.ops[o]
  {
    var guarded := Guard(db, c, env);
    if guarded.Ok? {
      var leased := db.(leases := guarded.value);
      if c.phase == Commit { CommitTouchesOwn(leased, c, env, o); } else { PrepareTouchesOwn(leased, c, o); }
    }
  }

  lemma CommitTouchesOwn(db: Db, c: Call, env: Env, o: Op)
    requires o != c.removal.operationId && c.removal.operationId in db.ops && c.grants.Some?
    ensures o in CommitStep(db, c, env).1.ops <==> o in db.ops
    ensures o in db.ops ==> CommitStep(db, c, env).1.ops[o] == db.ops[o]
  {}

  lemma PrepareTouchesOwn(db: Db, c: Call, o: Op)
    requires o != c.removal.operationId
    ensures o in PrepareStep(db, c).1.ops <==> o in db.ops
    ensures o in db.ops ==> PrepareStep(db, c).1.ops[o] == db.ops[o]
  {}

  // What a message leaves running was running with the same intent, unless it is the message's own id and
  // was not running before.
  lemma WasRunning(db: Db, c: Call, env: Env, o: Op)
    requires IsRunning(Exec(db, c, env).1, o) && (o == c.removal.operationId ==> IsRunning(db, o))
    ensures IsRunning(db, o) && Exec(db, c, env).1.ops[o].intent == db.ops[o].intent
  {
    if o == c.removal.operationId { OwnIntentStays(db, c, env); } else { OthersStay(db, c, env, o); }
  }

  // If its own id is newly running, it runs alone.
  lemma NewlyRunsAlone(db: Db, c: Call, env: Env, o: Op)
    requires RemovalInv(db) && !IsRunning(db, c.removal.operationId)
    requires IsRunning(Exec(db, c, env).1, c.removal.operationId) && IsRunning(Exec(db, c, env).1, o)
    ensures o == c.removal.operationId
  {
    NewlyRunning(db, c, env);
    if o != c.removal.operationId { OthersStay(db, c, env, o); }
  }

  lemma ExecKeepsExclusive(db: Db, c: Call, env: Env)
    requires RemovalInv(db) && Exclusive(db)
    ensures Exclusive(Exec(db, c, env).1)
  {
    var db' := Exec(db, c, env).1;
    forall op, o | IsRunning(db', op) && db'.ops[op].intent.SourceRemoval? && IsRunning(db', o) ensures o == op {
      ExecKeepsPairExclusive(db, c, env, op, o);
    }
  }

  lemma ExecKeepsPairExclusive(db: Db, c: Call, env: Env, op: Op, o: Op)
    requires RemovalInv(db) && Exclusive(db)
    requires IsRunning(Exec(db, c, env).1, op) && Exec(db, c, env).1.ops[op].intent.SourceRemoval?
    requires IsRunning(Exec(db, c, env).1, o)
    ensures o == op
  {
    if (op == c.removal.operationId || o == c.removal.operationId) && !IsRunning(db, c.removal.operationId) {
      NewlyRunsAlone(db, c, env, op);
      NewlyRunsAlone(db, c, env, o);
    } else {
      WasRunning(db, c, env, op);
      WasRunning(db, c, env, o);
    }
  }

  // A message that leaves its own id running, which was not, is a prepare that saw nothing else running.
  lemma NewlyRunning(db: Db, c: Call, env: Env)
    requires RemovalInv(db) && !IsRunning(db, c.removal.operationId)
    requires IsRunning(Exec(db, c, env).1, c.removal.operationId)
    ensures !OtherRunning(db, c.removal.operationId)
  {
    assert OnRecordAt(db, c.removal.operationId);
  }

  lemma OwnIntentStays(db: Db, c: Call, env: Env)
    requires c.removal.operationId in db.ops
    ensures c.removal.operationId in Exec(db, c, env).1.ops
    ensures Exec(db, c, env).1.ops[c.removal.operationId].intent == db.ops[c.removal.operationId].intent
  {
    if c.phase == Prepare || c.phase == Commit { EnterKeepsIntent(db, c, env); }
  }

  lemma EnterKeepsIntent(db: Db, c: Call, env: Env)
    requires (c.phase == Prepare || c.phase == Commit) && c.removal.operationId in db.ops
    ensures c.removal.operationId in EnterStep(db, c, env).1.ops
    ensures EnterStep(db, c, env).1.ops[c.removal.operationId].intent == db.ops[c.removal.operationId].intent
  {
    var guarded := Guard(db, c, env);
    if guarded.Ok? {
      var leased := db.(leases := guarded.value);
      if !CommitStep(leased, c, env).0.Refused? { CommitPublishes(leased, c, env); }
    }
  }

  /** A history may start from a new store. */
  lemma FreshMayStart(mode: nat)
    ensures RemovalInv(Runs.Fresh(mode)) && Exclusive(Runs.Fresh(mode))
  {
    Runs.FreshIsInv(mode);
  }

  ghost predicate EventAt(states: seq<Db>, events: seq<Event>, i: nat)
    requires |states| == |events| + 1 && i < |events|
  {
    Happens(states[i], states[i + 1], events[i])
  }

  ghost predicate IsHistory(states: seq<Db>, events: seq<Event>) {
    && |states| == |events| + 1
    && RemovalInv(states[0]) && Exclusive(states[0])
    && forall i: nat {:trigger EventAt(states, events, i)} | i < |events| :: EventAt(states, events, i)
  }

  /** In every reachable state a running removal is fenced, alone, and over a tree. */
  lemma {:induction false} HistoryKeepsInv(states: seq<Db>, events: seq<Event>, k: nat)
    requires IsHistory(states, events) && k < |states|
    ensures RemovalInv(states[k]) && Exclusive(states[k])
  {
    if k > 0 {
      HistoryKeepsInv(states, events, k - 1);
      assert EventAt(states, events, k - 1);
      match events[k - 1]
      case Message(call, env) =>
        ExecKeepsInv(states[k - 1], call, env);
        ExecKeepsExclusive(states[k - 1], call, env);
      case Native(step) =>
        NativeKeepsInv(states[k - 1], states[k], step);
        NativeKeepsExclusive(states[k - 1], states[k], step);
    }
  }

  lemma OutcomeStandsOneStep(db: Db, db': Db, e: Event, op: Op)
    requires RemovalInv(db) && Happens(db, db', e)
    requires op in db.ops && db.ops[op].status != Running
    ensures op in db'.ops && db'.ops[op] == db.ops[op]
  {
    assert OnRecordAt(db, op);
    match e
    case Message(call, env) =>
      if call.removal.operationId == op { MessageLeavesOutcome(db, call, env); } else { OthersStay(db, call, env, op); }
    case Native(step) => NativeLeavesOutcome(db, db', step, op);
  }

  lemma NativeLeavesOutcome(db: Db, db': Db, step: Step, op: Op)
    requires NativeNext(db, db', step)
    requires op in db.ops && db.ops[op].status != Running
    ensures op in db'.ops && db'.ops[op] == db.ops[op]
  {}

  lemma MessageLeavesOutcome(db: Db, c: Call, env: Env)
    requires RemovalInv(db)
    requires c.removal.operationId in db.ops && db.ops[c.removal.operationId].status != Running
    ensures Exec(db, c, env).1.ops == db.ops
  {
    assert OnRecordAt(db, c.removal.operationId);
  }

  /** Once recorded, an outcome never changes: at most one is recorded and at most one publishes. */
  lemma {:induction false} OutcomeIsFinal(states: seq<Db>, events: seq<Event>, op: Op, i: nat, j: nat)
    requires IsHistory(states, events) && i <= j < |states|
    requires op in states[i].ops && states[i].ops[op].status != Running
    ensures op in states[j].ops && states[j].ops[op] == states[i].ops[op]
    decreases j
  {
    if i < j {
      OutcomeIsFinal(states, events, op, i, j - 1);
      HistoryKeepsInv(states, events, j - 1);
      assert EventAt(states, events, j - 1);
      OutcomeStandsOneStep(states[j - 1], states[j], events[j - 1], op);
    }
  }

  /** While a removal is prepared, only its own commit can move a published file. */
  lemma PreparedFilesStand(db: Db, db': Db, e: Event, op: Op)
    requires RemovalInv(db) && Exclusive(db) && Happens(db, db', e)
    requires IsRunning(db, op) && db.ops[op].intent.SourceRemoval?
    requires !(e.Message? && e.call.phase == Commit && e.call.removal.operationId == op)
    ensures db'.files == db.files
  {
    assert OnRecordAt(db, op);
    match e
    case Message(call, env) =>
      if call.removal.operationId != op {
        FenceHoldsOthersOff(db, call, env);
      } else {
        OnlyCommitMovesFiles(db, call, env);
      }
    case Native(step) =>
  }
}
