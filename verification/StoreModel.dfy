/** The tables of the workspace store and what each of its calls does to them. */
module StoreModel {
  import opened Wrappers
  import opened Tree

  type Op = string

  datatype Status = Running | Applied | Rejected | Aborted

  // One file a source removal names, as its checked input states it; the path is a text.
  datatype Entry = Entry(path: string, revision: nat, mode: nat, size: nat, sha256: string)

  // A checked source-removal request: authority and head are carried as texts.
  datatype Removal = Removal(
    operationId: Op, authority: string, head: string, entries: seq<Entry>, principal: string, digest: string)

  // Two intents have the same canonical text exactly when they are equal.
  datatype Intent = Native(text: string) | SourceRemoval(removal: Removal)

  datatype Bound = Bound(digest: string, principal: string)

  // `observed` attests the revisions the operation captured, not those current when it ended.
  datatype Receipt = Receipt(
    operation: Op, status: Status, resources: set<Path>, code: string, observed: map<Path, nat>, bound: Option<Bound>)

  datatype Operation = Operation(owner: string, intent: Intent, status: Status, receipt: Option<Receipt>)

  datatype Lease = Lease(owner: string, claim: string, fence: int, expires: int, active: bool)

  datatype Db = Db(
    files: Files,
    staging: map<Op, Stage>,
    deps: map<Op, map<Path, nat>>,
    snapshots: map<Op, Files>,
    ops: map<Op, Operation>,
    fence: Option<Op>,
    leases: map<string, Lease>)

  function StageOf(db: Db, op: Op): Stage {
    if op in db.staging then db.staging[op] else map[]
  }

  function DepsOf(db: Db, op: Op): map<Path, nat> {
    if op in db.deps then db.deps[op] else map[]
  }

  // `source_db`: the operation's pinned snapshot, else the live tables.
  function Source(db: Db, op: Op): Files {
    if op in db.snapshots then db.snapshots[op] else db.files
  }

  // `file(path, operation)`: the operation's own staged rows over its source.
  function View(db: Db, op: Op, p: Path): Option<Node> {
    Overlay(Source(db, op), StageOf(db, op), p)
  }

  predicate IsRunning(db: Db, op: Op) {
    op in db.ops && db.ops[op].status == Running
  }

  // The dependency half of `validate`: every captured revision is still the published one.
  predicate Current(db: Db, op: Op) {
    forall p | p in DepsOf(db, op) :: Revision(db.files, p) == DepsOf(db, op)[p]
  }

  // `children(parent, operation)`, as a set: the code returns it sorted.
  function Children(db: Db, op: Op, d: Path): (names: set<Path>)
    ensures forall c :: c in names <==> c != [] && Parent(c) == d && View(db, op, c).Some?
  {
    set c | c in Source(db, op).Keys + StageOf(db, op).Keys && c != [] && Parent(c) == d && View(db, op, c).Some?
  }

  // INSERT OR IGNORE of the revision the operation's source holds.
  function Capture(db: Db, op: Op, p: Path): Db {
    if p in DepsOf(db, op) then db
    else db.(deps := db.deps[op := DepsOf(db, op)[p := Revision(Source(db, op), p)]])
  }

  predicate SameSort(a: Option<Node>, b: Option<Node>) {
    match (a, b)
    case (Some(File(_, _)), Some(File(_, _))) => true
    case (Some(Symlink(_, _)), Some(Symlink(_, _))) => true
    case (Some(Directory(_)), Some(Directory(_))) => true
    case (_, _) => false
  }

  // Why `stage` raises, if it does.
  predicate StageRefused(db: Db, op: Op, p: Path, row: Option<Node>) {
    || !ValidPath(p)
    || (row.Some? &&
          (|| !IsDir(View(db, op, Parent(p)))
           || (View(db, op, p).Some? && IsDir(View(db, op, p)) != IsDir(row))))
    || !Fits(row)
  }

  // `stage` captures the path, and its parent when the row changes the parent's membership…
  function StageCaptures(db: Db, op: Op, p: Path, row: Option<Node>): Db {
    var captured := Capture(db, op, p);
    if SameSort(View(db, op, p), row) then captured else Capture(captured, op, Parent(p))
  }

  // …and writes the row.
  function PutRow(db: Db, op: Op, p: Path, row: Option<Node>): Db {
    db.(staging := db.staging[op := StageOf(db, op)[p := row]])
  }

  function StageRow(db: Db, op: Op, p: Path, row: Option<Node>): Db {
    PutRow(StageCaptures(db, op, p, row), op, p, row)
  }

  function ReceiptOf(db: Db, op: Op, status: Status, resources: set<Path>, code: string): Receipt
    requires op in db.ops
  {
    var bound := match db.ops[op].intent
      case Native(_) => None
      case SourceRemoval(removal) => Some(Bound(removal.digest, removal.principal));
    Receipt(op, status, resources, code, DepsOf(db, op), bound)
  }

  // `finish`: record the receipt and drop the operation's private rows and snapshot.
  function Finish(db: Db, op: Op, status: Status, resources: set<Path>, code: string): Db
    requires op in db.ops
  {
    db.(ops := db.ops[op := db.ops[op].(status := status, receipt := Some(ReceiptOf(db, op, status, resources, code)))],
    staging := db.staging - {op},
    deps := db.deps - {op},
    snapshots := db.snapshots - {op})
  }

  // `changes`: the staged rows that differ from the published ones.
  function Changes(db: Db, op: Op): set<Path> {
    set p | p in StageOf(db, op) && StageOf(db, op)[p] != Lookup(db.files, p)
  }

  // The parents whose membership the changes alter.
  function Membership(db: Db, op: Op): set<Path> {
    set p | p in Changes(db, op) && !SameSort(Lookup(db.files, p), StageOf(db, op)[p]) :: Parent(p)
  }

  // The published rows after the first loop of `publish`.
  function WriteChanges(db: Db, op: Op): Files {
    map p | p in db.files.Keys + Changes(db, op) ::
      if p in Changes(db, op) then Row(StageOf(db, op)[p], Revision(db.files, p) + 1) else db.files[p]
  }

  // The published rows after the second loop: the parents that are directories move on once more.
  function PublishedFiles(db: Db, op: Op): Files {
    var written := WriteChanges(db, op);
    map p | p in written ::
      if p in Membership(db, op) && IsDir(Lookup(written, p)) then written[p].(revision := written[p].revision + 1)
      else written[p]
  }

  // `publish` once its checks have passed.
  function Publish(db: Db, op: Op): Db
    requires op in db.ops
  {
    Finish(db.(files := PublishedFiles(db, op)), op, Applied, Changes(db, op), "")
  }

  // `start` for an id with no row yet: `evidence` holds the paths whose read evidence is current.
  function Start(db: Db, op: Op, owner: string, intent: Intent, evidence: set<Path>): Db {
    db.(ops := db.ops[op := Operation(owner, intent, Running, None)],
    deps := db.deps[op := map p | p in evidence :: Revision(db.files, p)])
  }

  function Pin(db: Db, op: Op): Db {
    db.(snapshots := db.snapshots[op := db.files])
  }

  // A supervisor restart: pins are gone, leases are inactive, and every running operation is aborted.
  function Restarted(db: Db): Db {
    var running := set o | o in db.ops && db.ops[o].status == Running;
    db.(ops := map o | o in db.ops ::
      if o in running
      then db.ops[o].(status := Aborted, receipt := Some(ReceiptOf(db, o, Aborted, {}, "operation_interrupted")))
      else db.ops[o],
    staging := db.staging - running,
    deps := db.deps - running,
    snapshots := map[],
    leases := map r | r in db.leases :: db.leases[r].(active := false))
  }

  /** The invariant every reachable state satisfies. */

  ghost predicate OpInv(db: Db, op: Op) {
    var src, s, deps := Source(db, op), StageOf(db, op), DepsOf(db, op);
    && (forall p | p in deps :: deps[p] <= Revision(db.files, p))
    && (op in db.snapshots ==>
          && WellFormed(src, map[]) && Evolves(src, db.files)
          && AllCurrent(src, deps))
    && (op in db.snapshots || Current(db, op) ==> WellFormed(src, s) && Covered(src, s, deps))
  }

  ghost predicate ClosedOp(db: Db, op: Op) {
    op !in db.staging && op !in db.deps && op !in db.snapshots
  }

  ghost predicate Inv(db: Db) {
    && WellFormed(db.files, map[])
    && forall op {:trigger OpInv(db, op)} {:trigger ClosedOp(db, op)} {:trigger IsRunning(db, op)} ::
         if IsRunning(db, op) then OpInv(db, op) else ClosedOp(db, op)
  }
}
