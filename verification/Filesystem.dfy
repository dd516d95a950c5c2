/** The private mount of one admitted operation: the calls the kernel makes on it, each a
    transaction over the store's tables. */
module FilesystemModel {
  import opened Wrappers
  import opened Tree
  import opened StoreModel
  import opened Connection
  import opened Publication
  import opened Drafts
  import opened FileBytes
  import opened Moves

  // `Unhandled` is any exception that is not a FuseOSError: a Rejected raised by `stage`, or the
  // KeyError or TypeError of a missing handle, row or content.
  datatype Errno =
    | EACCES | ESTALE | ENOENT | EEXIST | EFBIG | EINVAL | ENOTDIR | EISDIR | ENOTEMPTY | Unhandled

  // What the uid, claim, lease and scratch rules of `mutation` say of one path during one call.
  datatype Access = Deny | Allow | AllowCapturing

  datatype Handle = Handle(path: Path, operation: Op, append: bool)

  datatype Flags = Flags(writable: bool, truncate: bool, append: bool)

  predicate Admitted(db: Db, op: Op, access: Path -> Access, p: Path) {
    IsRunning(db, op) && Current(db, op) && access(p) != Deny
  }

  // How `mutation` refuses: with ESTALE for what has gone stale, else for want of permission.
  function Barring(db: Db, op: Op): Errno {
    if IsRunning(db, op) && !Current(db, op) then ESTALE else EACCES
  }

  function AfterMutation(db: Db, op: Op, access: Path -> Access, p: Path): Db {
    if access(p) == AllowCapturing then Capture(db, op, p) else db
  }

  // Permission bits survive `& 0o777`.
  function Bits(mode: nat): nat { mode % 512 }

  // Of whatever the kernel passes, the nine low bits.
  lemma BitsAreLow(high: nat, low: nat)
    requires low < 0x200
    ensures Bits(high * 0x200 + low) == low
  {}

  predicate HasBytes(n: Option<Node>) {
    n.Some? && !n.value.Directory?
  }

  class Filesystem {
    const store: Store
    const operation: Op
    var handles: map<nat, Handle>
    var nextHandle: nat

    // The mount is created after the operation has pinned its source, and lives in its process.
    ghost predicate Ready()
      reads this, store
    {
      && Inv(store.db)
      && (IsRunning(store.db, operation) ==> operation in store.db.snapshots)
      && forall h | h in handles :: h <= nextHandle && handles[h].operation == operation
    }

    // Between calls no transaction is open.
    ghost predicate Valid()
      reads this, store
    {
      Ready() && store.db == store.committed
    }

    constructor (store: Store, operation: Op)
      requires store.db == store.committed && Inv(store.db)
      requires IsRunning(store.db, operation) && operation in store.db.snapshots
      ensures Valid() && this.store == store && this.operation == operation
      ensures handles == map[] && nextHandle == 0
    {
      this.store, this.operation := store, operation;
      handles, nextHandle := map[], 0;
    }

    // A call of a running operation starts from a sound draft of its own.
    lemma StartsSound(db: Db)
      requires Inv(db) && IsRunning(db, operation) && operation in db.snapshots
      ensures Draft(db, db, operation) && Sound(db, operation)
    {
      assert OpInv(db, operation);
      NoDraft(db, operation);
    }

    method Mutation(p: Path, access: Path -> Access) returns (refused: Option<Errno>)
      modifies store`db
      ensures refused.None? <==> Admitted(old(store.db), operation, access, p)
      ensures refused.Some? ==> refused.value == Barring(old(store.db), operation)
      ensures store.db ==
        if refused.None? then AfterMutation(old(store.db), operation, access, p) else old(store.db)
    {
      if !IsRunning(store.db, operation) { return Some(EACCES); }
      if !Current(store.db, operation) { return Some(ESTALE); }
      match access(p)
      case Deny => return Some(EACCES);
      case Allow => return None;
      case AllowCapturing =>
        store.CapturePath(operation, p);
        return None;
    }

    lemma MutationKeepsSound(db0: Db, db: Db, access: Path -> Access, p: Path)
      requires Draft(db0, db, operation) && Sound(db, operation)
      ensures Draft(db0, AfterMutation(db, operation, access, p), operation)
      ensures Sound(AfterMutation(db, operation, access, p), operation)
      ensures forall q {:trigger View(AfterMutation(db, operation, access, p), operation, q)} ::
        View(AfterMutation(db, operation, access, p), operation, q) == View(db, operation, q)
    {
      CaptureKeepsSound(db0, db, operation, p);
    }

    // Leaves a `with store.db` block normally.
    method CommitCall(ghost db0: Db)
      requires Inv(db0) && IsRunning(db0, operation) && operation in db0.snapshots
      requires Draft(db0, store.db, operation) && Sound(store.db, operation)
      modifies store`committed
      ensures store.committed == store.db && Inv(store.db)
      ensures PrivateStep(db0, store.db, operation)
    {
      store.Commit();
      PrivateKeepsInv(db0, store.db, operation);
    }

    // Stages one row for a call that has been let in, and ends the call.
    method StageAndCommit(ghost db0: Db, p: Path, row: Option<Node>) returns (r: Result<(), Errno>)
      requires Inv(db0) && IsRunning(db0, operation) && operation in db0.snapshots
      requires Draft(db0, store.db, operation) && Sound(store.db, operation) && store.committed == db0
      requires row.None? && IsDir(View(store.db, operation, p)) ==> Children(store.db, operation, p) == {}
      modifies store
      ensures store.committed == store.db && Inv(store.db)
      ensures r.Ok? <==> !StageRefused(old(store.db), operation, p, row)
      ensures r.Err? ==> r.error == Unhandled && store.db == db0
      ensures r.Ok? ==> PrivateStep(db0, store.db, operation)
      ensures r.Ok? ==> OnlyAt(old(store.db), store.db, operation, p, row)
    {
      ghost var db1 := store.db;
      var ok := store.Stage(operation, p, row);
      if !ok {
        store.Rollback();
        return Err(Unhandled);
      }
      StageKeepsSound(db0, db1, operation, p, row);
      CommitCall(db0);
      return Ok(());
    }

    method Mkdir(p: Path, mode: nat, access: Path -> Access) returns (r: Result<(), Errno>)
      requires Valid()
      modifies store
      ensures Valid()
      ensures r.Err? ==> store.db == old(store.db)
      ensures r.Ok? <==>
        && Admitted(old(store.db), operation, access, p)
        && View(old(store.db), operation, p).None?
        && ValidPath(p) && IsDir(View(old(store.db), operation, Parent(p)))
      ensures r.Ok? ==> PrivateStep(old(store.db), store.db, operation)
      ensures r.Ok? ==> OnlyAt(old(store.db), store.db, operation, p, Some(Directory(Bits(mode))))
      ensures !Admitted(old(store.db), operation, access, p) ==> r == Err(Barring(old(store.db), operation))
      ensures Admitted(old(store.db), operation, access, p) && r.Err? ==>
        r.error == if View(old(store.db), operation, p).Some? then EEXIST else Unhandled
    {
      ghost var db0 := store.db;
      var refused := Mutation(p, access);
      if refused.Some? {
        store.Rollback();
        return Err(refused.value);
      }
      StartsSound(db0);
      MutationKeepsSound(db0, db0, access, p);
      if View(store.db, operation, p).Some? {
        store.Rollback();
        return Err(EEXIST);
      }
      r := StageAndCommit(db0, p, Some(Directory(Bits(mode))));
    }

    method Unlink(p: Path, access: Path -> Access) returns (r: Result<(), Errno>)
      requires Valid()
      modifies store
      ensures Valid()
      ensures r.Err? ==> store.db == old(store.db)
      ensures r.Ok? <==>
        && Admitted(old(store.db), operation, access, p)
        && View(old(store.db), operation, p).Some? && !IsDir(View(old(store.db), operation, p))
        && ValidPath(p)
      ensures r.Ok? ==> PrivateStep(old(store.db), store.db, operation)
      ensures r.Ok? ==> OnlyAt(old(store.db), store.db, operation, p, None)
      ensures !Admitted(old(store.db), operation, access, p) ==> r == Err(Barring(old(store.db), operation))
      ensures Admitted(old(store.db), operation, access, p) ==>
        && (View(old(store.db), operation, p).None? ==> r == Err(ENOENT))
        && (IsDir(View(old(store.db), operation, p)) ==> r == Err(EISDIR))
    {
      ghost var db0 := store.db;
      var refused := Mutation(p, access);
      if refused.Some? {
        store.Rollback();
        return Err(refused.value);
      }
      StartsSound(db0);
      MutationKeepsSound(db0, db0, access, p);
      var row := View(store.db, operation, p);
      if row.None? || IsDir(row) {
        store.Rollback();
        return Err(if row.None? then ENOENT else EISDIR);
      }
      r := StageAndCommit(db0, p, None);
    }

    method Rmdir(p: Path, access: Path -> Access) returns (r: Result<(), Errno>)
      requires Valid()
      modifies store
      ensures Valid()
      ensures r.Err? ==> store.db == old(store.db)
      ensures r.Ok? <==>
        && Admitted(old(store.db), operation, access, p)
        && IsDir(View(old(store.db), operation, p)) && Children(old(store.db), operation, p) == {}
        && ValidPath(p)
      ensures r.Ok? ==> PrivateStep(old(store.db), store.db, operation)
      ensures r.Ok? ==> OnlyAt(old(store.db), store.db, operation, p, None)
      ensures !Admitted(old(store.db), operation, access, p) ==> r == Err(Barring(old(store.db), operation))
      ensures Admitted(old(store.db), operation, access, p) ==>
        && (View(old(store.db), operation, p).None? ==> r == Err(ENOENT))
        && (View(old(store.db), operation, p).Some? && !IsDir(View(old(store.db), operation, p)) ==> r == Err(ENOTDIR))
        && (IsDir(View(old(store.db), operation, p)) ==>
              Children(old(store.db), operation, p) == {} || r == Err(ENOTEMPTY))
    {
      ghost var db0 := store.db;
      var refused := Mutation(p, access);
      if refused.Some? {
        store.Rollback();
        return Err(refused.value);
      }
      StartsSound(db0);
      MutationKeepsSound(db0, db0, access, p);
      SameChildren(db0, store.db, p);
      var row := View(store.db, operation, p);
      if row.None? || !IsDir(row) {
        store.Rollback();
        return Err(if row.None? then ENOENT else ENOTDIR);
      }
      if Children(store.db, operation, p) != {} {
        store.Rollback();
        return Err(ENOTEMPTY);
      }
      ghost var db1 := store.db;
      store.CapturePath(operation, p);
      CaptureKeepsSound(db0, db1, operation, p);
      SameChildren(db0, store.db, p);
      r := StageAndCommit(db0, p, None);
    }

    lemma SameChildren(db: Db, db': Db, d: Path)
      requires forall q {:trigger View(db', operation, q)} :: View(db', operation, q) == View(db, operation, q)
      ensures Children(db', operation, d) == Children(db, operation, d)
    {}

    method Chmod(p: Path, mode: nat, access: Path -> Access) returns (r: Result<(), Errno>)
      requires Valid()
      modifies store
      ensures Valid()
      ensures r.Err? ==> store.db == old(store.db)
      ensures r.Ok? <==>
        && Admitted(old(store.db), operation, access, p)
        && View(old(store.db), operation, p).Some? && p != []
      ensures r.Ok? ==> PrivateStep(old(store.db), store.db, operation)
      ensures r.Ok? ==>
        OnlyAt(old(store.db), store.db, operation, p,
               Some(View(old(store.db), operation, p).value.(mode := Bits(mode))))
      ensures !Admitted(old(store.db), operation, access, p) ==> r == Err(Barring(old(store.db), operation))
      ensures Admitted(old(store.db), operation, access, p) && r.Err? ==> r.error == Unhandled
    {
      ghost var db0 := store.db;
      var refused := Mutation(p, access);
      if refused.Some? {
        store.Rollback();
        return Err(refused.value);
      }
      StartsSound(db0);
      MutationKeepsSound(db0, db0, access, p);
      var row := View(store.db, operation, p);
      if row.None? {
        store.Rollback();
        return Err(Unhandled);
      }
      assert Placed(Source(db0, operation), StageOf(db0, operation), p);
      r := StageAndCommit(db0, p, Some(row.value.(mode := Bits(mode))));
    }

    method Write(fh: nat, data: seq<byte>, offset: int, access: Path -> Access) returns (r: Result<nat, Errno>)
      requires Valid()
      modifies store
      ensures Valid()
      ensures r.Err? ==> store.db == old(store.db)
      ensures r.Ok? <==> WriteAccepted(old(store.db), fh, |data|, offset, access)
      ensures r.Ok? ==> r.value == |data| && PrivateStep(old(store.db), store.db, operation)
      ensures r.Ok? ==>
        var p, before := handles[fh].path, View(old(store.db), operation, handles[fh].path).value;
        OnlyAt(old(store.db), store.db, operation, p,
               Some(File(Written(before.bytes, WriteOffset(old(store.db), fh, offset), data), before.mode)))
      ensures fh in handles && !Admitted(old(store.db), operation, access, handles[fh].path) ==>
        r == Err(Barring(old(store.db), operation))
      ensures fh in handles && Admitted(old(store.db), operation, access, handles[fh].path) && r.Err? ==>
        r.error == if PastLimit(old(store.db), fh, offset, |data|) then EFBIG else Unhandled
    {
      ghost var db0 := store.db;
      if fh !in handles { return Err(Unhandled); }
      var p := handles[fh].path;
      var refused := Mutation(p, access);
      if refused.Some? {
        store.Rollback();
        return Err(refused.value);
      }
      StartsSound(db0);
      MutationKeepsSound(db0, db0, access, p);
      if handles[fh].operation != operation {
        assert false;
      }
      var row := View(store.db, operation, p);
      if row.None? {
        store.Rollback();
        return Err(Unhandled);
      }
      if row.value.Directory? {
        // len(None) or None[:offset], unless the size check comes first.
        store.Rollback();
        return Err(if !handles[fh].append && (offset < 0 || offset + |data| > MAX_FILE) then EFBIG else Unhandled);
      }
      var content := row.value.bytes;
      var at := if handles[fh].append then |content| else offset;
      if at < 0 || at + |data| > MAX_FILE {
        store.Rollback();
        return Err(EFBIG);
      }
      assert Placed(Source(db0, operation), StageOf(db0, operation), p);
      WrittenAt(content, at, data);
      var staged := StageAndCommit(db0, p, Some(File(Written(content, at, data), row.value.mode)));
      if staged.Err? { return Err(Unhandled); }
      return Ok(|data|);
    }

    // The size check, which a directory reaches only with an offset of its own.
    ghost predicate PastLimit(db: Db, fh: nat, offset: int, length: nat)
      requires fh in handles
      reads this
    {
      var row := View(db, operation, handles[fh].path);
      && row.Some? && (row.value.Directory? ==> !handles[fh].append)
      && var at := if handles[fh].append then |row.value.bytes| else offset;
         at < 0 || at + length > MAX_FILE
    }

    // Where a write lands: the end of the file on an append handle, else the given offset.
    ghost function WriteOffset(db: Db, fh: nat, offset: int): int
      requires fh in handles && HasBytes(View(db, operation, handles[fh].path))
      reads this
    {
      if handles[fh].append then |View(db, operation, handles[fh].path).value.bytes| else offset
    }

    ghost predicate WriteAccepted(db: Db, fh: nat, length: nat, offset: int, access: Path -> Access)
      reads this
    {
      && fh in handles && Admitted(db, operation, access, handles[fh].path)
      && HasBytes(View(db, operation, handles[fh].path))
      && 0 <= WriteOffset(db, fh, offset) && WriteOffset(db, fh, offset) + length <= MAX_FILE
    }

    method Truncate(p: Path, length: int, fh: Option<nat>, access: Path -> Access) returns (r: Result<(), Errno>)
      requires Valid()
      modifies store
      ensures Valid()
      ensures r.Err? ==> store.db == old(store.db)
      ensures r.Ok? <==>
        && HasHandle(fh) && Admitted(old(store.db), operation, access, TruncatedPath(p, fh))
        && 0 <= length <= MAX_FILE
        && HasBytes(View(old(store.db), operation, TruncatedPath(p, fh)))
      ensures r.Ok? ==> PrivateStep(old(store.db), store.db, operation)
      ensures r.Ok? ==>
        var before := View(old(store.db), operation, TruncatedPath(p, fh)).value;
        OnlyAt(old(store.db), store.db, operation, TruncatedPath(p, fh),
               Some(File(Truncated(before.bytes, length), before.mode)))
      ensures HasHandle(fh) && !Admitted(old(store.db), operation, access, TruncatedPath(p, fh)) ==>
        r == Err(Barring(old(store.db), operation))
      ensures HasHandle(fh) && Admitted(old(store.db), operation, access, TruncatedPath(p, fh)) ==>
        (r.Err? ==> r.error == if 0 <= length <= MAX_FILE then Unhandled else EFBIG)
    {
      ghost var db0 := store.db;
      if fh.Some? && fh.value !in handles { return Err(Unhandled); }
      var path := if fh.Some? then handles[fh.value].path else p;
      var refused := Mutation(path, access);
      if refused.Some? {
        store.Rollback();
        return Err(refused.value);
      }
      StartsSound(db0);
      MutationKeepsSound(db0, db0, access, path);
      if fh.Some? && handles[fh.value].operation != operation {
        assert false;
      }
      var row := View(store.db, operation, path);
      if length < 0 || length > MAX_FILE {
        store.Rollback();
        return Err(EFBIG);
      }
      if row.None? || row.value.Directory? {
        store.Rollback();
        return Err(Unhandled);
      }
      assert Placed(Source(db0, operation), StageOf(db0, operation), path);
      r := StageAndCommit(db0, path, Some(File(Truncated(row.value.bytes, length), row.value.mode)));
    }

    // No handle is asked for, or one that is open.
    ghost predicate HasHandle(fh: Option<nat>)
      reads this
    {
      fh.Some? ==> fh.value in handles
    }

    ghost function TruncatedPath(p: Path, fh: Option<nat>): Path
      reads this
    {
      if fh.Some? && fh.value in handles then handles[fh.value].path else p
    }

    method Read(size: nat, offset: nat, fh: nat) returns (r: Result<seq<byte>, Errno>)
      requires Valid()
      modifies store
      ensures Valid()
      ensures r.Err? ==> store.db == old(store.db)
      ensures r.Ok? <==>
        && IsRunning(old(store.db), operation) && fh in handles
        && HasBytes(View(old(store.db), operation, handles[fh].path))
      ensures r.Ok? ==>
        var bytes := View(old(store.db), operation, handles[fh].path).value.bytes;
        && |r.value| == Min(size, if offset < |bytes| then |bytes| - offset else 0)
        && forall i | 0 <= i < |r.value| :: r.value[i] == bytes[offset + i]
      ensures !IsRunning(old(store.db), operation) ==> r == Err(EACCES)
      ensures r.Ok? ==> store.db == Capture(old(store.db), operation, handles[fh].path)
      ensures r.Ok? ==> PrivateStep(old(store.db), store.db, operation)
      ensures forall q {:trigger View(store.db, operation, q)} ::
        View(store.db, operation, q) == View(old(store.db), operation, q)
    {
      ghost var db0 := store.db;
      if !IsRunning(store.db, operation) { return Err(EACCES); }
      if fh !in handles { return Err(Unhandled); }
      if handles[fh].operation != operation {
        assert false;
      }
      StartsSound(db0);
      var row := View(store.db, operation, handles[fh].path);
      if row.None? || row.value.Directory? { return Err(Unhandled); }
      store.CapturePath(operation, handles[fh].path);
      CaptureKeepsSound(db0, db0, operation, handles[fh].path);
      CommitCall(db0);
      SliceAt(row.value.bytes, offset, size);
      return Ok(Slice(row.value.bytes, offset, size));
    }

    method Release(fh: nat)
      requires Valid()
      modifies this
      ensures Valid() && nextHandle == old(nextHandle)
      ensures handles == old(handles) - {fh}
    {
      handles := handles - {fh};
    }

    // The children of a directory as a list without repeats, in some order.
    method ListChildren(d: Path) returns (names: seq<Path>)
      ensures Distinct(names) && forall c :: c in names <==> c in Children(store.db, operation, d)
    {
      names := [];
      var rest := Children(store.db, operation, d);
      while rest != {}
        invariant Distinct(names) && rest <= Children(store.db, operation, d)
        invariant forall c :: c in names <==> c in Children(store.db, operation, d) - rest
        decreases |rest|
      {
        var c :| c in rest;
        assert c !in names;
        names, rest := names + [c], rest - {c};
      }
    }

    // Everything `rename` asks before it walks the subtree.
    method RenameChecks(ghost db0: Db, from: Path, to: Path, access: Path -> Access) returns (refused: Option<Errno>)
      requires db0 == store.db && Inv(db0)
      requires IsRunning(db0, operation) ==> operation in db0.snapshots
      modifies store`db
      ensures refused.None? ==> Admitted(db0, operation, access, from) && access(to) != Deny
      ensures !Admitted(db0, operation, access, from) ==> refused == Some(Barring(db0, operation))
      ensures refused.None? ==> Draft(db0, store.db, operation) && Sound(store.db, operation)
      ensures refused.None? ==> StageOf(store.db, operation) == StageOf(db0, operation)
      ensures refused.None? ==> Passes(RenameVerdict(db0, operation, from, to))
      ensures refused.None? && from != to && IsDir(View(db0, operation, to)) ==> to in DepsOf(store.db, operation)
      ensures Clear(db0, operation, from, to, access) ==>
        && (refused.None? <==> Passes(RenameVerdict(db0, operation, from, to)))
        && (refused.Some? ==> refused.value == ErrnoOf(RenameVerdict(db0, operation, from, to)))
        && (refused.None? ==> Current(store.db, operation))
    {
      refused := LetBothIn(db0, from, to, access);
      if refused.Some? { return; }
      SameVerdict(db0, store.db, from, to);
      var row := View(store.db, operation, from);
      if row.None? { return Some(ENOENT); }
      if from == to { return None; }
      if from != [] && from < to { return Some(EINVAL); }
      refused := CheckTarget(db0, to, row);
    }

    // The two names, before anything is looked up.
    method LetBothIn(ghost db0: Db, from: Path, to: Path, access: Path -> Access) returns (refused: Option<Errno>)
      requires db0 == store.db && Inv(db0)
      requires IsRunning(db0, operation) ==> operation in db0.snapshots
      modifies store`db
      ensures refused.None? ==> Admitted(db0, operation, access, from) && access(to) != Deny
      ensures !Admitted(db0, operation, access, from) ==> refused == Some(Barring(db0, operation))
      ensures refused.None? ==> Draft(db0, store.db, operation) && Sound(store.db, operation)
      ensures refused.None? ==> StageOf(store.db, operation) == StageOf(db0, operation)
      ensures Current(db0, operation) && LetsIn(db0, operation, access, from) && LetsIn(db0, operation, access, to) ==>
        refused.None? && Current(store.db, operation)
    {
      if !IsRunning(store.db, operation) { return Some(EACCES); }
      StartsSound(db0);
      refused := LetIn(db0, from, access);
      if refused.Some? { return; }
      refused := LetIn(db0, to, access);
    }

    // What stands under the new name.
    method CheckTarget(ghost db0: Db, to: Path, row: Option<Node>) returns (refused: Option<Errno>)
      requires Draft(db0, store.db, operation) && Sound(store.db, operation)
      requires StageOf(store.db, operation) == StageOf(db0, operation)
      requires row.Some?
      modifies store`db
      ensures refused.None? ==> Draft(db0, store.db, operation) && Sound(store.db, operation)
      ensures refused.None? ==> StageOf(store.db, operation) == StageOf(db0, operation)
      ensures refused == Blocked(row, View(db0, operation, to), Children(db0, operation, to) == {})
      ensures refused.None? && IsDir(View(db0, operation, to)) ==> to in DepsOf(store.db, operation)
      ensures Unmoved(db0, operation, to) && Current(old(store.db), operation) ==> Current(store.db, operation)
    {
      var target := View(store.db, operation, to);
      if target.Some? {
        if IsDir(row) != IsDir(target) { return Some(if IsDir(row) then ENOTDIR else EISDIR); }
        if IsDir(target) {
          CaptureIn(db0, to);
          SameChildren(db0, store.db, to);
          if Children(store.db, operation, to) != {} { return Some(ENOTEMPTY); }
        }
      }
      return None;
    }

    // `mutation` inside a call that has begun.
    method LetIn(ghost db0: Db, p: Path, access: Path -> Access) returns (refused: Option<Errno>)
      requires Draft(db0, store.db, operation) && Sound(store.db, operation)
      modifies store`db
      ensures refused.None? ==> Draft(db0, store.db, operation) && Sound(store.db, operation)
      ensures refused.None? ==> StageOf(store.db, operation) == StageOf(old(store.db), operation)
      ensures refused.None? <==> Admitted(old(store.db), operation, access, p)
      ensures refused.Some? ==> refused.value == Barring(old(store.db), operation)
      ensures refused.None? ==> DepsOf(old(store.db), operation).Keys <= DepsOf(store.db, operation).Keys
      ensures LetsIn(db0, operation, access, p) && Current(old(store.db), operation) ==>
        refused.None? && Current(store.db, operation)
    {
      ghost var db1 := store.db;
      refused := Mutation(p, access);
      if refused.Some? { return; }
      MutationKeepsSound(db0, db1, access, p);
      CaptureKeepsDraft(db0, db1, operation, p);
    }

    // `capture` inside a call that has begun.
    method CaptureIn(ghost db0: Db, p: Path)
      requires Draft(db0, store.db, operation) && Sound(store.db, operation)
      modifies store`db
      ensures Draft(db0, store.db, operation) && Sound(store.db, operation)
      ensures StageOf(store.db, operation) == StageOf(old(store.db), operation)
      ensures DepsOf(store.db, operation).Keys == DepsOf(old(store.db), operation).Keys + {p}
      ensures Revision(Source(db0, operation), p) == Revision(db0.files, p) && Current(old(store.db), operation) ==>
        Current(store.db, operation)
    {
      ghost var db1 := store.db;
      store.CapturePath(operation, p);
      CaptureKeepsSound(db0, db1, operation, p);
      CaptureKeepsDraft(db0, db1, operation, p);
    }

    // `stage` inside a call that has begun.
    method StageIn(ghost db0: Db, p: Path, row: Option<Node>) returns (ok: bool)
      requires Draft(db0, store.db, operation)
      requires Covered(Source(db0, operation), StageOf(store.db, operation), DepsOf(store.db, operation))
      modifies store`db
      ensures ok <==> !StageRefused(old(store.db), operation, p, row)
      ensures Draft(db0, store.db, operation)
      ensures Covered(Source(db0, operation), StageOf(store.db, operation), DepsOf(store.db, operation))
      ensures ok ==> StageOf(store.db, operation) == StageOf(old(store.db), operation)[p := row]
    {
      ghost var db1 := store.db;
      ok := store.Stage(operation, p, row);
      if ok { StageKeepsDraft(db0, db1, operation, p, row); }
    }

    method Rename(from: Path, to: Path, access: Path -> Access) returns (r: Result<(), Errno>)
      requires Valid()
      modifies this, store
      ensures Valid() && nextHandle == old(nextHandle)
      ensures r.Err? ==> store.db == old(store.db) && handles == old(handles)
      ensures r.Ok? ==> RenameVerdict(old(store.db), operation, from, to) in {Move, Nothing}
      ensures r.Ok? ==> Admitted(old(store.db), operation, access, from) && access(to) != Deny
      ensures !Admitted(old(store.db), operation, access, from) ==> r == Err(Barring(old(store.db), operation))
      ensures r.Ok? && from != to ==>
        LetsMove(old(store.db), operation, from, to, access) && MovesWhatItSaw(old(store.db), operation, from, to)
      ensures r.Ok? ==> PrivateStep(old(store.db), store.db, operation)
      ensures r.Ok? && from == to ==>
        StageOf(store.db, operation) == StageOf(old(store.db), operation) && handles == old(handles)
      ensures r.Ok? && from != to ==>
        && MovedAll(old(store.db), store.db, operation, from, to)
        && handles == RekeyHandles(old(handles), operation, from, to)
      ensures Clear(old(store.db), operation, from, to, access) ==>
        && (r.Ok? <==> RenameVerdict(old(store.db), operation, from, to) in {Move, Nothing})
        && (r.Err? ==> r.error == ErrnoOf(RenameVerdict(old(store.db), operation, from, to)))
    {
      ghost var db0 := store.db;
      var refused := RenameChecks(db0, from, to, access);
      if refused.Some? {
        store.Rollback();
        return Err(refused.value);
      }
      StartsSound(db0);
      if from == to {
        CommitCall(db0);
        return Ok(());
      }
      refused := MoveSubtree(db0, from, to, access);
      if refused.Some? {
        store.Rollback();
        return Err(refused.value);
      }
      CommitCall(db0);
      handles := RekeyHandles(handles, operation, from, to);
      return Ok(());
    }

    // Both loops: the walk, and the moves of what it found.
    method MoveSubtree(ghost db0: Db, from: Path, to: Path, access: Path -> Access) returns (refused: Option<Errno>)
      requires Inv(db0) && IsRunning(db0, operation) && operation in db0.snapshots
      requires Draft(db0, store.db, operation) && Sound(store.db, operation)
      requires StageOf(store.db, operation) == StageOf(db0, operation)
      requires Walks(RenameVerdict(db0, operation, from, to))
      requires IsDir(View(db0, operation, to)) ==> to in DepsOf(store.db, operation)
      modifies store`db
      ensures refused.None? ==> RenameVerdict(db0, operation, from, to) == Move
      ensures refused.None? ==> Draft(db0, store.db, operation) && Sound(store.db, operation)
      ensures refused.None? ==> MovedAll(db0, store.db, operation, from, to)
      ensures refused.None? ==>
        LetsMove(db0, operation, from, to, access) && MovesWhatItSaw(db0, operation, from, to)
      ensures Clear(db0, operation, from, to, access) && Current(old(store.db), operation) ==>
        && (refused.None? <==> RenameVerdict(db0, operation, from, to) == Move)
        && (refused.Some? ==> refused.value == Unhandled)
    {
      ghost var db1 := store.db;
      var paths;
      paths, refused := WalkSubtree(db0, from, to, access);
      if refused.Some? { return; }
      SawWhatMoves(db0, db1, from, to, paths);
      var ok := MoveRows(db0, from, to, paths);
      if !ok { return Some(Unhandled); }
    }

    // The first loop: let in and capture every path of the subtree, in both places.
    method WalkSubtree(ghost db0: Db, from: Path, to: Path, access: Path -> Access)
      returns (paths: seq<Path>, refused: Option<Errno>)
      requires Draft(db0, store.db, operation) && Sound(store.db, operation)
      requires StageOf(store.db, operation) == StageOf(db0, operation)
      requires View(db0, operation, from).Some?
      requires Inv(db0) && IsRunning(db0, operation) && operation in db0.snapshots
      modifies store`db
      ensures refused.None? ==> Draft(db0, store.db, operation) && Sound(store.db, operation)
      ensures refused.None? ==> StageOf(store.db, operation) == StageOf(db0, operation)
      ensures refused.None? ==>
        Current(old(store.db), operation) && UnmovedUpTo(db0, operation, paths, |paths| - 1)
      ensures refused.None? ==> Worklist(db0, operation, from, paths, |paths|)
      ensures refused.None? ==> LetsMove(db0, operation, from, to, access)
      ensures Clear(db0, operation, from, to, access) && Current(old(store.db), operation) ==> refused.None?
    {
      paths, refused := [from], None;
      WalkStarts(db0, old(store.db), from, to, access);
      var i := 0;
      while i < |paths|
        invariant i <= |paths| && refused.None? && (i == 0 ==> store.db == old(store.db))
        invariant Walked(db0, old(store.db), store.db, operation, from, to, access, paths, i)
        invariant Clear(db0, operation, from, to, access) && Current(old(store.db), operation) ==>
          Current(store.db, operation)
        decreases |Subtree(db0, operation, from)| - i
      {
        paths, refused := WalkTurn(db0, old(store.db), from, to, paths, i, access);
        if refused.Some? { return; }
        i := i + 1;
      }
      WalkEnds(db0, old(store.db), store.db, from, to, access, paths);
    }

    lemma WalkStarts(db0: Db, start: Db, from: Path, to: Path, access: Path -> Access)
      requires View(db0, operation, from).Some?
      requires Draft(db0, start, operation) && Sound(start, operation)
      requires StageOf(start, operation) == StageOf(db0, operation)
      ensures Walked(db0, start, start, operation, from, to, access, [from], 0)
    {}

    lemma WalkEnds(db0: Db, start: Db, db: Db, from: Path, to: Path, access: Path -> Access, paths: seq<Path>)
      requires Walked(db0, start, db, operation, from, to, access, paths, |paths|)
      ensures Draft(db0, db, operation) && Sound(db, operation) && StageOf(db, operation) == StageOf(db0, operation)
      ensures Worklist(db0, operation, from, paths, |paths|) && LetsMove(db0, operation, from, to, access)
      ensures Current(start, operation) && UnmovedUpTo(db0, operation, paths, |paths| - 1)
    {
      AllLetIn(db0, from, to, paths, access);
    }

    // One turn of the first loop, and where it leaves the list.
    method WalkTurn(
        ghost db0: Db, ghost start: Db, from: Path, to: Path, paths: seq<Path>, i: nat, access: Path -> Access)
      returns (longer: seq<Path>, refused: Option<Errno>)
      requires Inv(db0) && IsRunning(db0, operation) && operation in db0.snapshots
      requires i < |paths| && Walked(db0, start, store.db, operation, from, to, access, paths, i)
      requires i == 0 ==> store.db == start
      modifies store`db
      ensures refused.None? ==> i < |Subtree(db0, operation, from)| && i < |longer|
      ensures refused.None? ==> Walked(db0, start, store.db, operation, from, to, access, longer, i + 1)
      ensures Clear(db0, operation, from, to, access) && Current(old(store.db), operation) ==>
        refused.None? && Current(store.db, operation)
    {
      ghost var before := store.db;
      var found;
      longer := paths;
      found, refused := WalkStep(db0, from, to, paths[i], access);
      if refused.Some? { return; }
      DistinctFits(paths, Subtree(db0, operation, from));
      WalkOne(db0, operation, from, paths, i, found);
      longer := paths + found;
      CurrentIsUnmoved(db0, before, paths, i);
      StillUnmoved(db0, paths, found, i);
      OneMoreLetIn(from, to, access, paths, found, i);
      OneMoreCaptured(paths, found, i, DepsOf(before, operation), DepsOf(store.db, operation));
      WalksOn(db0, start, store.db, from, to, access, longer, i);
    }

    // What a current draft of a pinned operation has captured, no peer has moved.
    lemma CurrentIsUnmoved(db0: Db, db: Db, paths: seq<Path>, n: nat)
      requires Inv(db0) && IsRunning(db0, operation) && operation in db0.snapshots
      requires Draft(db0, db, operation) && Current(db, operation)
      requires CapturedUpTo(paths, n, DepsOf(db, operation))
      ensures UnmovedUpTo(db0, operation, paths, n)
    {
      assert OpInv(db0, operation);
    }

    // A walk that ends has found nothing moved by a peer but perhaps the path it came to last.
    lemma SawWhatMoves(db0: Db, db: Db, from: Path, to: Path, paths: seq<Path>)
      requires Inv(db0) && IsRunning(db0, operation) && operation in db0.snapshots
      requires Draft(db0, db, operation) && Current(db, operation)
      requires IsDir(View(db0, operation, to)) ==> to in DepsOf(db, operation)
      requires Worklist(db0, operation, from, paths, |paths|) && UnmovedUpTo(db0, operation, paths, |paths| - 1)
      ensures MovesWhatItSaw(db0, operation, from, to)
    {
      assert OpInv(db0, operation);
      var last := paths[|paths| - 1];
      forall p | p in Subtree(db0, operation, from) && p != last ensures Unmoved(db0, operation, p) {
        WalkIsComplete(db0, operation, from, paths, p);
      }
      if last == from {
        forall p | p in Subtree(db0, operation, from) ensures p == from {
          WalkIsComplete(db0, operation, from, paths, p);
        }
      }
      assert last in Subtree(db0, operation, from);
    }

    // The walk has asked for every path that moves.
    lemma AllLetIn(db: Db, from: Path, to: Path, paths: seq<Path>, access: Path -> Access)
      requires WellFormed(Source(db, operation), StageOf(db, operation))
      requires Worklist(db, operation, from, paths, |paths|)
      requires LetInUpTo(from, to, paths, |paths|, access)
      ensures LetsMove(db, operation, from, to, access)
    {
      forall p | p in Subtree(db, operation, from) ensures BothLetIn(from, to, access, p) {
        WalkIsComplete(db, operation, from, paths, p);
      }
    }

    // What a turn that is let in adds.
    lemma OneMoreLetIn(from: Path, to: Path, access: Path -> Access, paths: seq<Path>, found: seq<Path>, i: nat)
      requires i < |paths| && from <= paths[i]
      requires LetInUpTo(from, to, paths, i, access) && BothLetIn(from, to, access, paths[i])
      ensures LetInUpTo(from, to, paths + found, i + 1, access)
    {}

    lemma OneMoreCaptured(paths: seq<Path>, found: seq<Path>, i: nat, deps: map<Path, nat>, deps': map<Path, nat>)
      requires i < |paths| && CapturedUpTo(paths, i, deps) && deps.Keys <= deps'.Keys && paths[i] in deps'
      ensures CapturedUpTo(paths + found, i + 1, deps')
    {}

    lemma StillUnmoved(db: Db, paths: seq<Path>, found: seq<Path>, i: nat)
      requires UnmovedUpTo(db, operation, paths, i)
      ensures UnmovedUpTo(db, operation, paths + found, i)
    {}

    lemma WalksOn(db0: Db, start: Db, after: Db, from: Path, to: Path, access: Path -> Access,
                  longer: seq<Path>, i: nat)
      requires Draft(db0, after, operation) && Sound(after, operation)
      requires StageOf(after, operation) == StageOf(db0, operation)
      requires Worklist(db0, operation, from, longer, i + 1)
      requires LetInUpTo(from, to, longer, i + 1, access)
      requires CapturedUpTo(longer, i + 1, DepsOf(after, operation))
      requires Current(start, operation) && UnmovedUpTo(db0, operation, longer, i)
      ensures Walked(db0, start, after, operation, from, to, access, longer, i + 1)
    {}

    // One turn of the first loop: the path, its new name, and what is in it.
    method WalkStep(ghost db0: Db, from: Path, to: Path, p: Path, access: Path -> Access)
      returns (found: seq<Path>, refused: Option<Errno>)
      requires Draft(db0, store.db, operation) && Sound(store.db, operation)
      requires StageOf(store.db, operation) == StageOf(db0, operation)
      requires from <= p && View(db0, operation, p).Some?
      modifies store`db
      ensures refused.None? ==> Draft(db0, store.db, operation) && Sound(store.db, operation)
      ensures refused.None? ==> StageOf(store.db, operation) == StageOf(db0, operation)
      ensures refused.None? ==> BothLetIn(from, to, access, p)
      ensures refused.None? ==> Current(old(store.db), operation) && p in DepsOf(store.db, operation)
      ensures refused.None? ==> DepsOf(old(store.db), operation).Keys <= DepsOf(store.db, operation).Keys
      ensures refused.None? ==> Distinct(found) && forall c :: c in found <==> c in Children(db0, operation, p)
      ensures Clear(db0, operation, from, to, access) && Current(old(store.db), operation) ==>
        refused.None? && Current(store.db, operation)
    {
      found := [];
      assert p in Subtree(db0, operation, from);
      refused := LetIn(db0, p, access);
      if refused.Some? { return; }
      refused := LetIn(db0, Rekey(from, to, p), access);
      if refused.Some? { return; }
      CaptureIn(db0, p);
      if IsDir(View(store.db, operation, p)) {
        found := ListChildren(p);
        SameChildren(db0, store.db, p);
      } else {
        LeafHasNoChildren(Source(db0, operation), StageOf(db0, operation), p);
      }
    }

    // The second loop: stage every entry under its new name and delete the old one.
    method MoveRows(ghost db0: Db, from: Path, to: Path, paths: seq<Path>) returns (ok: bool)
      requires Draft(db0, store.db, operation) && Sound(store.db, operation)
      requires StageOf(store.db, operation) == StageOf(db0, operation)
      requires Worklist(db0, operation, from, paths, |paths|)
      requires Walks(RenameVerdict(db0, operation, from, to))
      modifies store`db
      ensures ok <==> RenameVerdict(db0, operation, from, to) == Move
      ensures ok ==> Draft(db0, store.db, operation) && Sound(store.db, operation)
      ensures ok ==> MovedAll(db0, store.db, operation, from, to)
    {
      var j := 0;
      while j < |paths|
        invariant j <= |paths| && Draft(db0, store.db, operation)
        invariant Covered(Source(db0, operation), StageOf(store.db, operation), DepsOf(store.db, operation))
        invariant PartMoved(db0, store.db, operation, from, to, paths[..j])
        invariant j > 0 ==> RenameVerdict(db0, operation, from, to) == Move
        invariant [] !in StageOf(store.db, operation)
      {
        ok := MoveOneRow(db0, from, to, paths, j);
        if !ok { return; }
        j := j + 1;
      }
      assert paths[..j] == paths;
      forall p ensures View(store.db, operation, p) == MovedView(db0, operation, from, to, p) {
        AllMoved(db0, operation, from, to, paths, p);
      }
      MovedIsTree(db0, operation, from, to, Source(db0, operation), StageOf(store.db, operation));
      ok := true;
    }

    method MoveOneRow(ghost db0: Db, from: Path, to: Path, paths: seq<Path>, j: nat) returns (ok: bool)
      requires Draft(db0, store.db, operation) && WellFormed(Source(db0, operation), StageOf(db0, operation))
      requires Covered(Source(db0, operation), StageOf(store.db, operation), DepsOf(store.db, operation))
      requires Worklist(db0, operation, from, paths, |paths|) && j < |paths|
      requires PartMoved(db0, store.db, operation, from, to, paths[..j])
      requires Walks(RenameVerdict(db0, operation, from, to))
      requires j > 0 ==> RenameVerdict(db0, operation, from, to) == Move
      requires [] !in StageOf(store.db, operation)
      modifies store`db
      ensures ok <==> RenameVerdict(db0, operation, from, to) == Move
      ensures ok ==> Draft(db0, store.db, operation)
      ensures ok ==> Covered(Source(db0, operation), StageOf(store.db, operation), DepsOf(store.db, operation))
      ensures ok ==> PartMoved(db0, store.db, operation, from, to, paths[..j + 1])
      ensures ok ==> [] !in StageOf(store.db, operation)
    {
      ghost var db1 := store.db;
      var p := paths[j];
      assert p in Subtree(db0, operation, from);
      var entry := View(store.db, operation, p);
      if RenameVerdict(db0, operation, from, to) == Move {
        NextToMove(db0, db1, operation, from, to, paths, j);
      } else {
        assert paths[..j] == [] && p == from && Rekey(from, to, p) == to;
        CannotMoveFirst(db0, db1, operation, from, to, entry);
      }
      ok := StageIn(db0, Rekey(from, to, p), entry);
      if !ok { return; }
      ok := StageIn(db0, p, None);
      if !ok { return; }
      MovesOne(db0, db1, store.db, operation, from, to, paths, j);
    }

    lemma SameVerdict(db: Db, db': Db, from: Path, to: Path)
      requires Draft(db, db', operation)
      requires forall q {:trigger View(db', operation, q)} :: View(db', operation, q) == View(db, operation, q)
      ensures RenameVerdict(db', operation, from, to) == RenameVerdict(db, operation, from, to)
    {
      SameChildren(db, db', to);
    }

    // In a tree a row that is there can be emptied exactly when it is no directory.
    lemma WhenItEmpties(db: Db, p: Path)
      requires Sound(db, operation) && View(db, operation, p).Some?
      ensures !StageRefused(db, operation, p, Some(File([], View(db, operation, p).value.mode)))
        <==> HasBytes(View(db, operation, p))
    {
      assert Placed(Source(db, operation), StageOf(db, operation), p);
    }

    // `open_existing`: a block of its own for the row that `open` found.
    method OpenExisting(p: Path, flags: Flags, access: Path -> Access) returns (r: Result<nat, Errno>)
      requires Valid() && IsRunning(store.db, operation)
      requires View(store.db, operation, p).Some? && p in DepsOf(store.db, operation)
      modifies this, store
      ensures Valid()
      ensures r.Err? ==> store.db == old(store.db) && handles == old(handles) && nextHandle == old(nextHandle)
      ensures r.Err? && !Current(old(store.db), operation) ==> r.error == ESTALE
      ensures r.Err? && !Admitted(old(store.db), operation, access, p) ==> r.error == Barring(old(store.db), operation)
      ensures r.Ok? ==> r.value !in old(handles)
      ensures r.Ok? ==>
        && r.value == nextHandle == old(nextHandle) + 1
        && handles == old(handles)[nextHandle := Handle(p, operation, flags.append)]
      ensures r.Ok? <==> OpensFound(old(store.db), operation, p, flags, access)
      ensures r.Ok? ==> PrivateStep(old(store.db), store.db, operation)
      ensures r.Ok? && flags.truncate ==>
        OnlyAt(old(store.db), store.db, operation, p, Some(File([], View(old(store.db), operation, p).value.mode)))
      ensures r.Ok? && !flags.truncate ==> StageOf(store.db, operation) == StageOf(old(store.db), operation)
    {
      ghost var db0 := store.db;
      var row := View(store.db, operation, p);
      StartsSound(db0);
      if flags.writable || flags.truncate {
        var refused := Mutation(p, access);
        if refused.Some? {
          store.Rollback();
          return Err(refused.value);
        }
      }
      store.CapturePath(operation, p);
      assert store.db == db0;
      WhenItEmpties(db0, p);
      if flags.truncate {
        var ok := store.Stage(operation, p, Some(File([], row.value.mode)));
        if !ok {
          store.Rollback();
          return Err(Unhandled);
        }
        StageKeepsSound(db0, db0, operation, p, Some(File([], row.value.mode)));
      }
      nextHandle := nextHandle + 1;
      handles := handles[nextHandle := Handle(p, operation, flags.append)];
      CommitCall(db0);
      return Ok(nextHandle);
    }

    // `open`: one block looks the path up and captures it, a second one opens what was found. It
    // can run inside the transaction of `create`, whose rows the end of its first block commits.
    method Open(p: Path, flags: Flags, access: Path -> Access) returns (r: Result<nat, Errno>)
      requires Ready() && (store.db == store.committed || IsRunning(store.db, operation))
      modifies this, store
      ensures Valid()
      ensures r.Err? ==> handles == old(handles) && nextHandle == old(nextHandle)
      ensures r.Ok? ==> r.value !in old(handles)
      ensures r.Ok? ==>
        && r.value == nextHandle == old(nextHandle) + 1
        && handles == old(handles)[nextHandle := Handle(p, operation, flags.append)]
      ensures r.Ok? <==> IsRunning(old(store.db), operation) && Opens(old(store.db), operation, p, flags, access)
      ensures !IsRunning(old(store.db), operation) ==> store.db == old(store.db)
      ensures IsRunning(old(store.db), operation) ==> PrivateStep(old(store.db), store.db, operation)
      ensures r.Err? && IsRunning(old(store.db), operation) ==> store.db == Capture(old(store.db), operation, p)
      ensures StrandedOpen(old(store.db), operation, p) && r.Err? ==> r.error == ESTALE
      ensures r.Err? && IsRunning(old(store.db), operation) && View(old(store.db), operation, p).Some? ==>
        var captured := Capture(old(store.db), operation, p);
        !Admitted(captured, operation, access, p) ==> r.error == Barring(captured, operation)
      ensures r.Ok? && flags.truncate ==>
        OnlyAt(old(store.db), store.db, operation, p, Some(File([], View(old(store.db), operation, p).value.mode)))
      ensures r.Ok? && !flags.truncate ==> StageOf(store.db, operation) == StageOf(old(store.db), operation)
      ensures !IsRunning(old(store.db), operation) ==> r == Err(EACCES)
      ensures IsRunning(old(store.db), operation) && View(old(store.db), operation, p).None? ==> r == Err(ENOENT)
      ensures r.Ok? ==> p in DepsOf(store.db, operation)
    {
      ghost var db0 := store.db;
      if !IsRunning(store.db, operation) {
        store.Rollback();
        return Err(EACCES);
      }
      StartsSound(db0);
      var row := View(store.db, operation, p);
      store.CapturePath(operation, p);
      CaptureKeepsSound(db0, db0, operation, p);
      CommitCall(db0);
      if row.None? { return Err(ENOENT); }
      ghost var db1 := store.db;
      r := OpenExisting(p, flags, access);
      DraftsCompose(db0, db1, store.db, operation);
    }

    // `create` stages the empty file and then opens it for writing inside its own transaction.
    method Create(p: Path, mode: nat, access: Path -> Access) returns (r: Result<nat, Errno>)
      requires Valid()
      modifies this, store
      ensures Valid()
      ensures r.Err? ==> handles == old(handles) && nextHandle == old(nextHandle)
      ensures r.Ok? ==> r.value !in old(handles)
      ensures r.Ok? ==>
        && r.value == nextHandle == old(nextHandle) + 1
        && handles == old(handles)[nextHandle := Handle(p, operation, false)]
      ensures r.Ok? <==>
        && CreateStages(old(store.db), operation, p, mode, access)
        && !CreateStrands(old(store.db), operation, p, mode, access)
      ensures CreateStrands(old(store.db), operation, p, mode, access) ==> r == Err(ESTALE)
      ensures CreateStages(old(store.db), operation, p, mode, access) ==>
        && PrivateStep(old(store.db), store.db, operation)
        && OnlyAt(old(store.db), store.db, operation, p, Some(File([], Bits(mode))))
      ensures !CreateStages(old(store.db), operation, p, mode, access) ==> store.db == old(store.db)
      ensures !Admitted(old(store.db), operation, access, p) ==> r == Err(Barring(old(store.db), operation))
      ensures Admitted(old(store.db), operation, access, p) && View(old(store.db), operation, p).Some? ==>
        r == Err(EEXIST)
    {
      ghost var db0 := store.db;
      var refused := Mutation(p, access);
      if refused.Some? {
        store.Rollback();
        return Err(refused.value);
      }
      StartsSound(db0);
      MutationKeepsSound(db0, db0, access, p);
      if View(store.db, operation, p).Some? {
        store.Rollback();
        return Err(EEXIST);
      }
      ghost var db1 := store.db;
      var row := Some(File([], Bits(mode)));
      var ok := store.Stage(operation, p, row);
      if !ok {
        store.Rollback();
        return Err(Unhandled);
      }
      StageKeepsSound(db0, db1, operation, p, row);
      PrivateKeepsInv(db0, store.db, operation);
      ghost var db2 := store.db;
      StageKeepsDraft(db0, db1, operation, p, row);
      assert Capture(db2, operation, p) == db2;
      r := Open(p, Flags(true, false, false), access);
      DraftsCompose(db0, db2, store.db, operation);
    }
  }

  // `mutation` lets the path in, now and after anything the call itself captures.
  ghost predicate LetsIn(db: Db, op: Op, access: Path -> Access, p: Path) {
    IsRunning(db, op) && access(p) != Deny && Revision(Source(db, op), p) == Revision(db.files, p)
  }

  // Nothing outside the private view stands in the way of a rename: no claim is missing on either name,
  // on a path the move carries or on its new name, and no peer has moved one of them past the
  // operation's source.
  ghost predicate Clear(db: Db, op: Op, from: Path, to: Path, access: Path -> Access) {
    && IsRunning(db, op) && Current(db, op)
    && LetsIn(db, op, access, from) && LetsIn(db, op, access, to)
    && forall p {:trigger p in Subtree(db, op, from)} | p in Subtree(db, op, from) ::
         LetsIn(db, op, access, p) && LetsIn(db, op, access, Rekey(from, to, p))
  }

  // No claim is missing on a path that moves, where it was or where it goes.
  predicate BothLetIn(from: Path, to: Path, access: Path -> Access, p: Path)
    requires from <= p
  {
    access(p) != Deny && access(Rekey(from, to, p)) != Deny
  }

  // No peer has moved the path past what the operation sees.
  predicate Unmoved(db: Db, op: Op, p: Path) {
    Revision(Source(db, op), p) == Revision(db.files, p)
  }

  ghost predicate UnmovedUpTo(db: Db, op: Op, paths: seq<Path>, n: int) {
    n <= |paths| && forall k | 0 <= k < n :: Unmoved(db, op, paths[k])
  }

  ghost predicate CapturedUpTo(paths: seq<Path>, n: nat, deps: map<Path, nat>) {
    n <= |paths| && forall k | 0 <= k < n :: paths[k] in deps
  }

  // How far the walk has come: a list in the making, let in, captured, and all but the last known to be unmoved.
  ghost predicate Walked(db0: Db, start: Db, db: Db, op: Op, from: Path, to: Path, access: Path -> Access,
                         paths: seq<Path>, n: nat)
  {
    && Draft(db0, db, op) && Sound(db, op) && StageOf(db, op) == StageOf(db0, op)
    && Worklist(db0, op, from, paths, n)
    && LetInUpTo(from, to, paths, n, access) && CapturedUpTo(paths, n, DepsOf(db, op))
    && (n > 0 ==> Current(start, op) && UnmovedUpTo(db0, op, paths, n - 1))
  }

  // A replaced directory and, but for one path, everything that moves are as the operation saw them; the one
  // is the old name only if nothing is below it.
  ghost predicate MovesWhatItSaw(db: Db, op: Op, from: Path, to: Path) {
    && (IsDir(View(db, op, to)) ==> Unmoved(db, op, to))
    && exists last :: last in Subtree(db, op, from) && (last == from ==> Subtree(db, op, from) == {from})
         && forall p | p in Subtree(db, op, from) && p != last :: Unmoved(db, op, p)
  }

  ghost predicate LetInUpTo(from: Path, to: Path, paths: seq<Path>, n: nat, access: Path -> Access) {
    n <= |paths| && forall k | 0 <= k < n :: from <= paths[k] && BothLetIn(from, to, access, paths[k])
  }

  ghost predicate LetsMove(db: Db, op: Op, from: Path, to: Path, access: Path -> Access) {
    forall p | p in Subtree(db, op, from) :: BothLetIn(from, to, access, p)
  }

  // The checks before the walk let it go on; `stage` may still refuse.
  predicate Walks(v: Verdict) { v == Move || v == Unstageable }

  predicate Passes(v: Verdict) { v == Nothing || Walks(v) }

  function ErrnoOf(v: Verdict): Errno {
    match v
    case Missing => ENOENT
    case IntoItself => EINVAL
    case NotADirectory => ENOTDIR
    case IsADirectory => EISDIR
    case NotEmpty => ENOTEMPTY
    case _ => Unhandled
  }

  /** What each refusal says is so, and what a rename that goes ahead has found: the file or directory is
      there, goes to another name outside itself whose parent is a directory, and replaces at most an entry of
      its own sort with nothing in it. */
  lemma WhatRenameFinds(db: Db, op: Op, from: Path, to: Path)
    requires WellFormed(Source(db, op), StageOf(db, op))
    ensures var v, row, target := RenameVerdict(db, op, from, to), View(db, op, from), View(db, op, to);
      && (v == Nothing <==> row.Some? && from == to)
      && (ErrnoOf(v) == ENOENT <==> row.None?)
      && (ErrnoOf(v) == EINVAL <==> row.Some? && from != [] && from < to)
      && (ErrnoOf(v) == ENOTDIR ==> IsDir(row) && target.Some? && !IsDir(target))
      && (ErrnoOf(v) == EISDIR ==> row.Some? && !IsDir(row) && IsDir(target))
      && (ErrnoOf(v) == ENOTEMPTY ==> IsDir(row) && IsDir(target) && exists p :: to < p && View(db, op, p).Some?)
      && (v == Move <==>
            && row.Some? && from != to && !(from < to) && ValidPath(from) && ValidPath(to)
            && IsDir(View(db, op, Parent(to))) && (target.Some? ==> IsDir(target) == IsDir(row))
            && forall p | to < p :: View(db, op, p).None?)
  {
    var src, s := Source(db, op), StageOf(db, op);
    if Children(db, op, to) == {} {
      forall p | to < p ensures View(db, op, p).None? {
        forall c | c != [] && Parent(c) == to ensures Overlay(src, s, c).None? { assert c !in Children(db, op, to); }
        NothingBelow(src, s, to, p);
      }
    } else {
      var c :| c in Children(db, op, to);
      assert to < c by { assert c == Parent(c) + [c[|c| - 1]]; }
    }
    if !IsDir(View(db, op, to)) {
      forall p | to < p ensures View(db, op, p).None? { NothingBelow(src, s, to, p); }
    }
  }

  // What stands under the new name and may not be replaced.
  function Blocked(row: Option<Node>, target: Option<Node>, empty: bool): Option<Errno> {
    if target.None? then None
    else if IsDir(row) != IsDir(target) then Some(if IsDir(row) then ENOTDIR else EISDIR)
    else if IsDir(target) && !empty then Some(ENOTEMPTY)
    else None
  }

  // The handles on the moved path or below it follow it.
  function RekeyHandles(hs: map<nat, Handle>, op: Op, from: Path, to: Path): map<nat, Handle> {
    map h | h in hs ::
      if hs[h].operation == op && from <= hs[h].path then hs[h].(path := Rekey(from, to, hs[h].path)) else hs[h]
  }

  // What `open_existing` asks of a row it was handed.
  predicate OpensFound(db: Db, op: Op, p: Path, flags: Flags, access: Path -> Access)
    requires View(db, op, p).Some?
  {
    && (flags.writable || flags.truncate ==> Admitted(db, op, access, p))
    && (flags.truncate ==> HasBytes(View(db, op, p)))
  }

  ghost predicate StrandedOpen(db: Db, op: Op, p: Path) {
    IsRunning(db, op) && View(db, op, p).Some? && !Current(Capture(db, op, p), op)
  }

  // What `open` finds: the path is there, and opening for writing is let in and can be staged.
  predicate Opens(db: Db, op: Op, p: Path, flags: Flags, access: Path -> Access) {
    && View(db, op, p).Some?
    && (flags.writable || flags.truncate ==> Admitted(Capture(db, op, p), op, access, p))
    && (flags.truncate ==> HasBytes(View(db, op, p)))
  }

  // `create` gets as far as staging the empty file…
  predicate CreateStages(db: Db, op: Op, p: Path, mode: nat, access: Path -> Access) {
    && Admitted(db, op, access, p) && View(db, op, p).None?
    && ValidPath(p) && IsDir(View(db, op, Parent(p)))
  }

  // …and is then refused by its own open, after the rows are committed.
  predicate CreateStrands(db: Db, op: Op, p: Path, mode: nat, access: Path -> Access) {
    && CreateStages(db, op, p, mode, access)
    && !Current(StageRow(AfterMutation(db, op, access, p), op, p, Some(File([], Bits(mode)))), op)
  }

  /** After a rename every open file but the replaced target still reads the same entry through its handle. */
  lemma RenameKeepsOpenFiles(db: Db, db': Db, op: Op, from: Path, to: Path, hs: map<nat, Handle>, h: nat)
    requires WellFormed(Source(db, op), StageOf(db, op))
    requires RenameVerdict(db, op, from, to) == Move
    requires MovedAll(db, db', op, from, to)
    requires h in hs && hs[h].operation == op && hs[h].path != to && View(db, op, hs[h].path).Some?
    ensures View(db', op, RekeyHandles(hs, op, from, to)[h].path) == View(db, op, hs[h].path)
  {
    TargetNotAbove(db, op, from, to);
    var p := hs[h].path;
    if from <= p {
      RekeyBack(from, to, p);
      assert View(db', op, Rekey(from, to, p)) == MovedView(db, op, from, to, Rekey(from, to, p));
    } else {
      assert View(db', op, p) == MovedView(db, op, from, to, p);
    }
  }

  lemma DraftsCompose(a: Db, b: Db, c: Db, op: Op)
    requires Draft(a, b, op) && Draft(b, c, op)
    ensures Draft(a, c, op)
  {
    forall o | o != op ensures SameRows(a, c, o) {
      assert SameRows(a, b, o) && SameRows(b, c, o);
    }
  }

  // What a create has staged by the time it opens the file.
  lemma CreatedIsDraft(db: Db, op: Op, p: Path, mode: nat, access: Path -> Access)
    requires CreateStages(db, op, p, mode, access)
    ensures var after := StageRow(AfterMutation(db, op, access, p), op, p, Some(File([], Bits(mode))));
      Draft(db, after, op) && DepsOf(after, op).Keys == DepsOf(db, op).Keys + {p, Parent(p)}
  {
    var row := Some(File([], Bits(mode)));
    var mid := AfterMutation(db, op, access, p);
    NoDraft(db, op);
    CaptureKeepsDraft(db, db, op, p);
    CaptureKeepsDraft(db, mid, op, p);
    StageCapturesKeepDraft(db, mid, op, p, row);
    PutKeepsDraft(db, StageCaptures(mid, op, p, row), op, p, row);
  }

  /** A refused `create` leaves the staged tree as it was unless it strands an empty file, and it
      does that exactly when the published revision of the path or of its parent has moved past the
      snapshot the operation pinned. */
  lemma CreateStrandsExactlyWhenBehind(db: Db, op: Op, p: Path, mode: nat, access: Path -> Access)
    requires Inv(db) && IsRunning(db, op) && op in db.snapshots
    requires CreateStages(db, op, p, mode, access)
    ensures CreateStrands(db, op, p, mode, access) <==>
      || Revision(db.snapshots[op], p) != Revision(db.files, p)
      || Revision(db.snapshots[op], Parent(p)) != Revision(db.files, Parent(p))
  {
    assert OpInv(db, op);
    CreatedIsDraft(db, op, p, mode, access);
    var after := StageRow(AfterMutation(db, op, access, p), op, p, Some(File([], Bits(mode))));
    assert p in DepsOf(after, op) && Parent(p) in DepsOf(after, op);
  }

  // A peer has published a new file into the root this operation pinned.
  function PeerPublished(): Db {
    Db(map[[] := Row(Some(Directory(493)), 2), ["peer"] := Row(Some(File([], 420)), 1)],
       map[], map[],
       map["op" := map[[] := Row(Some(Directory(493)), 1)]],
       map["op" := Operation("owner", Native(""), Running, None)],
       None, map[])
  }

  /** One such state: creating a file there is refused with ESTALE and leaves the file staged. */
  lemma CreateCanStrand(access: Path -> Access)
    requires access(["new"]) == Allow
    ensures Inv(PeerPublished()) && IsRunning(PeerPublished(), "op")
    ensures CreateStrands(PeerPublished(), "op", ["new"], 420, access)
  {
    var db := PeerPublished();
    var src := db.snapshots["op"];
    forall q ensures Placed(src, map[], q) && Placed(db.files, map[], q) {}
    forall q ensures EvolvesAt(src, db.files, q) {}
    forall o ensures if IsRunning(db, o) then OpInv(db, o) else ClosedOp(db, o) {}
    assert ValidPath(["new"]);
    assert Parent(["new"]) == [];
    CreateStrandsExactlyWhenBehind(db, "op", ["new"], 420, access);
  }
}
