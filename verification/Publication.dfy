/** Optimistic publication: what each store call keeps, and what a publication may change. */
module Publication {
  import opened Wrappers
  import opened Tree
  import opened StoreModel

  /** Writing the net changes publishes exactly the overlay. */
  lemma PublishedIsOverlay(db: Db, op: Op, p: Path)
    ensures Lookup(PublishedFiles(db, op), p) == Overlay(db.files, StageOf(db, op), p)
    ensures Revision(PublishedFiles(db, op), p) == Revision(db.files, p)
      + (if p in Changes(db, op) then 1 else 0)
      + (if p in Membership(db, op) && IsDir(Lookup(PublishedFiles(db, op), p)) then 1 else 0)
  {
    var written := WriteChanges(db, op);
    assert Lookup(written, p) == Overlay(db.files, StageOf(db, op), p);
  }

  lemma PublishedIsTree(db: Db, op: Op)
    requires WellFormed(db.files, StageOf(db, op))
    ensures WellFormed(PublishedFiles(db, op), map[])
  {
    var after, s := PublishedFiles(db, op), StageOf(db, op);
    PublishedIsOverlay(db, op, []);
    forall p ensures Placed(after, map[], p) {
      PublishedIsOverlay(db, op, p);
      PublishedIsOverlay(db, op, Parent(p));
      assert Placed(db.files, s, p);
      assert Overlay(after, map[], p) == Lookup(after, p);
      assert Overlay(after, map[], Parent(p)) == Lookup(after, Parent(p));
    }
  }

  lemma PublicationEvolves(db: Db, op: Op)
    requires WellFormed(db.files, map[])
    requires WellFormed(db.files, StageOf(db, op))
    ensures Evolves(db.files, PublishedFiles(db, op))
  {
    var before, after := db.files, PublishedFiles(db, op);
    forall q ensures EvolvesAt(before, after, q) {
      PublishedIsOverlay(db, op, q);
      if Revision(before, q) == Revision(after, q) && IsDir(Lookup(before, q)) {
        forall p | p != [] && Parent(p) == q
          ensures Lookup(before, p).Some? <==> Lookup(after, p).Some?
        {
          PublishedIsOverlay(db, op, p);
          assert p in Changes(db, op) && !SameSort(Lookup(before, p), StageOf(db, op)[p]) ==> q in Membership(db, op);
        }
      }
    }
  }

  /** What a revision counts. */

  datatype Kind = Absent | AFile | ASymlink | ADirectory

  function KindAt(f: Files, p: Path): Kind {
    match Lookup(f, p)
    case None => Absent
    case Some(File(_, _)) => AFile
    case Some(Symlink(_, _)) => ASymlink
    case Some(Directory(_)) => ADirectory
  }

  // Some entry of a directory has come, gone or become something else.
  ghost predicate MembersChange(before: Files, after: Files, d: Path) {
    exists c {:trigger KindAt(before, c)} ::
      c != [] && Parent(c) == d && KindAt(before, c) != KindAt(after, c)
  }

  // A path is not what it was: another entry, or a directory with other members.
  ghost predicate Moved(before: Files, after: Files, p: Path) {
    Lookup(after, p) != Lookup(before, p) || (IsDir(Lookup(after, p)) && MembersChange(before, after, p))
  }

  lemma MembershipIsMembersChange(db: Db, op: Op, d: Path)
    requires [] !in StageOf(db, op)
    ensures d in Membership(db, op) <==> MembersChange(db.files, PublishedFiles(db, op), d)
  {
    var before, after := db.files, PublishedFiles(db, op);
    forall c ensures c in Changes(db, op) && !SameSort(Lookup(before, c), StageOf(db, op)[c])
                     <==> KindAt(before, c) != KindAt(after, c)
    {
      PublishedIsOverlay(db, op, c);
    }
    if d in Membership(db, op) {
      var c :| c in Changes(db, op) && !SameSort(Lookup(before, c), StageOf(db, op)[c]) && Parent(c) == d;
      assert KindAt(before, c) != KindAt(after, c);
    }
  }

  /** A publication counts a changed entry once, and a directory whose members change once more; what is
      written inside the files of a directory does not count for it. */
  lemma RevisionsCountChanges(db: Db, op: Op, p: Path)
    requires [] !in StageOf(db, op)
    ensures var after := PublishedFiles(db, op);
      Revision(after, p) == Revision(db.files, p)
        + (if Lookup(after, p) != Lookup(db.files, p) then 1 else 0)
        + (if IsDir(Lookup(after, p)) && MembersChange(db.files, after, p) then 1 else 0)
  {
    PublishedIsOverlay(db, op, p);
    MembershipIsMembersChange(db, op, p);
  }

  /** Steps of the whole store. */

  // One operation's staged rows and dependencies are the same in both states.
  ghost predicate SameRows(db: Db, db': Db, o: Op) {
    && (o in db'.staging <==> o in db.staging) && StageOf(db', o) == StageOf(db, o)
    && (o in db'.deps <==> o in db.deps) && DepsOf(db', o) == DepsOf(db, o)
  }

  // Captures only add dependencies, each at the revision the operation's source holds.
  ghost predicate CapturedFrom(src: Files, deps: map<Path, nat>, deps': map<Path, nat>) {
    && deps.Keys <= deps'.Keys
    && forall p | p in deps' :: deps'[p] == if p in deps then deps[p] else Revision(src, p)
  }

  // Only one operation's staged rows and captured dependencies have moved, and a capture, once
  // made, stands at the revision of the operation's source.
  ghost predicate Draft(db: Db, db': Db, op: Op) {
    && db' == db.(staging := db'.staging, deps := db'.deps)
    && (forall o {:trigger SameRows(db, db', o)} | o != op :: SameRows(db, db', o))
    && CapturedFrom(Source(db, op), DepsOf(db, op), DepsOf(db', op))
  }

  // A finished call on an operation's private view: a draft whose tree and coverage hold.
  ghost predicate PrivateStep(db: Db, db': Db, op: Op) {
    && Draft(db, db', op)
    && WellFormed(Source(db, op), StageOf(db', op))
    && Covered(Source(db, op), StageOf(db', op), DepsOf(db', op))
  }

  datatype Step =
    | Begin(op: Op, owner: string, intent: Intent, evidence: set<Path>)
    | PinSource(op: Op)
    | Private(op: Op)
    | Close(op: Op, status: Status, resources: set<Path>, code: string)
    | PublishOp(op: Op)
    | Authority(fence: Option<Op>, leases: map<string, Lease>)
    | Restart

  ghost predicate Next(db: Db, db': Db, step: Step) {
    match step
    case Begin(op, owner, intent, evidence) => op !in db.ops && db' == Start(db, op, owner, intent, evidence)
    case PinSource(op) => IsRunning(db, op) && Current(db, op) && op !in db.snapshots && db' == Pin(db, op)
    case Private(op) => IsRunning(db, op) && PrivateStep(db, db', op)
    case Close(op, status, resources, code) =>
      IsRunning(db, op) && status != Running && db' == Finish(db, op, status, resources, code)
    case PublishOp(op) => IsRunning(db, op) && Current(db, op) && db' == Publish(db, op)
    case Authority(fence, leases) => db' == db.(fence := fence, leases := leases)
    case Restart => db' == Restarted(db)
  }

  // The operation's overlay is a tree over the live base, and its dependencies cover it there.
  lemma CurrentOverlayOnLiveBase(db: Db, op: Op)
    requires Inv(db) && IsRunning(db, op) && Current(db, op)
    ensures WellFormed(db.files, StageOf(db, op))
    ensures Covered(db.files, StageOf(db, op), DepsOf(db, op))
  {
    assert OpInv(db, op);
    if op in db.snapshots {
      OverlayMovesToLaterBase(Source(db, op), db.files, StageOf(db, op), DepsOf(db, op));
    }
  }

  /** Another operation's overlay is a covered tree after a publication too, if the operation is pinned
      or still current then. */
  lemma OthersSurvivePublication(db: Db, op: Op, o: Op)
    requires Inv(db) && IsRunning(db, op) && Current(db, op)
    requires o != op && IsRunning(db, o)
    ensures OpInv(Publish(db, op), o)
    ensures var db' := Publish(db, op);
      o in db'.snapshots || Current(db', o) ==>
        WellFormed(Source(db', o), StageOf(db, o)) && Covered(Source(db', o), StageOf(db, o), DepsOf(db, o))
  {
    var db' := Publish(db, op);
    CurrentOverlayOnLiveBase(db, op);
    PublicationEvolves(db, op);
    PublishedIsTree(db, op);
    assert OpInv(db, o);
    assert StageOf(db', o) == StageOf(db, o) && DepsOf(db', o) == DepsOf(db, o);
    forall p | p in DepsOf(db', o) ensures DepsOf(db', o)[p] <= Revision(db'.files, p) {
      assert EvolvesAt(db.files, db'.files, p);
    }
    if o in db.snapshots {
      EvolvesTransitive(Source(db, o), db.files, db'.files);
    } else if Current(db', o) {
      assert Current(db, o) by {
        forall p | p in DepsOf(db, o) ensures Revision(db.files, p) == DepsOf(db, o)[p] {
          assert EvolvesAt(db.files, db'.files, p);
        }
      }
      OverlayMovesToLaterBase(db.files, db'.files, StageOf(db, o), DepsOf(db, o));
    }
  }

  lemma PublishKeepsInv(db: Db, op: Op)
    requires Inv(db) && IsRunning(db, op) && Current(db, op)
    ensures Inv(Publish(db, op))
  {
    var db' := Publish(db, op);
    CurrentOverlayOnLiveBase(db, op);
    PublishedIsTree(db, op);
    forall o ensures if IsRunning(db', o) then OpInv(db', o) else ClosedOp(db', o) {
      assert if IsRunning(db, o) then OpInv(db, o) else ClosedOp(db, o);
      if o != op && IsRunning(db, o) { OthersSurvivePublication(db, op, o); }
    }
  }

  lemma PrivateKeepsInv(db: Db, db': Db, op: Op)
    requires Inv(db) && IsRunning(db, op) && PrivateStep(db, db', op)
    ensures Inv(db')
  {
    forall o ensures if IsRunning(db', o) then OpInv(db', o) else ClosedOp(db', o) {
      assert if IsRunning(db, o) then OpInv(db, o) else ClosedOp(db, o);
      assert o != op ==> SameRows(db, db', o);
      if o == op {
        forall p | p in DepsOf(db', op) ensures DepsOf(db', op)[p] <= Revision(db'.files, p) {
          if op in db.snapshots { assert EvolvesAt(Source(db, op), db.files, p); }
        }
      }
    }
  }

  lemma StartKeepsInv(db: Db, op: Op, owner: string, intent: Intent, evidence: set<Path>)
    requires Inv(db) && op !in db.ops
    ensures Inv(Start(db, op, owner, intent, evidence))
  {
    var db' := Start(db, op, owner, intent, evidence);
    assert !IsRunning(db, op);
    forall o ensures if IsRunning(db', o) then OpInv(db', o) else ClosedOp(db', o) {
      assert if IsRunning(db, o) then OpInv(db, o) else ClosedOp(db, o);
      if o == op {
        assert StageOf(db', o) == map[];
        assert Covered(db'.files, map[], DepsOf(db', o));
      }
    }
  }

  lemma PinKeepsInv(db: Db, op: Op)
    requires Inv(db) && IsRunning(db, op) && Current(db, op) && op !in db.snapshots
    ensures Inv(Pin(db, op))
  {
    var db' := Pin(db, op);
    forall o ensures if IsRunning(db', o) then OpInv(db', o) else ClosedOp(db', o) {
      assert if IsRunning(db, o) then OpInv(db, o) else ClosedOp(db, o);
      if o == op {
        assert Evolves(db.files, db.files) by {
          forall q ensures EvolvesAt(db.files, db.files, q) {}
        }
      }
    }
  }

  lemma FinishKeepsInv(db: Db, op: Op, status: Status, resources: set<Path>, code: string)
    requires Inv(db) && op in db.ops && status != Running
    ensures Inv(Finish(db, op, status, resources, code))
  {
    var db' := Finish(db, op, status, resources, code);
    forall o ensures if IsRunning(db', o) then OpInv(db', o) else ClosedOp(db', o) {
      assert if IsRunning(db, o) then OpInv(db, o) else ClosedOp(db, o);
    }
  }

  lemma NextKeepsInv(db: Db, db': Db, step: Step)
    requires Inv(db) && Next(db, db', step)
    ensures Inv(db')
  {
    match step
    case Begin(op, owner, intent, evidence) => StartKeepsInv(db, op, owner, intent, evidence);
    case PinSource(op) => PinKeepsInv(db, op);
    case Private(op) => PrivateKeepsInv(db, db', op);
    case Close(op, status, resources, code) => FinishKeepsInv(db, op, status, resources, code);
    case PublishOp(op) => PublishKeepsInv(db, op);
    case Authority(_, _) =>
      forall o ensures if IsRunning(db', o) then OpInv(db', o) else ClosedOp(db', o) {
        assert if IsRunning(db, o) then OpInv(db, o) else ClosedOp(db, o);
      }
    case Restart =>
      forall o ensures !IsRunning(db', o) && ClosedOp(db', o) {
        assert if IsRunning(db, o) then OpInv(db, o) else ClosedOp(db, o);
      }
  }
}
