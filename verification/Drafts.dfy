/** What capturing and staging do to an operation's draft. */
module Drafts {
  import opened Wrappers
  import opened Tree
  import opened StoreModel
  import opened Publication

  // The private view is a tree and its captured dependencies cover it.
  ghost predicate Sound(db: Db, op: Op) {
    && WellFormed(Source(db, op), StageOf(db, op))
    && Covered(Source(db, op), StageOf(db, op), DepsOf(db, op))
  }

  lemma MoreDepsStillCover(f: Files, s: Stage, deps: map<Path, nat>, deps': map<Path, nat>)
    requires Covered(f, s, deps) && deps.Keys <= deps'.Keys
    ensures Covered(f, s, deps')
  {
    forall q ensures CoveredAt(f, s, deps', q) {
      assert CoveredAt(f, s, deps, q);
    }
  }

  lemma StagedRowIsCovered(f: Files, s: Stage, deps: map<Path, nat>, p: Path, row: Option<Node>)
    requires Covered(f, s, deps) && p in deps
    requires SameSort(Overlay(f, s, p), row) || Parent(p) in deps
    ensures Covered(f, s[p := row], deps)
  {
    var s' := s[p := row];
    forall q ensures CoveredAt(f, s', deps, q) {
      assert CoveredAt(f, s, deps, q);
    }
  }

  lemma CapturedOneMore(src: Files, deps0: map<Path, nat>, deps: map<Path, nat>, p: Path)
    requires CapturedFrom(src, deps0, deps) && p !in deps
    ensures CapturedFrom(src, deps0, deps[p := Revision(src, p)])
  {}

  lemma CaptureTouchesOne(db: Db, op: Op, p: Path)
    requires p !in DepsOf(db, op)
    ensures DepsOf(Capture(db, op, p), op) == DepsOf(db, op)[p := Revision(Source(db, op), p)]
    ensures forall o {:trigger SameRows(db, Capture(db, op, p), o)} | o != op :: SameRows(db, Capture(db, op, p), o)
    ensures StageOf(Capture(db, op, p), op) == StageOf(db, op)
  {}

  lemma CaptureKeepsDraft(db0: Db, db: Db, op: Op, p: Path)
    requires Draft(db0, db, op)
    ensures Draft(db0, Capture(db, op, p), op)
    ensures StageOf(Capture(db, op, p), op) == StageOf(db, op)
    ensures DepsOf(Capture(db, op, p), op).Keys == DepsOf(db, op).Keys + {p}
  {
    if p !in DepsOf(db, op) {
      var db' := Capture(db, op, p);
      CaptureTouchesOne(db, op, p);
      CapturedOneMore(Source(db, op), DepsOf(db0, op), DepsOf(db, op), p);
      forall o | o != op ensures SameRows(db0, db', o) {
        assert SameRows(db0, db, o) && SameRows(db, db', o);
      }
    }
  }

  lemma StageCapturesKeepDraft(db0: Db, db: Db, op: Op, p: Path, row: Option<Node>)
    requires Draft(db0, db, op)
    ensures Draft(db0, StageCaptures(db, op, p, row), op)
    ensures StageOf(StageCaptures(db, op, p, row), op) == StageOf(db, op)
    ensures DepsOf(StageCaptures(db, op, p, row), op).Keys ==
      DepsOf(db, op).Keys + {p} + (if SameSort(View(db, op, p), row) then {} else {Parent(p)})
  {
    CaptureKeepsDraft(db0, db, op, p);
    CaptureKeepsDraft(db0, Capture(db, op, p), op, Parent(p));
  }

  lemma PutKeepsDraft(db0: Db, db: Db, op: Op, p: Path, row: Option<Node>)
    requires Draft(db0, db, op)
    ensures Draft(db0, PutRow(db, op, p, row), op)
    ensures StageOf(PutRow(db, op, p, row), op) == StageOf(db, op)[p := row]
    ensures DepsOf(PutRow(db, op, p, row), op) == DepsOf(db, op)
  {
    var db' := PutRow(db, op, p, row);
    forall o | o != op ensures SameRows(db0, db', o) {
      assert SameRows(db0, db, o);
    }
  }

  lemma StageKeepsDraft(db0: Db, db: Db, op: Op, p: Path, row: Option<Node>)
    requires Draft(db0, db, op)
    requires Covered(Source(db, op), StageOf(db, op), DepsOf(db, op))
    ensures Draft(db0, StageRow(db, op, p, row), op)
    ensures StageOf(StageRow(db, op, p, row), op) == StageOf(db, op)[p := row]
    ensures Covered(Source(db, op), StageOf(db, op)[p := row], DepsOf(StageRow(db, op, p, row), op))
    ensures DepsOf(StageRow(db, op, p, row), op).Keys ==
      DepsOf(db, op).Keys + {p} + (if SameSort(View(db, op, p), row) then {} else {Parent(p)})
  {
    StageCapturesKeepDraft(db0, db, op, p, row);
    var both := StageCaptures(db, op, p, row);
    PutKeepsDraft(db0, both, op, p, row);
    MoreDepsStillCover(Source(db, op), StageOf(db, op), DepsOf(db, op), DepsOf(both, op));
    StagedRowIsCovered(Source(db, op), StageOf(db, op), DepsOf(both, op), p, row);
  }

  lemma StagedPresentIsTree(f: Files, s: Stage, p: Path, row: Option<Node>)
    requires WellFormed(f, s) && ValidPath(p) && row.Some? && Fits(row)
    requires IsDir(Overlay(f, s, Parent(p)))
    requires IsDir(Overlay(f, s, p)) ==> IsDir(row)
    ensures WellFormed(f, s[p := row])
  {
    var s' := s[p := row];
    forall q ensures Placed(f, s', q) {
      assert Placed(f, s, q);
    }
  }

  lemma StagedDeletedIsTree(f: Files, s: Stage, p: Path)
    requires WellFormed(f, s) && p != []
    requires forall c | c != [] && Parent(c) == p :: Overlay(f, s, c).None?
    ensures WellFormed(f, s[p := None])
  {
    var s' := s[p := None];
    forall q ensures Placed(f, s', q) {
      assert Placed(f, s, q);
    }
  }

  // A missing path or one that is not a directory has no children.
  lemma LeafHasNoChildren(f: Files, s: Stage, p: Path)
    requires WellFormed(f, s) && !IsDir(Overlay(f, s, p))
    ensures forall c | c != [] && Parent(c) == p :: Overlay(f, s, c).None?
  {
    forall c | c != [] && Parent(c) == p ensures Overlay(f, s, c).None? {
      assert Placed(f, s, c);
    }
  }

  // Exactly one path of the private view has a new entry.
  ghost predicate OnlyAt(db: Db, db': Db, op: Op, p: Path, row: Option<Node>) {
    forall q {:trigger View(db', op, q)} :: View(db', op, q) == if q == p then row else View(db, op, q)
  }

  // Staging one row over a sound draft, deleting only what has no children, leaves a sound draft.
  lemma StageKeepsSound(db0: Db, db: Db, op: Op, p: Path, row: Option<Node>)
    requires Draft(db0, db, op) && Sound(db, op)
    requires !StageRefused(db, op, p, row)
    requires row.None? && IsDir(View(db, op, p)) ==> Children(db, op, p) == {}
    ensures Draft(db0, StageRow(db, op, p, row), op) && Sound(StageRow(db, op, p, row), op)
    ensures OnlyAt(db, StageRow(db, op, p, row), op, p, row)
  {
    var f, s := Source(db, op), StageOf(db, op);
    StageKeepsDraft(db0, db, op, p, row);
    if row.Some? {
      StagedPresentIsTree(f, s, p, row);
    } else {
      if !IsDir(View(db, op, p)) {
        LeafHasNoChildren(f, s, p);
      } else {
        forall c | c != [] && Parent(c) == p ensures Overlay(f, s, c).None? {
          assert c !in Children(db, op, p);
        }
      }
      StagedDeletedIsTree(f, s, p);
    }
  }

  lemma CaptureKeepsSound(db0: Db, db: Db, op: Op, p: Path)
    requires Draft(db0, db, op) && Sound(db, op)
    ensures Draft(db0, Capture(db, op, p), op) && Sound(Capture(db, op, p), op)
    ensures forall q {:trigger View(Capture(db, op, p), op, q)} :: View(Capture(db, op, p), op, q) == View(db, op, q)
  {
    CaptureKeepsDraft(db0, db, op, p);
    MoreDepsStillCover(Source(db, op), StageOf(db, op), DepsOf(db, op), DepsOf(Capture(db, op, p), op));
  }

  lemma NoDraft(db: Db, op: Op)
    ensures Draft(db, db, op)
  {
    forall o | o != op ensures SameRows(db, db, o) {}
  }
}
