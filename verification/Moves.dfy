/** Moving a subtree of a private view: what it means, the worklist that finds it, and the tree it leaves. */
module Moves {
  import opened Wrappers
  import opened Tree
  import opened StoreModel

  // new + path[len(old):]
  function Rekey(from: Path, to: Path, p: Path): (r: Path)
    requires from <= p
    ensures to <= r && r[|to|..] == p[|from|..]
  {
    to + p[|from|..]
  }

  lemma RekeyBack(from: Path, to: Path, p: Path)
    requires from <= p
    ensures Rekey(to, from, Rekey(from, to, p)) == p
  {
    assert Rekey(from, to, p)[|to|..] == p[|from|..];
    assert from + p[|from|..] == p;
  }

  lemma RekeyParent(from: Path, to: Path, p: Path)
    requires from < p
    ensures from <= Parent(p) && Rekey(from, to, p) != [] && Parent(Rekey(from, to, p)) == Rekey(from, to, Parent(p))
  {
    assert Parent(p)[|from|..] == p[|from|..|p| - 1];
    assert (to + p[|from|..])[..|to| + |p| - |from| - 1] == to + p[|from|..|p| - 1];
  }

  /** The view after the move: the old subtree under its new name, nothing under the old one, and
      every other path as it was. */
  function MovedView(db: Db, op: Op, from: Path, to: Path, p: Path): Option<Node> {
    if to <= p then View(db, op, Rekey(to, from, p))
    else if from <= p then None
    else View(db, op, p)
  }

  // Why `rename` raises once every path it touches is let in, in the order the code asks.
  datatype Verdict = Move | Nothing | Missing | IntoItself | NotADirectory | IsADirectory | NotEmpty | Unstageable

  function RenameVerdict(db: Db, op: Op, from: Path, to: Path): Verdict {
    var row, target := View(db, op, from), View(db, op, to);
    if row.None? then Missing
    else if from == to then Nothing
    else if from != [] && from < to then IntoItself
    else if target.Some? && IsDir(row) != IsDir(target) then (if IsDir(row) then NotADirectory else IsADirectory)
    else if IsDir(target) && Children(db, op, to) != {} then NotEmpty
    else if !ValidPath(from) || !ValidPath(to) || !IsDir(View(db, op, Parent(to))) then Unstageable
    else Move
  }

  // The paths the move carries.
  ghost function Subtree(db: Db, op: Op, from: Path): set<Path> {
    set p | p in Source(db, op).Keys + StageOf(db, op).Keys && from <= p && View(db, op, p).Some?
  }

  ghost predicate Distinct(s: seq<Path>) {
    forall i, j | 0 <= i < j < |s| :: s[i] != s[j]
  }

  // Every path after the first was found as a child of an earlier one that has been walked.
  ghost predicate FoundAt(paths: seq<Path>, done: nat, k: nat)
    requires k < |paths|
  {
    exists j: nat :: j < done && j < k && Parent(paths[k]) == paths[j]
  }

  // The children of a walked path are all on the list.
  ghost predicate WalkedAt(db: Db, op: Op, paths: seq<Path>, j: nat)
    requires j < |paths|
  {
    forall c | c in Children(db, op, paths[j]) :: c in paths
  }

  /** The list `rename` extends while it walks it. */
  ghost predicate Worklist(db: Db, op: Op, from: Path, paths: seq<Path>, done: nat) {
    && 0 < |paths| && paths[0] == from && done <= |paths|
    && Distinct(paths)
    && (forall k | 0 <= k < |paths| :: paths[k] in Subtree(db, op, from))
    && (forall k: nat {:trigger FoundAt(paths, done, k)} | 0 < k < |paths| ::
          from < paths[k] && FoundAt(paths, done, k))
    && (forall j: nat {:trigger WalkedAt(db, op, paths, j)} | j < done :: WalkedAt(db, op, paths, j))
  }

  lemma {:induction false} DistinctFits(s: seq<Path>, bound: set<Path>)
    requires Distinct(s) && forall k | 0 <= k < |s| :: s[k] in bound
    ensures |s| <= |bound|
  {
    if s != [] {
      var last := s[|s| - 1];
      DistinctFits(s[..|s| - 1], bound - {last});
    }
  }

  // A path found on this turn.
  lemma FoundOne(db: Db, op: Op, from: Path, paths: seq<Path>, done: nat, c: Path)
    requires Worklist(db, op, from, paths, done) && done < |paths|
    requires c in Children(db, op, paths[done])
    ensures c in Subtree(db, op, from) && from < c && c !in paths
  {
    assert paths[done] in Subtree(db, op, from);
    assert paths[done] == c[..|c| - 1];
    ChildIsNew(db, op, from, paths, done, c);
  }

  // One turn of the walk: the next path's children go on the end of the list, once each.
  lemma WalkOne(db: Db, op: Op, from: Path, paths: seq<Path>, done: nat, found: seq<Path>)
    requires Worklist(db, op, from, paths, done) && done < |paths|
    requires Distinct(found) && forall c :: c in found <==> c in Children(db, op, paths[done])
    ensures Worklist(db, op, from, paths + found, done + 1)
  {
    var longer := paths + found;
    forall i | 0 <= i < |found|
      ensures found[i] in Subtree(db, op, from) && from < found[i] && found[i] !in paths
    {
      assert found[i] in found;
      FoundOne(db, op, from, paths, done, found[i]);
    }
    forall k | 0 <= k < |longer| ensures longer[k] in Subtree(db, op, from) {
      if k >= |paths| { assert longer[k] == found[k - |paths|]; }
    }
    forall i, j | 0 <= i < j < |longer| ensures longer[i] != longer[j] {
      if j >= |paths| { assert longer[j] == found[j - |paths|]; }
      if i < |paths| { assert longer[i] in paths; }
    }
    forall k: nat | 0 < k < |longer| ensures from < longer[k] && FoundAt(longer, done + 1, k) {
      if k < |paths| {
        assert FoundAt(paths, done, k);
        var j: nat :| j < done && j < k && Parent(paths[k]) == paths[j];
        assert longer[j] == paths[j];
      } else {
        assert found[k - |paths|] in found;
        assert Parent(longer[k]) == longer[done];
      }
    }
    forall j: nat | j < done + 1 ensures WalkedAt(db, op, longer, j) {
      if j < done { assert WalkedAt(db, op, paths, j); }
    }
  }

  lemma ChildIsNew(db: Db, op: Op, from: Path, paths: seq<Path>, done: nat, c: Path)
    requires Worklist(db, op, from, paths, done) && done < |paths|
    requires c != [] && Parent(c) == paths[done]
    ensures c !in paths
  {
    forall k: nat | k < |paths| ensures paths[k] != c {
      if k > 0 {
        assert FoundAt(paths, done, k);
        var j: nat :| j < done && j < k && Parent(paths[k]) == paths[j];
        assert paths[j] != paths[done];
      } else {
        assert from <= paths[done];
      }
    }
  }

  // A finished walk has found everything present under its start.
  lemma {:induction false} WalkIsComplete(db: Db, op: Op, from: Path, paths: seq<Path>, p: Path)
    requires WellFormed(Source(db, op), StageOf(db, op))
    requires Worklist(db, op, from, paths, |paths|)
    requires from <= p && View(db, op, p).Some?
    ensures p in paths
    decreases |p|
  {
    if p == from {
      assert paths[0] == p;
    } else {
      assert Placed(Source(db, op), StageOf(db, op), p);
      WalkIsComplete(db, op, from, paths, Parent(p));
      var j: nat :| j < |paths| && paths[j] == Parent(p);
      assert WalkedAt(db, op, paths, j) && p in Children(db, op, paths[j]);
    }
  }

  /** The second loop, part of the way: the first paths of the list have moved. */
  function PartView(db: Db, op: Op, from: Path, to: Path, moved: seq<Path>, p: Path): Option<Node> {
    if to <= p && Rekey(to, from, p) in moved then View(db, op, Rekey(to, from, p))
    else if p in moved then None
    else View(db, op, p)
  }

  // Source and destination paths never meet.
  lemma Disjoint(from: Path, to: Path, p: Path, q: Path)
    requires !(from <= to) && from <= p && to <= q
    requires !(to <= from)
    ensures p != q
  {
    assert p[..|from|] == from && q[..|to|] == to;
    if |from| <= |to| { assert q[..|from|] == to[..|from|]; } else { assert p[..|to|] == from[..|to|]; }
  }

  // A move that is let through never has its target above its source.
  lemma TargetNotAbove(db: Db, op: Op, from: Path, to: Path)
    requires WellFormed(Source(db, op), StageOf(db, op))
    requires RenameVerdict(db, op, from, to) == Move
    ensures !(from <= to) && !(to <= from)
    ensures forall p | to < p :: View(db, op, p).None?
    ensures !(from <= Parent(to)) && !(to <= Parent(to))
  {
    var f, s := Source(db, op), StageOf(db, op);
    forall p | to < p ensures View(db, op, p).None? {
      if IsDir(View(db, op, to)) {
        forall c | c != [] && Parent(c) == to ensures Overlay(f, s, c).None? {
          assert c !in Children(db, op, to);
        }
      }
      NothingBelow(f, s, to, p);
    }
  }

  // The finished second loop leaves exactly the moved view.
  lemma AllMoved(db: Db, op: Op, from: Path, to: Path, paths: seq<Path>, p: Path)
    requires WellFormed(Source(db, op), StageOf(db, op))
    requires RenameVerdict(db, op, from, to) == Move
    requires Worklist(db, op, from, paths, |paths|)
    ensures PartView(db, op, from, to, paths, p) == MovedView(db, op, from, to, p)
  {
    TargetNotAbove(db, op, from, to);
    assert Rekey(to, from, to) == from;
    if to <= p {
      var q := Rekey(to, from, p);
      if View(db, op, q).Some? {
        WalkIsComplete(db, op, from, paths, q);
      } else {
        assert q !in paths;
        if p in paths { Disjoint(from, to, p, p); }
      }
    } else if from <= p && View(db, op, p).Some? {
      WalkIsComplete(db, op, from, paths, p);
    }
  }

  /** The moved view is a tree. */
  lemma MovedIsTree(db: Db, op: Op, from: Path, to: Path, f: Files, s: Stage)
    requires WellFormed(Source(db, op), StageOf(db, op))
    requires RenameVerdict(db, op, from, to) == Move
    requires [] !in s && f == Source(db, op)
    requires forall p {:trigger Overlay(f, s, p)} :: Overlay(f, s, p) == MovedView(db, op, from, to, p)
    ensures WellFormed(f, s)
  {
    TargetNotAbove(db, op, from, to);
    forall p ensures Placed(f, s, p) {
      if p != [] && Overlay(f, s, p).Some? { MovedPathIsPlaced(db, op, from, to, f, s, p); }
    }
  }

  lemma MovedPathIsPlaced(db: Db, op: Op, from: Path, to: Path, f: Files, s: Stage, p: Path)
    requires WellFormed(Source(db, op), StageOf(db, op))
    requires RenameVerdict(db, op, from, to) == Move
    requires f == Source(db, op) && p != [] && Overlay(f, s, p).Some?
    requires forall p {:trigger Overlay(f, s, p)} :: Overlay(f, s, p) == MovedView(db, op, from, to, p)
    ensures Placed(f, s, p)
  {
    TargetNotAbove(db, op, from, to);
    if to < p {
      var q := Rekey(to, from, p);
      assert Placed(Source(db, op), StageOf(db, op), q);
      RekeyParent(to, from, p);
      forall c | c in p ensures c in to || c in q {
        var i: nat :| i < |p| && p[i] == c;
        if i < |to| { assert to[i] == c; } else { assert q[|from| + i - |to|] == c; }
      }
    } else if to == p {
      assert Rekey(to, from, p) == from;
      assert Placed(Source(db, op), StageOf(db, op), from);
    } else {
      assert Placed(Source(db, op), StageOf(db, op), p);
    }
  }

  // Part of the way through the second loop.
  ghost predicate PartMoved(db0: Db, db: Db, op: Op, from: Path, to: Path, moved: seq<Path>) {
    forall p {:trigger View(db, op, p)} :: View(db, op, p) == PartView(db0, op, from, to, moved, p)
  }

  // The next path to move still shows its old entry, its new parent is in place, and its new name is free
  // or, for the first one, held by the entry the move replaces.
  lemma NextToMove(db0: Db, db: Db, op: Op, from: Path, to: Path, paths: seq<Path>, j: nat)
    requires WellFormed(Source(db0, op), StageOf(db0, op))
    requires RenameVerdict(db0, op, from, to) == Move
    requires Worklist(db0, op, from, paths, |paths|) && j < |paths|
    requires PartMoved(db0, db, op, from, to, paths[..j])
    ensures from <= paths[j]
    ensures View(db, op, paths[j]) == View(db0, op, paths[j]) && View(db, op, paths[j]).Some?
    ensures !StageRefused(db, op, Rekey(from, to, paths[j]), View(db, op, paths[j]))
    ensures !StageRefused(db, op, paths[j], None)
  {
    var p := paths[j];
    TargetNotAbove(db0, op, from, to);
    assert p in Subtree(db0, op, from);
    if to <= p { Disjoint(from, to, p, p); }
    assert p !in paths[..j];
    assert Placed(Source(db0, op), StageOf(db0, op), p);
    var dst := Rekey(from, to, p);
    forall c | c in dst ensures c in to || c in p {
      var i: nat :| i < |dst| && dst[i] == c;
      if i < |to| { assert to[i] == c; } else { assert p[|from| + i - |to|] == c; }
    }
    if j == 0 {
      assert dst == to;
    } else {
      assert FoundAt(paths, |paths|, j);
      var k: nat :| k < j && Parent(p) == paths[k];
      RekeyParent(from, to, p);
      RekeyBack(from, to, Parent(p));
      assert paths[k] in paths[..j];
      RekeyBack(from, to, p);
      forall m: nat | m < j ensures paths[m] != dst {
        assert paths[m] in Subtree(db0, op, from);
        Disjoint(from, to, paths[m], dst);
      }
    }
  }

  // A move the store cannot stage is refused at its first row.
  lemma CannotMoveFirst(db0: Db, db: Db, op: Op, from: Path, to: Path, entry: Option<Node>)
    requires RenameVerdict(db0, op, from, to) == Unstageable
    requires PartMoved(db0, db, op, from, to, [])
    requires entry == View(db0, op, from)
    ensures StageRefused(db, op, to, entry) || forall db': Db :: StageRefused(db', op, from, None)
  {
    assert View(db, op, Parent(to)) == PartView(db0, op, from, to, [], Parent(to));
  }

  // Staging the entry under its new name and deleting the old one moves it.
  lemma MovesOne(db0: Db, db: Db, db': Db, op: Op, from: Path, to: Path, paths: seq<Path>, j: nat)
    requires WellFormed(Source(db0, op), StageOf(db0, op))
    requires RenameVerdict(db0, op, from, to) == Move
    requires Worklist(db0, op, from, paths, |paths|) && j < |paths| && from <= paths[j]
    requires PartMoved(db0, db, op, from, to, paths[..j])
    requires Source(db', op) == Source(db, op)
    requires StageOf(db', op) ==
      StageOf(db, op)[Rekey(from, to, paths[j]) := View(db0, op, paths[j])][paths[j] := None]
    ensures PartMoved(db0, db', op, from, to, paths[..j + 1])
  {
    var src := paths[j];
    var dst := Rekey(from, to, src);
    TargetNotAbove(db0, op, from, to);
    RekeyBack(from, to, src);
    assert paths[..j + 1] == paths[..j] + [src];
    forall p ensures View(db', op, p) == PartView(db0, op, from, to, paths[..j + 1], p) {
      Disjoint(from, to, src, dst);
      assert View(db, op, p) == PartView(db0, op, from, to, paths[..j], p);
      if to <= p {
        RekeyBack(to, from, p);
        if p == src { Disjoint(from, to, src, p); }
      }
    }
  }

  /** Renaming a subtree to a free name and back restores the view. */
  lemma RenameBack(db: Db, db': Db, op: Op, from: Path, to: Path, p: Path)
    requires WellFormed(Source(db, op), StageOf(db, op))
    requires RenameVerdict(db, op, from, to) == Move && View(db, op, to).None?
    requires MovedAll(db, db', op, from, to)
    ensures RenameVerdict(db', op, to, from) == Move
    ensures MovedView(db', op, to, from, p) == View(db, op, p)
  {
    TargetNotAbove(db, op, from, to);
    assert Rekey(to, from, to) == from && Rekey(from, to, from) == to;
    assert Placed(Source(db, op), StageOf(db, op), from);
    assert View(db', op, to) == MovedView(db, op, from, to, to);
    assert View(db', op, from) == MovedView(db, op, from, to, from);
    assert View(db', op, Parent(from)) == MovedView(db, op, from, to, Parent(from));
    if from <= p {
      RekeyBack(from, to, p);
      assert View(db', op, Rekey(from, to, p)) == MovedView(db, op, from, to, Rekey(from, to, p));
    } else {
      assert View(db', op, p) == MovedView(db, op, from, to, p);
      assert to <= p ==> p == to || to < p;
    }
  }

  ghost predicate MovedAll(db: Db, db': Db, op: Op, from: Path, to: Path) {
    forall p {:trigger View(db', op, p)} :: View(db', op, p) == MovedView(db, op, from, to, p)
  }
}
