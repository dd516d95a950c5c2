/** Workspace paths, tree entries and the overlay of staged changes on a published base. */
module Tree {
  import opened Wrappers

  newtype byte = x: int | 0 <= x < 256

  // A path that `path_name` accepts is a non-empty list of components; the root row '' is [].
  type Path = seq<string>

  // One entry; a directory carries no bytes.
  datatype Node =
    | File(bytes: seq<byte>, mode: nat)
    | Symlink(bytes: seq<byte>, mode: nat)
    | Directory(mode: nat)

  // A published row: a missing node is a row of kind "deleted".
  datatype Row = Row(node: Option<Node>, revision: nat)

  type Files = map<Path, Row>

  // A staged row: a missing node is a row of kind "deleted".
  type Stage = map<Path, Option<Node>>

  const MAX_FILE := 16 * 1024 * 1024

  predicate ValidPath(p: Path) {
    p != [] && forall c | c in p :: c != "" && c != "." && c != ".." && '/' !in c && '\0' !in c
  }

  function Parent(p: Path): Path {
    if p == [] then [] else p[..|p| - 1]
  }

  predicate IsDir(n: Option<Node>) {
    n.Some? && n.value.Directory?
  }

  predicate Fits(n: Option<Node>) {
    n.Some? && !n.value.Directory? ==> |n.value.bytes| <= MAX_FILE
  }

  function Revision(f: Files, p: Path): nat {
    if p in f then f[p].revision else 0
  }

  function Lookup(f: Files, p: Path): Option<Node> {
    if p in f then f[p].node else None
  }

  function Overlay(f: Files, s: Stage, p: Path): Option<Node> {
    if p in s then s[p] else Lookup(f, p)
  }

  // What one path owes the tree: a parent directory, a name the store accepts, and a bounded size.
  ghost predicate Placed(f: Files, s: Stage, p: Path) {
    p != [] && Overlay(f, s, p).Some? ==>
      ValidPath(p) && IsDir(Overlay(f, s, Parent(p))) && Fits(Overlay(f, s, p))
  }

  // The overlay is a tree rooted at a directory.
  ghost predicate WellFormed(f: Files, s: Stage) {
    [] !in s && IsDir(Lookup(f, [])) && forall p {:trigger Placed(f, s, p)} :: Placed(f, s, p)
  }

  // Every proper ancestor of a present path is a directory.
  lemma {:induction false} AncestorIsDirectory(f: Files, s: Stage, p: Path, n: nat)
    requires WellFormed(f, s)
    requires Overlay(f, s, p).Some? && n < |p|
    ensures IsDir(Overlay(f, s, p[..n]))
  {
    assert Placed(f, s, p);
    if n < |p| - 1 {
      AncestorIsDirectory(f, s, Parent(p), n);
      assert Parent(p)[..n] == p[..n];
    }
  }

  // The paths present strictly below a path that is missing or has no children: none.
  lemma NothingBelow(f: Files, s: Stage, d: Path, p: Path)
    requires WellFormed(f, s)
    requires d < p
    requires !IsDir(Overlay(f, s, d)) || forall c | c != [] && Parent(c) == d :: Overlay(f, s, c).None?
    ensures Overlay(f, s, p).None?
  {
    if Overlay(f, s, p).Some? {
      AncestorIsDirectory(f, s, p, |d|);
      assert p[..|d|] == d;
      var c := p[..|d| + 1];
      assert Parent(c) == d;
      if |d| + 1 < |p| { AncestorIsDirectory(f, s, p, |d| + 1); }
    }
  }

  /** How a published base may move on while an operation holds an older one. */

  // At one path: revisions never fall, and an unchanged revision means an unchanged row and,
  // for a directory, unchanged membership.
  ghost predicate EvolvesAt(a: Files, b: Files, q: Path) {
    && Revision(a, q) <= Revision(b, q)
    && (Revision(a, q) == Revision(b, q) ==>
          && Lookup(a, q) == Lookup(b, q)
          && (IsDir(Lookup(a, q)) ==> SameMembers(a, b, q)))
  }

  ghost predicate SameMembers(a: Files, b: Files, q: Path) {
    forall p {:trigger Lookup(a, p)} {:trigger Lookup(b, p)} ::
      p != [] && Parent(p) == q ==> (Lookup(a, p).Some? <==> Lookup(b, p).Some?)
  }

  ghost predicate Evolves(a: Files, b: Files) {
    forall q {:trigger EvolvesAt(a, b, q)} :: EvolvesAt(a, b, q)
  }

  lemma EvolvesTransitive(a: Files, b: Files, c: Files)
    requires Evolves(a, b) && Evolves(b, c)
    ensures Evolves(a, c)
  {
    forall q ensures EvolvesAt(a, c, q) {
      assert EvolvesAt(a, b, q) && EvolvesAt(b, c, q);
    }
  }

  // What the captured dependencies of an operation must cover: every staged path, and its parent
  // whenever the staged row changes the parent's membership.
  ghost predicate CoveredAt(f: Files, s: Stage, deps: map<Path, nat>, p: Path) {
    p in s ==> p in deps && (Parent(p) in deps || (s[p].Some? && Lookup(f, p).Some?))
  }

  ghost predicate Covered(f: Files, s: Stage, deps: map<Path, nat>) {
    forall p {:trigger CoveredAt(f, s, deps, p)} :: CoveredAt(f, s, deps, p)
  }

  ghost predicate AllCurrent(f: Files, deps: map<Path, nat>) {
    forall p | p in deps :: Revision(f, p) == deps[p]
  }

  /** A covered overlay that is a tree over one base is a tree over every later base on which
      its dependencies are still current. */
  lemma OverlayMovesToLaterBase(a: Files, b: Files, s: Stage, deps: map<Path, nat>)
    requires WellFormed(a, s) && WellFormed(b, map[])
    requires Evolves(a, b) && Covered(a, s, deps)
    requires AllCurrent(a, deps) && AllCurrent(b, deps)
    ensures WellFormed(b, s) && Covered(b, s, deps)
  {
    forall p ensures CoveredAt(b, s, deps, p) {
      assert CoveredAt(a, s, deps, p) && EvolvesAt(a, b, p);
    }
    forall p ensures Placed(b, s, p) {
      if p != [] && Overlay(b, s, p).Some? {
        OneOverlayPathMoves(a, b, s, deps, p);
      }
    }
  }

  lemma OneOverlayPathMoves(a: Files, b: Files, s: Stage, deps: map<Path, nat>, p: Path)
    requires WellFormed(a, s) && WellFormed(b, map[])
    requires Evolves(a, b) && Covered(a, s, deps)
    requires AllCurrent(a, deps) && AllCurrent(b, deps)
    requires p != [] && Overlay(b, s, p).Some?
    ensures Placed(b, s, p)
  {
    var q := Parent(p);
    assert Overlay(b, map[], p) == Lookup(b, p) && Overlay(b, map[], q) == Lookup(b, q);
    assert CoveredAt(a, s, deps, p) && CoveredAt(a, s, deps, q);
    assert EvolvesAt(a, b, p) && EvolvesAt(a, b, q);
    if p in s {
      assert Placed(a, s, p);
      if q !in s && q !in deps { assert Placed(b, map[], p); }
    } else {
      assert Placed(b, map[], p);
      if q in s {
        assert SameMembers(a, b, q);
        assert Lookup(a, p).Some?;
        assert Placed(a, s, p);
      }
    }
  }
}
