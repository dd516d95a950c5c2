/** Which Git publications pass, and what a peer's file lease protects across them. */
module Git {
  import opened Wrappers
  import opened StoreModel

  type Oid = string

  datatype Repo = Repo(refs: map<string, Oid>, head: Option<Oid>)

  // What the object database answers: the blobs of a tree-ish by path, and the checks on a branch tip.
  datatype Objects = Objects(tree: Oid -> map<string, string>, isCommit: Oid -> bool, hasSubmodule: Oid -> bool)

  // What one publication presents: the publisher and its claims, the staged paths, the repository exported
  // from the published files and from the operation's view, and the two contents of .git/HEAD.
  datatype Request = Request(
    owner: string, claims: map<string, string>, changed: set<string>,
    before: Repo, after: Repo, headFile: Option<string>, newHeadFile: Option<string>)

  datatype Reason = GitCandidateInvalid | ClaimLost | ClaimConflict | Unhandled

  predicate Startswith(s: string, prefix: string) { prefix <= s }

  function Get(m: map<string, Oid>, k: string): Option<Oid> {
    if k in m then Some(m[k]) else None
  }

  // A missing side is compared as the empty tree.
  function TreeOf(o: Objects, oid: Option<Oid>): map<string, string> {
    if oid.None? then map[] else o.tree(oid.value)
  }

  // `diff-tree --name-only -r`: the paths whose entries differ.
  function Diff(a: map<string, string>, b: map<string, string>): (d: set<string>)
    ensures forall p :: p in d <==> Blob(a, p) != Blob(b, p)
  {
    set p | p in a.Keys + b.Keys && Blob(a, p) != Blob(b, p)
  }

  function Blob(t: map<string, string>, p: string): Option<string> {
    if p in t then Some(t[p]) else None
  }

  predicate Live(leases: map<string, Lease>, resource: string, now: int) {
    resource in leases && leases[resource].active && leases[resource].expires > now
  }

  // `authorize` of the publisher's own claim, "missing" when it presents none; an empty claim asks nothing.
  predicate Authorized(leases: map<string, Lease>, q: Request, resource: string, now: int) {
    var claim := if resource in q.claims then q.claims[resource] else "missing";
    Live(leases, resource, now) && leases[resource].owner == q.owner && (claim == "" || leases[resource].claim == claim)
  }

  // No lease is active on the resource, or the publisher holds it under its own claim.
  predicate Free(leases: map<string, Lease>, q: Request, resource: string, now: int) {
    Live(leases, resource, now) ==>
      leases[resource].owner == q.owner && resource in q.claims && q.claims[resource] == leases[resource].claim
  }

  function Names(q: Request): set<string> { q.before.refs.Keys + q.after.refs.Keys }

  predicate Moves(q: Request, name: string) { Get(q.before.refs, name) != Get(q.after.refs, name) }

  predicate TipOk(q: Request, o: Objects, name: string) {
    name in q.after.refs && Startswith(name, "refs/heads/") ==>
      o.isCommit(q.after.refs[name]) && !o.hasSubmodule(q.after.refs[name])
  }

  function RefDiff(q: Request, o: Objects, name: string): set<string> {
    Diff(TreeOf(o, Get(q.before.refs, name)), TreeOf(o, Get(q.after.refs, name)))
  }

  function HeadDiff(q: Request, o: Objects): set<string> {
    if q.before.head == q.after.head then {} else Diff(TreeOf(o, q.before.head), TreeOf(o, q.after.head))
  }

  // Every path some changed ref or HEAD moves, and every staged path outside the repository.
  ghost predicate Affected(q: Request, o: Objects, p: string) {
    || (exists name :: name in Names(q) && Moves(q, name) && p in RefDiff(q, o, name))
    || p in HeadDiff(q, o)
    || (p in q.changed && !Startswith(p, ".git/"))
  }

  function Updates(q: Request): map<string, Option<Oid>> {
    var moved := map name | name in Names(q) && Moves(q, name) :: Get(q.after.refs, name);
    if q.before.head == q.after.head then moved else moved["HEAD" := q.after.head]
  }

  ghost predicate Accepted(q: Request, o: Objects, leases: map<string, Lease>, now: int) {
    && (forall name | name in Names(q) && Moves(q, name) ::
          Authorized(leases, q, "ref:" + name, now) && TipOk(q, o, name))
    && (forall name | name in Updates(q) :: Free(leases, q, "ref:" + name, now))
    && q.headFile.Some? && q.newHeadFile.Some?
    && (q.headFile != q.newHeadFile ==> Authorized(leases, q, "ref:HEAD", now))
    && (forall p :: Affected(q, o, p) ==> Free(leases, q, "file:" + p, now))
  }

  predicate TouchesGit(q: Request) { exists p | p in q.changed :: Startswith(p, ".git/") }

  // The first loop: authorise every changed ref, check its tip, and collect the paths it moves.
  method CheckRefs(q: Request, o: Objects, leases: map<string, Lease>, now: int)
    returns (affected: set<string>, refused: Option<Reason>)
    ensures refused.None? <==> forall name | name in Names(q) && Moves(q, name) ::
      Authorized(leases, q, "ref:" + name, now) && TipOk(q, o, name)
    ensures refused.None? ==> forall p :: p in affected <==>
      exists name :: name in Names(q) && Moves(q, name) && p in RefDiff(q, o, name)
  {
    affected, refused := {}, None;
    var rest := Names(q);
    while rest != {}
      invariant rest <= Names(q)
      invariant forall name | name in Names(q) - rest && Moves(q, name) ::
        Authorized(leases, q, "ref:" + name, now) && TipOk(q, o, name)
      invariant forall p :: p in affected <==>
        exists name :: name in Names(q) - rest && Moves(q, name) && p in RefDiff(q, o, name)
      decreases |rest|
    {
      var name :| name in rest;
      ghost var done := Names(q) - rest;
      rest := rest - {name};
      assert Names(q) - rest == done + {name};
      if Moves(q, name) {
        if !Authorized(leases, q, "ref:" + name, now) { return affected, Some(ClaimLost); }
        if !TipOk(q, o, name) { return affected, Some(GitCandidateInvalid); }
        affected := affected + RefDiff(q, o, name);
      }
    }
  }

  // The later loops: the first resource a peer holds stops the publication.
  method CheckFree(q: Request, leases: map<string, Lease>, prefix: string, names: set<string>, now: int)
    returns (refused: Option<Reason>)
    ensures refused.None? <==> forall name | name in names :: Free(leases, q, prefix + name, now)
  {
    var rest := names;
    while rest != {}
      invariant rest <= names
      invariant forall name | name in names - rest :: Free(leases, q, prefix + name, now)
      decreases |rest|
    {
      var name :| name in rest;
      if !Free(leases, q, prefix + name, now) { return Some(ClaimConflict); }
      rest := rest - {name};
    }
    return None;
  }

  /** `validate_git_publication`, for an operation that validates and a candidate that passes fsck. */
  method ValidatePublication(q: Request, o: Objects, leases: map<string, Lease>, now: int)
    returns (r: Result<map<string, Option<Oid>>, Reason>)
    ensures !TouchesGit(q) ==> r == Ok(map[])
    ensures TouchesGit(q) ==> (r.Ok? <==> Accepted(q, o, leases, now))
    ensures TouchesGit(q) && r.Ok? ==> r.value == Updates(q)
  {
    if !TouchesGit(q) { return Ok(map[]); }
    var affected, refused := CheckRefs(q, o, leases, now);
    if refused.Some? { return Err(refused.value); }
    affected := affected + HeadDiff(q, o);
    refused := CheckFree(q, leases, "ref:", Updates(q).Keys, now);
    if refused.Some? { return Err(refused.value); }
    if q.headFile.None? || q.newHeadFile.None? { return Err(Unhandled); }
    if q.headFile != q.newHeadFile && !Authorized(leases, q, "ref:HEAD", now) { return Err(ClaimLost); }
    var outside := set p | p in q.changed && !Startswith(p, ".git/");
    refused := CheckFree(q, leases, "file:", affected + outside, now);
    assert forall p :: p in affected + outside <==> Affected(q, o, p);
    if refused.Some? { return Err(refused.value); }
    return Ok(Updates(q));
  }

  // The refs a set of updates leaves, and the HEAD.
  function Patch(r: Repo, updates: map<string, Option<Oid>>): Repo {
    Repo(map name | name in r.refs.Keys + updates.Keys && name != "HEAD"
           && (if name in updates then updates[name].Some? else true) ::
           if name in updates then updates[name].value else r.refs[name],
         if "HEAD" in updates then updates["HEAD"] else r.head)
  }

  /** The returned updates turn the previous refs and HEAD into exactly the candidate's. */
  lemma UpdatesPatchToCandidate(q: Request)
    requires "HEAD" !in Names(q)
    ensures Patch(q.before, Updates(q)) == q.after
  {
    var patched := Patch(q.before, Updates(q));
    forall name ensures Get(patched.refs, name) == Get(q.after.refs, name) {
      if name in Names(q) && Moves(q, name) { assert name in Updates(q); }
      assert name in Names(q) || (name !in q.before.refs && name !in q.after.refs);
    }
    assert patched.refs.Keys == q.after.refs.Keys by {
      forall name ensures name in patched.refs <==> name in q.after.refs {
        assert Get(patched.refs, name) == Get(q.after.refs, name);
      }
    }
    forall name | name in q.after.refs ensures patched.refs[name] == q.after.refs[name] {
      assert Get(patched.refs, name) == Get(q.after.refs, name);
    }
  }

  // The peer's own lease on one file, live at a publication.
  predicate HeldBy(leases: map<string, Lease>, peer: string, p: string, now: int) {
    Live(leases, "file:" + p, now) && leases["file:" + p].owner == peer
  }

  /** An accepted publication by anyone else leaves a leased file's blob alone in every ref it keeps,
      in HEAD, and out of every ref it creates or deletes. */
  lemma LeasedFileStays(
      q: Request, o: Objects, leases: map<string, Lease>, now: int, peer: string, p: string, name: string)
    requires Accepted(q, o, leases, now) && HeldBy(leases, peer, p, now) && q.owner != peer
    ensures Blob(TreeOf(o, Get(q.before.refs, name)), p) == Blob(TreeOf(o, Get(q.after.refs, name)), p)
    ensures Blob(TreeOf(o, q.before.head), p) == Blob(TreeOf(o, q.after.head), p)
    ensures p in q.changed ==> Startswith(p, ".git/")
  {
    assert !Free(leases, q, "file:" + p, now);
    assert !Affected(q, o, p);
    if name in Names(q) && Moves(q, name) { assert p !in RefDiff(q, o, name); }
  }

  // The publisher holds the resource: a lease that runs, in its own name, under the claim it presents.
  ghost predicate Leased(q: Request, leases: map<string, Lease>, resource: string, now: int) {
    exists lease: Lease :: resource in leases && leases[resource] == lease
      && lease.active && now < lease.expires && lease.owner == q.owner
      && resource in q.claims && q.claims[resource] == lease.claim
  }

  // Somebody holds it, and not the publisher under the claim it presents.
  ghost predicate HeldAgainst(q: Request, leases: map<string, Lease>, resource: string, now: int) {
    !Leased(q, leases, resource, now)
    && exists lease: Lease :: resource in leases && leases[resource] == lease && lease.active && now < lease.expires
  }

  // A path some ref, or HEAD, names differently before and after, or that is staged beside the repository.
  ghost predicate Differs(q: Request, o: Objects, p: string) {
    || (exists name :: name in Names(q) && BlobAt(o, q.before, name, p) != BlobAt(o, q.after, name, p))
    || Blob(TreeOf(o, q.before.head), p) != Blob(TreeOf(o, q.after.head), p)
    || (p in q.changed && !(|p| >= 5 && p[..5] == ".git/"))
  }

  function BlobAt(o: Objects, r: Repo, name: string, p: string): Option<string> {
    Blob(TreeOf(o, Get(r.refs, name)), p)
  }

  ghost predicate RefMayMove(q: Request, o: Objects, leases: map<string, Lease>, now: int, name: string) {
    && Leased(q, leases, "ref:" + name, now)
    && (name in q.after.refs && |name| >= 11 && name[..11] == "refs/heads/" ==>
          o.isCommit(q.after.refs[name]) && !o.hasSubmodule(q.after.refs[name]))
  }

  lemma FreeIsNotHeldAgainst(q: Request, leases: map<string, Lease>, resource: string, now: int)
    ensures Free(leases, q, resource, now) <==> !HeldAgainst(q, leases, resource, now)
    ensures Authorized(leases, q, resource, now) && Free(leases, q, resource, now) <==> Leased(q, leases, resource, now)
  {}

  lemma AffectedDiffers(q: Request, o: Objects, p: string)
    ensures Affected(q, o, p) <==> Differs(q, o, p)
  {
    if Affected(q, o, p) && exists name :: name in Names(q) && Moves(q, name) && p in RefDiff(q, o, name) {
      var name :| name in Names(q) && Moves(q, name) && p in RefDiff(q, o, name);
      assert BlobAt(o, q.before, name, p) != BlobAt(o, q.after, name, p);
    }
    if exists name :: name in Names(q) && BlobAt(o, q.before, name, p) != BlobAt(o, q.after, name, p) {
      var name :| name in Names(q) && BlobAt(o, q.before, name, p) != BlobAt(o, q.after, name, p);
      assert Moves(q, name) && p in RefDiff(q, o, name);
    }
  }

  lemma RefsMayMove(q: Request, o: Objects, leases: map<string, Lease>, now: int, name: string)
    ensures RefMayMove(q, o, leases, now, name) <==>
      Authorized(leases, q, "ref:" + name, now) && TipOk(q, o, name) && Free(leases, q, "ref:" + name, now)
  {
    FreeIsNotHeldAgainst(q, leases, "ref:" + name, now);
  }

  /** A publication that touches the repository is accepted exactly when the publisher holds, under its own
      claim, every ref that moves; each branch it leaves ends in a commit without submodules; nobody else holds
      HEAD if HEAD moves, and the publisher is authorised for it if its file changes; and nobody else holds a
      path that differs in any ref, in HEAD or in what is staged beside the repository. */
  lemma WhenAccepted(q: Request, o: Objects, leases: map<string, Lease>, now: int)
    requires "HEAD" !in Names(q)
    ensures Accepted(q, o, leases, now) <==>
      && (forall name | name in Names(q) && Get(q.before.refs, name) != Get(q.after.refs, name) ::
            RefMayMove(q, o, leases, now, name))
      && (q.before.head != q.after.head ==> !HeldAgainst(q, leases, "ref:HEAD", now))
      && q.headFile.Some? && q.newHeadFile.Some?
      && (q.headFile != q.newHeadFile ==> Authorized(leases, q, "ref:HEAD", now))
      && forall p | Differs(q, o, p) :: !HeldAgainst(q, leases, "file:" + p, now)
  {
    forall name ensures RefMayMove(q, o, leases, now, name) <==>
      Authorized(leases, q, "ref:" + name, now) && TipOk(q, o, name) && Free(leases, q, "ref:" + name, now)
    {
      RefsMayMove(q, o, leases, now, name);
    }
    forall p ensures Affected(q, o, p) <==> Differs(q, o, p) { AffectedDiffers(q, o, p); }
    forall r ensures Free(leases, q, r, now) <==> !HeldAgainst(q, leases, r, now) {
      FreeIsNotHeldAgainst(q, leases, r, now);
    }
    assert forall name :: name in Updates(q) <==>
      (name in Names(q) && Moves(q, name)) || (name == "HEAD" && q.before.head != q.after.head);
    assert "ref:" + "HEAD" == "ref:HEAD";
    if Accepted(q, o, leases, now) {
      forall p | Differs(q, o, p) ensures !HeldAgainst(q, leases, "file:" + p, now) {
        assert Affected(q, o, p);
      }
    }
  }

  // Who is authorised for HEAD.
  lemma HeadIsAuthorised(q: Request, leases: map<string, Lease>, now: int)
    ensures Authorized(leases, q, "ref:HEAD", now) ==>
      && "ref:HEAD" in leases && leases["ref:HEAD"].active && now < leases["ref:HEAD"].expires
      && leases["ref:HEAD"].owner == q.owner
      && ("ref:HEAD" in q.claims && q.claims["ref:HEAD"] != "" ==> q.claims["ref:HEAD"] == leases["ref:HEAD"].claim)
    ensures Leased(q, leases, "ref:HEAD", now) ==> Authorized(leases, q, "ref:HEAD", now)
  {}

  /** Any staged path inside `.git` brings the whole check on, and only that does. */
  lemma WhenGitIsTouched(q: Request)
    ensures TouchesGit(q) <==> exists p :: p in q.changed && |p| >= 5 && p[..5] == ".git/"
    ensures forall rest | ".git/" + rest in q.changed :: TouchesGit(q)
  {
    assert forall rest :: Startswith(".git/" + rest, ".git/");
  }

  // A series of accepted publications, each starting from the repository the one before it left.
  datatype Accept = Accept(q: Request, leases: map<string, Lease>, now: int)

  ghost predicate AcceptedAt(series: seq<Accept>, o: Objects, i: nat)
    requires i < |series|
  {
    Accepted(series[i].q, o, series[i].leases, series[i].now)
  }

  ghost predicate LinkedAt(series: seq<Accept>, i: nat)
    requires i < |series|
  {
    i > 0 ==> series[i].q.before == series[i - 1].q.after
  }

  ghost predicate IsSeries(series: seq<Accept>, o: Objects) {
    forall i: nat {:trigger AcceptedAt(series, o, i)} {:trigger LinkedAt(series, i)} | i < |series| ::
      AcceptedAt(series, o, i) && LinkedAt(series, i)
  }

  ghost predicate PeerHolds(series: seq<Accept>, peer: string, p: string) {
    forall i | 0 <= i < |series| :: HeldBy(series[i].leases, peer, p, series[i].now) && series[i].q.owner != peer
  }

  // What every ref and HEAD say of one path.
  ghost predicate SameBlob(o: Objects, r: Repo, r': Repo, p: string, name: string) {
    && Blob(TreeOf(o, Get(r'.refs, name)), p) == Blob(TreeOf(o, Get(r.refs, name)), p)
    && Blob(TreeOf(o, r'.head), p) == Blob(TreeOf(o, r.head), p)
  }

  lemma OnePublication(series: seq<Accept>, o: Objects, peer: string, p: string, name: string, k: nat)
    requires IsSeries(series, o) && PeerHolds(series, peer, p) && k < |series|
    ensures SameBlob(o, series[k].q.before, series[k].q.after, p, name)
  {
    assert AcceptedAt(series, o, k);
    LeasedFileStays(series[k].q, o, series[k].leases, series[k].now, peer, p, name);
  }

  /** A path a peer leases throughout, while the peer publishes nothing, keeps its blob, present or
      absent, in every ref and in HEAD from before the first publication to after the last. */
  lemma {:induction false} LeasedFileKeepsItsBlob(
      series: seq<Accept>, o: Objects, peer: string, p: string, name: string, k: nat)
    requires IsSeries(series, o) && PeerHolds(series, peer, p) && k < |series|
    ensures SameBlob(o, series[0].q.before, series[k].q.after, p, name)
  {
    OnePublication(series, o, peer, p, name, k);
    if k > 0 {
      assert LinkedAt(series, k);
      LeasedFileKeepsItsBlob(series, o, peer, p, name, k - 1);
    }
  }
}
