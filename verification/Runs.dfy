/** Whole runs of the store: any interleaving of admissions, pins, private calls, publications,
    closes, fence changes and restarts. */
module Runs {
  import opened Wrappers
  import opened Tree
  import opened StoreModel
  import opened Publication

  ghost predicate StepAt(states: seq<Db>, steps: seq<Step>, i: nat)
    requires |states| == |steps| + 1 && i < |steps|
  {
    Next(states[i], states[i + 1], steps[i])
  }

  ghost predicate IsRun(states: seq<Db>, steps: seq<Step>) {
    && |states| == |steps| + 1
    && Inv(states[0])
    && forall i: nat {:trigger StepAt(states, steps, i)} | i < |steps| :: StepAt(states, steps, i)
  }

  // The tables a new store starts from.
  function Fresh(mode: nat): Db {
    Db(map[[] := Row(Some(Directory(mode)), 1)], map[], map[], map[], map[], None, map[])
  }

  lemma FreshIsInv(mode: nat)
    ensures Inv(Fresh(mode))
  {
    var db := Fresh(mode);
    forall p ensures Placed(db.files, map[], p) {}
    forall o ensures !IsRunning(db, o) && ClosedOp(db, o) {}
  }

  lemma {:induction false} RunKeepsInv(states: seq<Db>, steps: seq<Step>, k: nat)
    requires IsRun(states, steps) && k < |states|
    ensures Inv(states[k])
  {
    if k > 0 {
      RunKeepsInv(states, steps, k - 1);
      assert StepAt(states, steps, k - 1);
      NextKeepsInv(states[k - 1], states[k], steps[k - 1]);
    }
  }

  /** In every state of every run the published files are a tree, and so is what a running operation
      sees, covered by what it captured, as long as it is pinned or still current. */
  lemma RunKeepsTrees(states: seq<Db>, steps: seq<Step>, k: nat, op: Op)
    requires IsRun(states, steps) && k < |states|
    ensures WellFormed(states[k].files, map[])
    ensures var db := states[k];
      IsRunning(db, op) && (op in db.snapshots || Current(db, op)) ==>
        WellFormed(Source(db, op), StageOf(db, op)) && Covered(Source(db, op), StageOf(db, op), DepsOf(db, op))
  {
    RunKeepsInv(states, steps, k);
    assert IsRunning(states[k], op) ==> OpInv(states[k], op);
  }

  // An unpinned operation has staged a file in a directory that a peer has since deleted.
  function Overtaken(): Db {
    Db(map[[] := Row(Some(Directory(493)), 2), ["d"] := Row(None, 2)],
       map["op" := map[["d", "f"] := Some(File([], 420))]],
       map["op" := map[["d"] := 1, ["d", "f"] := 0]],
       map[],
       map["op" := Operation("owner", Native(""), Running, None)],
       None, map[])
  }

  /** The condition is needed: what a stale, unpinned operation sees need not be a tree. */
  lemma StaleViewNeedNotBeATree()
    ensures var db := Overtaken();
      Inv(db) && IsRunning(db, "op") && !Current(db, "op") && !WellFormed(Source(db, "op"), StageOf(db, "op"))
  {
    var db := Overtaken();
    forall p ensures Placed(db.files, map[], p) {}
    assert DepsOf(db, "op")[["d"]] == 1 && Revision(db.files, ["d"]) == 2;
    assert !Placed(Source(db, "op"), StageOf(db, "op"), ["d", "f"]) by { assert Parent(["d", "f"]) == ["d"]; }
    forall o ensures if IsRunning(db, o) then OpInv(db, o) else ClosedOp(db, o) {}
  }

  lemma EvolvesReflexive(f: Files)
    ensures Evolves(f, f)
  {
    forall q ensures EvolvesAt(f, f, q) {}
  }

  lemma NextEvolves(db: Db, db': Db, step: Step)
    requires Inv(db) && Next(db, db', step)
    ensures Evolves(db.files, db'.files)
  {
    EvolvesReflexive(db.files);
    if step.PublishOp? {
      CurrentOverlayOnLiveBase(db, step.op);
      PublicationEvolves(db, step.op);
    }
  }

  // A published revision never falls, and while it stands still so do the row and, for a directory,
  // its membership.
  lemma {:induction false} RunEvolves(states: seq<Db>, steps: seq<Step>, i: nat, j: nat)
    requires IsRun(states, steps) && i <= j < |states|
    ensures Evolves(states[i].files, states[j].files)
    decreases j
  {
    if i == j {
      EvolvesReflexive(states[i].files);
    } else {
      RunEvolves(states, steps, i, j - 1);
      RunKeepsInv(states, steps, j - 1);
      assert StepAt(states, steps, j - 1);
      NextEvolves(states[j - 1], states[j], steps[j - 1]);
      EvolvesTransitive(states[i].files, states[j - 1].files, states[j].files);
    }
  }

  lemma StaleStaysStaleOneStep(db: Db, db': Db, step: Step, op: Op)
    requires Inv(db) && Next(db, db', step)
    requires IsRunning(db, op) && !Current(db, op)
    ensures IsRunning(db', op) ==> !Current(db', op)
  {
    if IsRunning(db', op) {
      NextEvolves(db, db', step);
      assert step.Private? && step.op != op ==> SameRows(db, db', op);
      var p :| p in DepsOf(db, op) && Revision(db.files, p) != DepsOf(db, op)[p];
      assert OpInv(db, op) && EvolvesAt(db.files, db'.files, p);
      assert p in DepsOf(db', op) && DepsOf(db', op)[p] == DepsOf(db, op)[p];
    }
  }

  /** An operation whose evidence has gone stale never becomes current again, so it never publishes. */
  lemma {:induction false} StaleNeverPublishes(states: seq<Db>, steps: seq<Step>, op: Op, i: nat, j: nat)
    requires IsRun(states, steps) && i <= j < |states|
    requires IsRunning(states[i], op) && !Current(states[i], op)
    ensures IsRunning(states[j], op) ==> !Current(states[j], op)
    ensures j < |steps| && steps[j].PublishOp? ==> steps[j].op != op
    decreases j
  {
    if i < j {
      StaleNeverPublishes(states, steps, op, i, j - 1);
      RunKeepsInv(states, steps, j - 1);
      if IsRunning(states[j - 1], op) {
        assert StepAt(states, steps, j - 1);
        StaleStaysStaleOneStep(states[j - 1], states[j], steps[j - 1], op);
      } else {
        OnRecord(states, steps, op, i, j - 1);
        assert StepAt(states, steps, j - 1);
        RecordStays(states[j - 1], states[j], steps[j - 1], op);
      }
    }
    if j < |steps| { assert StepAt(states, steps, j); }
  }

  // An operation once on record stays there, and a closed one's record stands.
  lemma RecordStays(db: Db, db': Db, step: Step, op: Op)
    requires Next(db, db', step) && op in db.ops
    ensures op in db'.ops
    ensures !IsRunning(db, op) ==> db'.ops[op] == db.ops[op]
  {}

  /** A closed operation keeps its status and its receipt for good, through every later step and restart. */
  lemma {:induction false} ClosedStaysClosed(states: seq<Db>, steps: seq<Step>, op: Op, i: nat, j: nat)
    requires IsRun(states, steps) && i <= j < |states|
    requires op in states[i].ops && !IsRunning(states[i], op)
    ensures op in states[j].ops && states[j].ops[op] == states[i].ops[op]
    decreases j
  {
    if i < j {
      ClosedStaysClosed(states, steps, op, i, j - 1);
      assert StepAt(states, steps, j - 1);
      RecordStays(states[j - 1], states[j], steps[j - 1], op);
    }
  }

  lemma {:induction false} OnRecord(states: seq<Db>, steps: seq<Step>, op: Op, i: nat, j: nat)
    requires IsRun(states, steps) && i <= j < |states|
    requires op in states[i].ops
    ensures op in states[j].ops
    decreases j
  {
    if i < j {
      OnRecord(states, steps, op, i, j - 1);
      assert StepAt(states, steps, j - 1);
      RecordStays(states[j - 1], states[j], steps[j - 1], op);
    }
  }

  /** What a receipt attests: its operation and how it ended, the removal it answers for, and exactly the
      paths the operation captured, each at the revision it captured. */
  ghost predicate Attests(before: Db, after: Db, op: Op)
    requires op in before.ops && op in after.ops
  {
    var ended := after.ops[op];
    && ended == before.ops[op].(status := ended.status, receipt := ended.receipt)
    && ended.receipt.Some? && ended.receipt.value.operation == op && ended.receipt.value.status == ended.status
    && ended.receipt.value.observed.Keys == DepsOf(before, op).Keys
    && (forall p | p in DepsOf(before, op) :: ended.receipt.value.observed[p] == DepsOf(before, op)[p])
    && (ended.receipt.value.bound.None? <==> ended.intent.Native?)
    && (ended.intent.SourceRemoval? ==>
          && ended.receipt.value.bound.value.digest == ended.intent.removal.digest
          && ended.receipt.value.bound.value.principal == ended.intent.removal.principal)
  }

  // An end that is no publication names no path of its own accord and moves none.
  ghost predicate EndsUnpublished(db: Db, db': Db, step: Step, op: Op)
    requires op in db'.ops && db'.ops[op].receipt.Some?
  {
    && db'.files == db.files
    && match step
       case Close(_, status, resources, code) =>
         db'.ops[op].status == status && db'.ops[op].receipt.value.resources == resources
         && db'.ops[op].receipt.value.code == code
       case Restart => db'.ops[op].status == Aborted && db'.ops[op].receipt.value.resources == {}
         && db'.ops[op].receipt.value.code == "operation_interrupted"
       case _ => false
  }

  /** A publication's receipt names exactly the paths whose entries it changed, and attests revisions that
      were published until then: every one it changed has a later revision now. */
  ghost predicate EndsPublished(db: Db, db': Db, op: Op)
    requires op in db'.ops && db'.ops[op].receipt.Some?
  {
    var receipt := db'.ops[op].receipt.value;
    && db'.ops[op].status == Applied && receipt.resources <= receipt.observed.Keys
    && (forall p :: p in receipt.resources <==> Lookup(db'.files, p) != Lookup(db.files, p))
    && (forall p | p in receipt.observed :: receipt.observed[p] == Revision(db.files, p))
    && forall p | p in receipt.resources :: receipt.observed[p] < Revision(db'.files, p)
  }

  lemma PublicationEndsPublished(db: Db, op: Op)
    requires Inv(db) && IsRunning(db, op) && Current(db, op)
    ensures EndsPublished(db, Publish(db, op), op)
  {
    var db' := Publish(db, op);
    var receipt := db'.ops[op].receipt.value;
    assert OpInv(db, op);
    forall p ensures p in receipt.resources <==> Lookup(db'.files, p) != Lookup(db.files, p) {
      PublishedIsOverlay(db, op, p);
    }
    forall p | p in receipt.resources ensures p in receipt.observed && receipt.observed[p] < Revision(db'.files, p) {
      PublishedIsOverlay(db, op, p);
      assert CoveredAt(Source(db, op), StageOf(db, op), DepsOf(db, op), p);
    }
  }

  lemma EndIsAttested(db: Db, db': Db, step: Step, op: Op)
    requires Inv(db) && Next(db, db', step) && IsRunning(db, op)
    ensures IsRunning(db', op) ==> forall p | p in DepsOf(db, op) ::
      p in DepsOf(db', op) && DepsOf(db', op)[p] == DepsOf(db, op)[p]
    ensures !IsRunning(db', op) ==> op in db'.ops && Attests(db, db', op)
    ensures !IsRunning(db', op) ==>
      if step.PublishOp? then step.op == op && EndsPublished(db, db', op) else EndsUnpublished(db, db', step, op)
  {
    if step.PublishOp? && step.op == op { PublicationEndsPublished(db, op); }
    if step.Private? && step.op != op { assert SameRows(db, db', op); }
  }

  // The step on which an operation ended.
  ghost predicate EndedAt(states: seq<Db>, steps: seq<Step>, op: Op, k: nat)
    requires |states| == |steps| + 1 && k < |steps|
  {
    && IsRunning(states[k], op) && !IsRunning(states[k + 1], op) && op in states[k + 1].ops
    && Attests(states[k], states[k + 1], op)
    && if steps[k].PublishOp? then EndsPublished(states[k], states[k + 1], op)
       else EndsUnpublished(states[k], states[k + 1], steps[k], op)
  }

  /** Over any run: whatever a running operation has captured is in the receipt it ends with, at that very
      revision, however the published files move on in between; and the receipt on record is the one given by
      the step that ended it. */
  lemma {:induction false} ReceiptAttestsWhatWasCaptured(
      states: seq<Db>, steps: seq<Step>, op: Op, i: nat, j: nat, p: Path) returns (k: nat)
    requires IsRun(states, steps) && i <= j < |states|
    requires IsRunning(states[i], op) && !IsRunning(states[j], op)
    ensures i <= k < j && EndedAt(states, steps, op, k)
    ensures op in states[j].ops && states[j].ops[op] == states[k + 1].ops[op] && states[j].ops[op].receipt.Some?
    ensures p in DepsOf(states[i], op) ==>
      var observed := states[j].ops[op].receipt.value.observed;
      p in observed && observed[p] == DepsOf(states[i], op)[p]
    decreases j - i
  {
    RunKeepsInv(states, steps, i);
    assert StepAt(states, steps, i);
    EndIsAttested(states[i], states[i + 1], steps[i], op);
    if IsRunning(states[i + 1], op) {
      k := ReceiptAttestsWhatWasCaptured(states, steps, op, i + 1, j, p);
    } else {
      k := i;
      ClosedStaysClosed(states, steps, op, i + 1, j);
    }
  }

  /** A publication makes the operation's own view public wherever it looked or wrote, over rows
      nobody changed since it looked, and leaves every path it did not stage alone. */
  lemma PublicationIsThePrivateView(db: Db, op: Op, p: Path)
    requires Inv(db) && IsRunning(db, op) && Current(db, op)
    ensures p in DepsOf(db, op) ==> Lookup(Source(db, op), p) == Lookup(db.files, p)
    ensures p in DepsOf(db, op) ==> Lookup(Publish(db, op).files, p) == View(db, op, p)
    ensures p in StageOf(db, op) ==> p in DepsOf(db, op)
    ensures p !in StageOf(db, op) ==> Lookup(Publish(db, op).files, p) == Lookup(db.files, p)
  {
    assert OpInv(db, op);
    assert CoveredAt(Source(db, op), StageOf(db, op), DepsOf(db, op), p);
    if op in db.snapshots { assert EvolvesAt(Source(db, op), db.files, p); }
    PublishedIsOverlay(db, op, p);
  }

  /** First publisher wins: when a publication changes a path another operation staged or looked at,
      the other one is stale from then on. */
  lemma FirstPublisherWins(db: Db, winner: Op, loser: Op, p: Path)
    requires Inv(db) && winner != loser
    requires IsRunning(db, winner) && Current(db, winner) && IsRunning(db, loser)
    requires p in Changes(db, winner) && p in DepsOf(db, loser)
    ensures !Current(Publish(db, winner), loser)
  {
    var db' := Publish(db, winner);
    PublishedIsOverlay(db, winner, p);
    assert OpInv(db, loser);
    assert DepsOf(db', loser) == DepsOf(db, loser);
    assert Revision(db'.files, p) > DepsOf(db', loser)[p];
  }

  /** A publication leaves another operation current exactly when nothing that one looked at has moved: no entry,
      and no directory's membership. */
  lemma WhoStaysCurrent(db: Db, winner: Op, other: Op)
    requires Inv(db) && winner != other
    requires IsRunning(db, winner) && Current(db, winner) && IsRunning(db, other) && Current(db, other)
    ensures Current(Publish(db, winner), other) <==>
      forall p | p in DepsOf(db, other) :: !Moved(db.files, Publish(db, winner).files, p)
  {
    var db' := Publish(db, winner);
    CurrentOverlayOnLiveBase(db, winner);
    assert DepsOf(db', other) == DepsOf(db, other);
    forall p ensures Revision(db'.files, p) == Revision(db.files, p) <==> !Moved(db.files, db'.files, p) {
      RevisionsCountChanges(db, winner, p);
    }
  }

  /** A restart ends every running operation and every pin, and leaves no lease that authorises anything; the
      published files and the fence stand. */
  lemma AfterARestart(db: Db, r: string, op: Op)
    ensures var db' := Restarted(db);
      && db'.files == db.files && db'.fence == db.fence && db'.ops.Keys == db.ops.Keys
      && !IsRunning(db', op) && op !in db'.snapshots
      && (IsRunning(db, op) ==> db'.ops[op].status == Aborted && op !in db'.staging && op !in db'.deps)
      && (r in db'.leases <==> r in db.leases)
      && (r in db.leases ==> db'.leases[r] == db.leases[r].(active := false))
  {}

  /** Isolation: no step but its own changes what a pinned operation sees, and a private call
      changes neither the published rows nor any other operation's view. */
  lemma Isolation(db: Db, db': Db, step: Step, o: Op, p: Path)
    requires Inv(db) && Next(db, db', step)
    requires IsRunning(db, o) && IsRunning(db', o)
    ensures o in db.snapshots && step != Private(o) ==> View(db', o, p) == View(db, o, p)
    ensures step.Private? && step.op != o ==> View(db', o, p) == View(db, o, p)
    ensures !step.PublishOp? ==> db'.files == db.files
  {
    assert step.Private? && step.op != o ==> SameRows(db, db', o);
  }
}
