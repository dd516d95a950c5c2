/** `connect apply` and `connect rotate`: what each run may do to the two scoped roles and to the
    credentials Ablo holds, wherever it stops. */
module Connect {
  import opened Wrappers

  type Password = string

  datatype Role = Replication | Writer

  // What the control plane holds for this plane: nothing, a source reached some other way, or a direct
  // source with the passwords it was registered with.
  datatype Registration = Unregistered | Indirect | Direct(replication: Password, writer: Password)

  // The two roles' passwords, absent where the role does not exist, and the registration.
  datatype State = State(replication: Option<Password>, writer: Option<Password>, registration: Registration)

  function PasswordOf(s: State, r: Role): Option<Password> {
    match r
    case Replication => s.replication
    case Writer => s.writer
  }

  // The registered credentials are the roles' own passwords.
  ghost predicate Matches(s: State) {
    && s.registration.Direct?
    && s.replication == Some(s.registration.replication) && s.writer == Some(s.registration.writer)
  }

  datatype StepKey = Own | Wal | Publication | ReplicationRole | WriteRole | Grants

  // A role statement creates the role with the password, or re-keys it where the plan rotates; no
  // other statement touches a password.
  datatype Statement = EnsureRole(role: Role, password: Password, rotate: bool) | Other

  datatype ApplyStep = ApplyStep(key: StepKey, sql: seq<Statement>)

  // What shapes the plan besides the two passwords.
  datatype PlanShape = PlanShape(
    inheritGrants: nat, walAlreadyLogical: bool, generic: bool, publication: nat,
    canGrantBypassRls: bool, grantsReplicationRole: bool, grants: nat)

  function Others(n: nat): seq<Statement> { seq(n, _ => Other) }

  function ApplyPlan(rotate: bool, replication: Password, writer: Password, shape: PlanShape): seq<ApplyStep> {
    (if shape.inheritGrants > 0 then [ApplyStep(Own, Others(shape.inheritGrants))] else [])
    + (if shape.walAlreadyLogical then [] else [ApplyStep(Wal, if shape.generic then [Other] else [])])
    + [ApplyStep(Publication, Others(shape.publication)),
       ApplyStep(ReplicationRole,
                 [EnsureRole(Replication, replication, rotate)]
                 + (if shape.canGrantBypassRls then [Other] else [])
                 + (if shape.grantsReplicationRole then [Other] else [])),
       ApplyStep(WriteRole, [EnsureRole(Writer, writer, rotate)]),
       ApplyStep(Grants, Others(shape.grants))]
  }

  function Executed(s: State, q: Statement): State {
    match q
    case Other => s
    case EnsureRole(role, password, rotate) =>
      if PasswordOf(s, role).Some? && !rotate then s
      else if role == Replication then s.(replication := Some(password))
      else s.(writer := Some(password))
  }

  /** Decisions. */

  // `presentRoles`, in the order asked for; an unanswered read finds none.
  function PresentRoles(s: State, answers: bool): seq<Role> {
    if !answers then []
    else (if s.replication.Some? then [Replication] else []) + (if s.writer.Some? then [Writer] else [])
  }

  function ReapplyBlocker(rotating: bool, existingRoles: seq<Role>): Option<seq<Role>> {
    if rotating || existingRoles == [] then None else Some(existingRoles)
  }

  datatype Refusal = KeyRejected | NothingToRekey

  function RotateWithoutConnection(
      rotating: bool, planeHasConnection: bool, known: bool, keyRejected: bool, existingRoles: seq<Role>)
    : Option<Refusal>
  {
    if !rotating then None
    else if keyRejected then Some(KeyRejected)
    else if !known || planeHasConnection then None
    else if existingRoles != [] then None
    else Some(NothingToRekey)
  }

  // `postRegistrationOutcome`: the exit code, and whether the recovery notice is shown.
  function PostRegistrationOutcome(rotating: bool, registered: bool): (nat, bool) {
    if registered then (0, false) else (1, rotating)
  }

  /** One run. */

  datatype PlaneAnswer = Answers | Unreachable | Rejects

  datatype Inspection = Loading | Ready | SnapshotOnly | OperatorAction | NeedsReconcile

  // A statement may succeed, be refused, be refused for want of a plaintext password, or be the last thing
  // the process does: a signal the run handles, or a kill it cannot; in both the statement may have landed.
  datatype Outcome = Succeeds | Fails | WantsPlaintext | Signalled(landed: bool) | Killed(landed: bool)

  datatype Probe = CannotDial | CredentialRefused | Checked(allOk: bool)

  datatype Env = Env(
    setup: bool,              // key, admin URL, direct host, confirmed branch and tables are all there
    plane: PlaneAnswer,
    inspection: Inspection,
    tablesGiven: bool,
    heldElsewhere: bool,
    adminCanCreate: bool,
    ownershipResolved: bool,
    publicationChanges: bool,
    rolesAnswer: bool,
    confirmed: bool,          // --yes, or the prompt answered
    interactive: bool,        // a terminal to ask at
    shape: PlanShape,
    outcomes: nat -> Outcome,
    signalled: bool,          // a signal arrives between the plan and the registration
    killed: bool,             // the process is gone by the time the registration answers
    replicationProbe: Probe,
    writeProbe: Probe,
    accepts: bool,            // the server's own check of credentials that do work
    reconciles: bool)         // the validation after an existing registration's plan

  datatype End =
    | NoChange | Refused | Cancelled | PlanStopped | Interrupted | Gone | Reconciled
    | WalPending | CredentialsRefused | ChecksFailed | Registered | NotRegistered

  datatype Report = Report(end: End, exitCode: nat, notice: bool)

  // Whether the plane's own direct registration is known to this run.
  predicate ExistingRegistration(rotating: bool, s: State, env: Env) {
    !rotating && env.plane == Answers && s.registration.Direct?
  }

  // A known registration that needs nothing: the run reports it and returns.
  predicate Settled(env: Env) {
    || env.inspection == Loading
    || (!env.tablesGiven && (env.inspection == Ready || env.inspection == SnapshotOnly))
  }

  // Every check before the confirmation, in order; None lets the run through to its plan.
  function Preflight(rotating: bool, s: State, env: Env): Option<End> {
    var existing := ExistingRegistration(rotating, s, env);
    var present := PresentRoles(s, env.rolesAnswer);
    if existing && Settled(env) then Some(NoChange)
    else if existing && env.inspection == OperatorAction then Some(Refused)
    else if !env.setup || env.heldElsewhere then Some(Refused)
    else if rotating && env.plane == Rejects then Some(Refused)
    else if !env.adminCanCreate || !env.ownershipResolved then Some(Refused)
    else if rotating && !env.shape.walAlreadyLogical then Some(Refused)
    else if existing && env.inspection == Ready && !env.publicationChanges then Some(NoChange)
    else if existing && |present| != 2 then Some(Refused)
    else if RotateWithoutConnection(rotating, s.registration != Unregistered && env.plane == Answers,
                                    env.plane == Answers, env.plane == Rejects, present).Some? then Some(Refused)
    else if ReapplyBlocker(rotating, if existing && |present| == 2 then [] else present).Some? then Some(Refused)
    else if !env.confirmed then Some(if env.interactive then Cancelled else Refused)
    else None
  }

  // What a run of the verb asks of its surroundings before it asks for a yes, whatever state it finds.
  predicate Lets(rotating: bool, env: Env) {
    && env.setup && !env.heldElsewhere && env.adminCanCreate && env.ownershipResolved
    && (rotating ==> env.plane != Rejects && env.shape.walAlreadyLogical)
  }

  // An apply that knows of its own registration and has nothing to reconcile.
  predicate NeedsNothing(rotating: bool, s: State, env: Env) {
    && !rotating && env.plane == Answers && s.registration.Direct?
    && match env.inspection
       case Loading => true
       case SnapshotOnly => !env.tablesGiven
       case Ready => !env.tablesGiven || (!env.publicationChanges && Lets(false, env))
       case _ => false
  }

  // An apply that reconciles its own registration: both roles are there.
  predicate Reconciles(s: State, env: Env) {
    && env.plane == Answers && s.registration.Direct? && Lets(false, env)
    && env.rolesAnswer && s.replication.Some? && s.writer.Some?
    && match env.inspection
       case Loading => false
       case SnapshotOnly => env.tablesGiven
       case Ready => env.tablesGiven && env.publicationChanges
       case OperatorAction => false
       case NeedsReconcile => true
  }

  // An apply that starts afresh: no role is seen and no registration of its own is known.
  predicate StartsAfresh(s: State, env: Env) {
    && Lets(false, env) && !(env.plane == Answers && s.registration.Direct?)
    && !(env.rolesAnswer && AnyRole(s))
  }

  // A rotate: there is something to re-key, or the plane cannot say.
  predicate Rekeys(s: State, env: Env) {
    Lets(true, env) && (env.plane == Unreachable || s.registration != Unregistered || (env.rolesAnswer && AnyRole(s)))
  }

  predicate WouldProceed(rotating: bool, s: State, env: Env) {
    if rotating then Rekeys(s, env) else Reconciles(s, env) || StartsAfresh(s, env)
  }

  predicate MayProceed(rotating: bool, s: State, env: Env) { env.confirmed && WouldProceed(rotating, s, env) }

  // All that is missing is a yes, and there is somebody to ask.
  predicate Declined(rotating: bool, s: State, env: Env) {
    !env.confirmed && env.interactive && WouldProceed(rotating, s, env)
  }

  lemma RolesSeen(s: State, answers: bool)
    ensures PresentRoles(s, answers) == [] <==> !(answers && AnyRole(s))
    ensures |PresentRoles(s, answers)| == 2 <==> answers && s.replication.Some? && s.writer.Some?
  {}

  ghost predicate EndsAs(end: Option<End>, rotating: bool, s: State, env: Env) {
    && (end.None? <==> MayProceed(rotating, s, env))
    && (end == Some(NoChange) <==> NeedsNothing(rotating, s, env))
    && (end == Some(Cancelled) <==> Declined(rotating, s, env))
    && (end.Some? ==> end.value == NoChange || end.value == Cancelled || end.value == Refused)
  }

  lemma RotateEnds(s: State, env: Env)
    ensures EndsAs(Preflight(true, s, env), true, s, env)
  {
    RolesSeen(s, env.rolesAnswer);
  }

  lemma FreshApplyEnds(s: State, env: Env)
    requires !ExistingRegistration(false, s, env)
    ensures EndsAs(Preflight(false, s, env), false, s, env)
  {
    RolesSeen(s, env.rolesAnswer);
  }

  lemma ReconcilingApplyEnds(s: State, env: Env)
    requires ExistingRegistration(false, s, env)
    ensures EndsAs(Preflight(false, s, env), false, s, env)
  {
    RolesSeen(s, env.rolesAnswer);
  }

  /** For every state and environment, how the checks before the plan end. */
  lemma WhenARunProceeds(rotating: bool, s: State, env: Env)
    ensures Preflight(rotating, s, env).None? <==> MayProceed(rotating, s, env)
    ensures Preflight(rotating, s, env) == Some(NoChange) <==> NeedsNothing(rotating, s, env)
    ensures Preflight(rotating, s, env) == Some(Cancelled) <==> Declined(rotating, s, env)
    ensures Preflight(rotating, s, env).Some? ==>
      Preflight(rotating, s, env).value in {NoChange, Cancelled, Refused}
    ensures GoesOn(rotating, s, env) <==> env.confirmed && if rotating then Rekeys(s, env) else StartsAfresh(s, env)
  {
    if rotating {
      RotateEnds(s, env);
    } else if ExistingRegistration(false, s, env) {
      ReconcilingApplyEnds(s, env);
    } else {
      FreshApplyEnds(s, env);
    }
  }

  // What the server stores: only credentials it could dial with.
  predicate ServerAccepts(s: State, replication: Password, writer: Password, env: Env) {
    env.accepts && s.replication == Some(replication) && s.writer == Some(writer)
  }

  /** What executing a plan may have done to one role: nothing, or put the run's own password on it, on
      an existing role only when the plan rotates. */
  predicate RoleMoved(before: Option<Password>, after: Option<Password>, password: Password, rotate: bool) {
    after == before || (after == Some(password) && (rotate || before.None?))
  }

  // What a role statement that has landed leaves.
  predicate RoleDone(before: Option<Password>, after: Option<Password>, password: Password, rotate: bool) {
    after == if before.Some? && !rotate then before else Some(password)
  }

  ghost predicate PlanMoved(s: State, s': State, rotate: bool, replication: Password, writer: Password) {
    && s'.registration == s.registration
    && RoleMoved(s.replication, s'.replication, replication, rotate)
    && RoleMoved(s.writer, s'.writer, writer, rotate)
  }

  ghost predicate Done(s: State, s': State, r: Role, rotate: bool, replication: Password, writer: Password) {
    RoleDone(PasswordOf(s, r), PasswordOf(s', r), if r == Replication then replication else writer, rotate)
  }

  // A statement of this run's plan.
  predicate Carries(q: Statement, rotate: bool, replication: Password, writer: Password) {
    q.EnsureRole? ==> q.rotate == rotate && q.password == (if q.role == Replication then replication else writer)
  }

  ghost predicate IsPlan(steps: seq<ApplyStep>, rotate: bool, replication: Password, writer: Password) {
    && (forall i, q | 0 <= i < |steps| && q in steps[i].sql :: Carries(q, rotate, replication, writer))
    && forall i, j | 0 <= i < j < |steps| :: steps[i].key != steps[j].key
  }

  ghost predicate Ensures(steps: seq<ApplyStep>, r: Role) {
    exists i, q :: 0 <= i < |steps| && q in steps[i].sql && q.EnsureRole? && q.role == r && steps[i].key != Wal
  }

  // How many steps come before the publication.
  function Leading(shape: PlanShape): nat {
    (if shape.inheritGrants > 0 then 1 else 0) + (if shape.walAlreadyLogical then 0 else 1)
  }

  lemma PlanSteps(rotate: bool, replication: Password, writer: Password, shape: PlanShape)
    ensures var plan, n := ApplyPlan(rotate, replication, writer, shape), Leading(shape);
      && |plan| == n + 4
      && (forall i :: 0 <= i < n ==> plan[i].key in {Own, Wal})
      && (n == 2 ==> plan[0].key != plan[1].key)
      && plan[n].key == Publication && plan[n + 1].key == ReplicationRole && plan[n + 2].key == WriteRole
      && plan[n + 3].key == Grants
      && |plan[n].sql| == shape.publication && |plan[n + 3].sql| == shape.grants
      && |plan[n + 1].sql| ==
           1 + (if shape.canGrantBypassRls then 1 else 0) + (if shape.grantsReplicationRole then 1 else 0)
      && |plan[n + 2].sql| == 1
      && (shape.inheritGrants > 0 ==> plan[0].key == Own && |plan[0].sql| == shape.inheritGrants)
      && (!shape.walAlreadyLogical ==> plan[n - 1].key == Wal && |plan[n - 1].sql| == if shape.generic then 1 else 0)
  {}

  lemma PlanCarries(rotate: bool, replication: Password, writer: Password, shape: PlanShape, i: nat, q: Statement)
    requires i < |ApplyPlan(rotate, replication, writer, shape)|
    requires q in ApplyPlan(rotate, replication, writer, shape)[i].sql
    ensures Carries(q, rotate, replication, writer)
  {}

  lemma PlanEnsures(rotate: bool, replication: Password, writer: Password, shape: PlanShape)
    ensures Ensures(ApplyPlan(rotate, replication, writer, shape), Replication)
    ensures Ensures(ApplyPlan(rotate, replication, writer, shape), Writer)
  {
    var plan, n := ApplyPlan(rotate, replication, writer, shape), Leading(shape);
    assert |plan| == n + 4;
    assert plan[n + 1].key == ReplicationRole && plan[n + 1].sql[0] == EnsureRole(Replication, replication, rotate);
    assert plan[n + 2].key == WriteRole && plan[n + 2].sql[0] == EnsureRole(Writer, writer, rotate);
    assert plan[n + 1].sql[0] in plan[n + 1].sql && plan[n + 2].sql[0] in plan[n + 2].sql;
  }

  lemma ApplyPlanIsPlan(rotate: bool, replication: Password, writer: Password, shape: PlanShape)
    ensures IsPlan(ApplyPlan(rotate, replication, writer, shape), rotate, replication, writer)
    ensures Ensures(ApplyPlan(rotate, replication, writer, shape), Replication)
    ensures Ensures(ApplyPlan(rotate, replication, writer, shape), Writer)
  {
    var plan := ApplyPlan(rotate, replication, writer, shape);
    PlanSteps(rotate, replication, writer, shape);
    PlanEnsures(rotate, replication, writer, shape);
    forall i, q | 0 <= i < |plan| && q in plan[i].sql ensures Carries(q, rotate, replication, writer) {
      PlanCarries(rotate, replication, writer, shape, i, q);
    }
  }

  // A statement of the plan moves roles only as the plan may, and undoes nothing the plan has done.
  lemma ExecutedMoves(s0: State, s: State, q: Statement, rotate: bool, replication: Password, writer: Password)
    requires PlanMoved(s0, s, rotate, replication, writer) && Carries(q, rotate, replication, writer)
    ensures PlanMoved(s0, Executed(s, q), rotate, replication, writer)
    ensures forall r :: Done(s0, s, r, rotate, replication, writer) ==>
      Done(s0, Executed(s, q), r, rotate, replication, writer)
    ensures q.EnsureRole? ==> Done(s0, Executed(s, q), q.role, rotate, replication, writer)
  {}

  datatype PlanEnd = Finished | Threw | Caught | Vanished

  // The process ends with the statement.
  predicate EndsRun(o: Outcome) { o.Signalled? || o.Killed? }

  // What ends a plan early is what some statement came back with.
  predicate CausedBy(o: Outcome, end: PlanEnd) {
    match end
    case Finished => true
    case Threw => o == Fails || o == WantsPlaintext
    case Caught => o.Signalled?
    case Vanished => o.Killed?
  }

  ghost predicate Caused(outcomes: nat -> Outcome, end: PlanEnd) {
    end == Finished || exists n :: CausedBy(outcomes(n), end)
  }

  // One statement wants a plaintext password and everything else succeeds.
  ghost predicate RefusedOnce(outcomes: nat -> Outcome) {
    exists refused: nat :: outcomes(refused) == WantsPlaintext && forall n :: n != refused ==> outcomes(n) == Succeeds
  }

  class Plant {
    var state: State

    constructor (s: State)
      ensures state == s
    {
      state := s;
    }

    // One statement sent to the database: it lands or it does not, and the run goes on or ends.
    method Send(q: Statement, outcome: Outcome) returns (end: PlanEnd)
      modifies this
      ensures state == old(state) || state == Executed(old(state), q)
      ensures end == Finished ==> state == Executed(old(state), q)
      ensures end == Finished <==> outcome == Succeeds
      ensures end == Threw <==> outcome == Fails || outcome == WantsPlaintext
      ensures end == Vanished <==> outcome.Killed?
      ensures CausedBy(outcome, end)
    {
      match outcome
      case Succeeds =>
        state := Executed(state, q);
        return Finished;
      case Fails => return Threw;
      case WantsPlaintext => return Threw;
      case Signalled(landed) =>
        if landed { state := Executed(state, q); }
        return Caught;
      case Killed(landed) =>
        if landed { state := Executed(state, q); }
        return Vanished;
    }

    // A whole step in plaintext, after a provider refused a verifier.
    method Retry(step: ApplyStep, outcomes: nat -> Outcome, from: nat,
                 ghost s0: State, ghost rotate: bool, ghost replication: Password, ghost writer: Password)
      returns (end: PlanEnd, tick: nat)
      requires forall q | q in step.sql :: Carries(q, rotate, replication, writer)
      requires PlanMoved(s0, state, rotate, replication, writer)
      modifies this
      ensures PlanMoved(s0, state, rotate, replication, writer)
      ensures forall r :: Done(s0, old(state), r, rotate, replication, writer) ==>
        Done(s0, state, r, rotate, replication, writer)
      ensures end == Finished ==> forall q | q in step.sql && q.EnsureRole? ::
        Done(s0, state, q.role, rotate, replication, writer)
      ensures Caused(outcomes, end)
      ensures (forall n :: n >= from ==> outcomes(n) == Succeeds) ==> end == Finished
      ensures end == Finished ==> forall n | from <= n < tick :: outcomes(n) == Succeeds
      ensures tick >= from
    {
      tick := from;
      var i := 0;
      while i < |step.sql|
        invariant i <= |step.sql| && tick >= from && forall n | from <= n < tick :: outcomes(n) == Succeeds
        invariant PlanMoved(s0, state, rotate, replication, writer)
        invariant forall q | q in step.sql[..i] && q.EnsureRole? :: Done(s0, state, q.role, rotate, replication, writer)
        invariant forall r :: Done(s0, old(state), r, rotate, replication, writer) ==>
          Done(s0, state, r, rotate, replication, writer)
      {
        assert step.sql[i] in step.sql;
        ExecutedMoves(s0, state, step.sql[i], rotate, replication, writer);
        end := Send(step.sql[i], outcomes(tick));
        tick := tick + 1;
        if end != Finished { return; }
        assert step.sql[..i + 1] == step.sql[..i] + [step.sql[i]];
        i := i + 1;
      }
      assert step.sql[..i] == step.sql;
      end := Finished;
    }

    /** `executePlan`: every step in order; a write-ahead-log statement may fail, a refused verifier is
        retried in plaintext, and anything else stops the plan. */
    method ExecutePlan(steps: seq<ApplyStep>, plaintext: seq<ApplyStep>, outcomes: nat -> Outcome,
                       ghost rotate: bool, ghost replication: Password, ghost writer: Password)
      returns (end: PlanEnd)
      requires IsPlan(steps, rotate, replication, writer) && plaintext == steps
      modifies this
      ensures PlanMoved(old(state), state, rotate, replication, writer)
      ensures end == Finished ==>
        forall r | Ensures(steps, r) :: Done(old(state), state, r, rotate, replication, writer)
      ensures Caused(outcomes, end)
      ensures (forall n :: outcomes(n) == Succeeds) ==> end == Finished
    {
      ghost var s0 := state;
      var tick := 0;
      var i := 0;
      while i < |steps|
        invariant i <= |steps|
        invariant PlanMoved(s0, state, rotate, replication, writer)
        invariant forall r | Ensures(steps[..i], r) :: Done(s0, state, r, rotate, replication, writer)
      {
        end, tick := ExecuteStep(steps, i, plaintext, outcomes, tick, s0, rotate, replication, writer);
        if end != Finished { return; }
        assert steps[..i + 1] == steps[..i] + [steps[i]];
        forall r | Ensures(steps[..i + 1], r) ensures Done(s0, state, r, rotate, replication, writer) {
          var k, q :| 0 <= k < i + 1 && q in steps[..i + 1][k].sql && q.EnsureRole? && q.role == r
            && steps[..i + 1][k].key != Wal;
          if k < i { assert steps[..i][k] == steps[k]; assert Ensures(steps[..i], r); }
        }
        i := i + 1;
      }
      assert steps[..i] == steps;
      end := Finished;
    }

    method ExecuteStep(steps: seq<ApplyStep>, i: nat, plaintext: seq<ApplyStep>, outcomes: nat -> Outcome, from: nat,
                       ghost s0: State, ghost rotate: bool, ghost replication: Password, ghost writer: Password)
      returns (end: PlanEnd, tick: nat)
      requires i < |steps| && IsPlan(steps, rotate, replication, writer) && plaintext == steps
      requires PlanMoved(s0, state, rotate, replication, writer)
      modifies this
      ensures PlanMoved(s0, state, rotate, replication, writer)
      ensures forall r :: Done(s0, old(state), r, rotate, replication, writer) ==>
        Done(s0, state, r, rotate, replication, writer)
      ensures end == Finished && steps[i].key != Wal ==>
        forall q | q in steps[i].sql && q.EnsureRole? :: Done(s0, state, q.role, rotate, replication, writer)
      ensures Caused(outcomes, end)
      ensures (forall n :: outcomes(n) == Succeeds) ==> end == Finished
      ensures steps[i].key == Wal && (forall n :: !EndsRun(outcomes(n))) ==> end == Finished
      ensures steps[i].key in {ReplicationRole, WriteRole} && RefusedOnce(outcomes) ==> end == Finished
      ensures end == Finished && steps[i].key != Wal ==>
        forall n | from <= n < tick :: outcomes(n) == Succeeds || outcomes(n) == WantsPlaintext
      ensures steps[i].key !in {Wal, ReplicationRole, WriteRole} ==>
        (end == Finished <==> forall n | from <= n < from + |steps[i].sql| :: outcomes(n) == Succeeds)
    {
      var sql, key := steps[i].sql, steps[i].key;
      tick := from;
      var k := 0;
      while k < |sql|
        invariant k <= |sql| && tick >= from
        invariant key !in {Wal, ReplicationRole, WriteRole} ==>
          tick == from + k && forall m | from <= m < tick :: outcomes(m) == Succeeds
        invariant key != Wal ==> forall m | from <= m < tick :: outcomes(m) == Succeeds || outcomes(m) == WantsPlaintext
        invariant PlanMoved(s0, state, rotate, replication, writer)
        invariant key != Wal ==>
          forall q | q in sql[..k] && q.EnsureRole? :: Done(s0, state, q.role, rotate, replication, writer)
        invariant forall r :: Done(s0, old(state), r, rotate, replication, writer) ==>
          Done(s0, state, r, rotate, replication, writer)
      {
        assert sql[k] in steps[i].sql;
        ExecutedMoves(s0, state, sql[k], rotate, replication, writer);
        ghost var n := tick;
        end := Send(sql[k], outcomes(tick));
        tick := tick + 1;
        if end == Caught || end == Vanished {
          assert CausedBy(outcomes(n), end);
          return;
        }
        if end == Threw && key != Wal {
          var wanted := (key == ReplicationRole || key == WriteRole) && outcomes(tick - 1) == WantsPlaintext;
          if !wanted { return; }
          var at := 0;
          while at < |plaintext| && plaintext[at].key != key
            invariant at <= i
          {
            at := at + 1;
          }
          assert at == i;
          end, tick := Retry(plaintext[at], outcomes, tick, s0, rotate, replication, writer);
          if end != Finished { return; }
        }
        assert sql[..k + 1] == sql[..k] + [sql[k]];
        k := k + 1;
      }
      assert sql[..k] == sql;
      end := Finished;
    }

    // The rest of a run once its plan has finished and there is no registration to preserve.
    method Register(rotating: bool, replication: Password, writer: Password, env: Env) returns (report: Report)
      modifies this
      ensures state == old(state) || state == old(state).(registration := Direct(replication, writer))
      ensures state != old(state) ==> ServerAccepts(old(state), replication, writer, env)
      ensures report.end == Registered ==>
        ServerAccepts(old(state), replication, writer, env) && state.registration == Direct(replication, writer)
      ensures report.end == Registered ==> report.exitCode == 0
      ensures report.end in {WalPending, Interrupted, CredentialsRefused, ChecksFailed, Gone, Registered, NotRegistered}
      ensures report.end == WalPending <==> !env.shape.walAlreadyLogical
      ensures report.end == Interrupted <==> env.shape.walAlreadyLogical && env.signalled
      ensures report.end == CredentialsRefused <==> Reaches(env) && !rotating && Answered(env, CredentialRefused)
      ensures report.end == ChecksFailed <==>
        Reaches(env) && !rotating && !Answered(env, CredentialRefused) && Answered(env, Checked(false))
      ensures report.end in {Gone, Registered, NotRegistered} ==>
        && (report.end == Gone <==> env.killed)
        && (state.registration == Direct(replication, writer) <== ServerAccepts(old(state), replication, writer, env))
      ensures report.end == NotRegistered ==> !ServerAccepts(old(state), replication, writer, env)
      ensures report.exitCode ==
        match report.end
        case Registered => 0
        case Interrupted => 130
        case Gone => 137
        case _ => 1
      ensures report.notice <==> rotating && report.end in {Interrupted, NotRegistered}
      ensures report.end !in {Gone, Registered} ==> state == old(state)
      ensures Smooth(rotating, env) && ServerAccepts(old(state), replication, writer, env) ==> report.end == Registered
    {
      if !env.shape.walAlreadyLogical { return Report(WalPending, 1, false); }
      if env.signalled { return Report(Interrupted, 130, rotating); }
      if !rotating && (env.replicationProbe == CredentialRefused || env.writeProbe == CredentialRefused) {
        return Report(CredentialsRefused, 1, false);
      }
      if !rotating && (env.replicationProbe == Checked(false) || env.writeProbe == Checked(false)) {
        return Report(ChecksFailed, 1, false);
      }
      var registered := ServerAccepts(state, replication, writer, env);
      if registered { state := state.(registration := Direct(replication, writer)); }
      if env.killed { return Report(Gone, 137, false); }
      var (exitCode, notice) := PostRegistrationOutcome(rotating, registered);
      return Report(if registered then Registered else NotRegistered, exitCode, notice);
    }

    /** One whole run, from its first read to wherever it ends. */
    method RunConnect(rotating: bool, replication: Password, writer: Password, env: Env) returns (report: Report)
      modifies this
      ensures Ran(Run(rotating, replication, writer, env), old(state), state)
      ensures report.end == NoChange <==> NeedsNothing(rotating, old(state), env)
      ensures report.end == Cancelled <==> Declined(rotating, old(state), env)
      ensures report.end == Refused <==>
        && !MayProceed(rotating, old(state), env) && !NeedsNothing(rotating, old(state), env)
        && !Declined(rotating, old(state), env)
      ensures !MayProceed(rotating, old(state), env) ==>
        state == old(state) && !report.notice && report.exitCode == (if report.end == Refused then 1 else 0)
      ensures report.end == PlanStopped ==> Caused(env.outcomes, Threw)
      ensures report.end == Interrupted ==> Caused(env.outcomes, Caught) || env.signalled
      ensures report.end == PlanStopped ==> report.exitCode == 1 && report.notice == rotating
      ensures report.end == Interrupted ==> report.exitCode == 130 && report.notice == rotating
      ensures report.end == Gone ==> report.exitCode == 137 && !report.notice
      ensures report.end == Reconciled ==>
        Reconciles(old(state), env) && report.exitCode == (if env.reconciles then 0 else 1) && !report.notice
      ensures MayProceed(rotating, old(state), env) && !GoesOn(rotating, old(state), env) ==>
        report.end in {PlanStopped, Interrupted, Gone, Reconciled}
      ensures report.end == WalPending ==> !env.shape.walAlreadyLogical
      ensures report.end in {CredentialsRefused, ChecksFailed} ==> Reaches(env) && !rotating
      ensures report.end == CredentialsRefused ==> Answered(env, CredentialRefused)
      ensures report.end == ChecksFailed ==> !Answered(env, CredentialRefused) && Answered(env, Checked(false))
      ensures report.end in {Registered, NotRegistered} ==> Reaches(env) && !env.killed && ProbesPass(rotating, env)
      ensures report.end == NotRegistered ==> !ServerAccepts(state, replication, writer, env)
      ensures report.end in {WalPending, CredentialsRefused, ChecksFailed} ==> report.exitCode == 1 && !report.notice
      ensures report.end == NotRegistered ==> report.exitCode == 1 && report.notice == rotating
      ensures report.end == Registered ==> Matches(state) && report.exitCode == 0 && env.accepts
      ensures state.registration != old(state).registration ==> env.accepts && report.end in {Registered, Gone}
      ensures report.exitCode == 0 ==> report.end in {NoChange, Cancelled, Reconciled, Registered}
      ensures report.end in {Registered, NotRegistered, WalPending, ChecksFailed} && (rotating || env.rolesAnswer) ==>
        state.replication == Some(replication) && state.writer == Some(writer)
      ensures rotating && report.end !in {Registered, Gone} && !SameRoles(old(state), state) ==> report.notice
      ensures GoesOn(rotating, old(state), env) && Smooth(rotating, env) ==> report.end == Registered
    {
      WhenARunProceeds(rotating, state, env);
      var early := Preflight(rotating, state, env);
      if early.Some? {
        return Report(early.value, if early.value == Refused then 1 else 0, false);
      }
      var existing := ExistingRegistration(rotating, state, env);
      ghost var s0 := state;
      var steps := ApplyPlan(rotating, replication, writer, env.shape);
      ApplyPlanIsPlan(rotating, replication, writer, env.shape);
      var end := ExecutePlan(steps, ApplyPlan(rotating, replication, writer, env.shape), env.outcomes,
                             rotating, replication, writer);
      match end
      case Threw => return Report(PlanStopped, 1, rotating);
      case Caught => return Report(Interrupted, 130, rotating);
      case Vanished => return Report(Gone, 137, false);
      case Finished =>
        assert Done(s0, state, Replication, rotating, replication, writer);
        assert Done(s0, state, Writer, rotating, replication, writer);
        if existing { return Report(Reconciled, if env.reconciles then 0 else 1, false); }
        PlanPutsPasswords(rotating, s0, env);
        report := Register(rotating, replication, writer, env);
    }
  }

  // A probe that stops no run: nothing could be dialled, or every check passed.
  predicate PassesHere(p: Probe) { p == CannotDial || p == Checked(true) }

  // Nothing ends the run between its plan and its probes.
  predicate Reaches(env: Env) { env.shape.walAlreadyLogical && !env.signalled }

  // One of the two probes comes back with this answer.
  predicate Answered(env: Env, p: Probe) { env.replicationProbe == p || env.writeProbe == p }

  // A rotate does not probe; an apply goes on past its probes.
  predicate ProbesPass(rotating: bool, env: Env) {
    rotating || (!Answered(env, CredentialRefused) && !Answered(env, Checked(false)))
  }

  // Nothing outside the run's own decisions goes wrong.
  ghost predicate Smooth(rotating: bool, env: Env) {
    && (forall n :: env.outcomes(n) == Succeeds)
    && env.shape.walAlreadyLogical && env.rolesAnswer && !env.signalled && !env.killed && env.accepts
    && (rotating || (PassesHere(env.replicationProbe) && PassesHere(env.writeProbe)))
  }

  // A run that reads the roles and goes on with no registration to preserve finds none, unless it rotates.
  lemma PlanPutsPasswords(rotating: bool, s: State, env: Env)
    requires GoesOn(rotating, s, env)
    ensures !rotating && env.rolesAnswer ==> s.replication.None? && s.writer.None?
  {}

  /** What one run can have done, and what any number of runs keep. */

  datatype Run = Run(rotating: bool, replication: Password, writer: Password, env: Env)

  predicate SameRoles(s: State, s': State) { s'.replication == s.replication && s'.writer == s.writer }

  // Let through, with fresh passwords to register at the end.
  predicate GoesOn(rotating: bool, s: State, env: Env) {
    Preflight(rotating, s, env).None? && !ExistingRegistration(rotating, s, env)
  }

  ghost predicate Ran(run: Run, s: State, s': State) {
    && RoleMoved(s.replication, s'.replication, run.replication, run.rotating)
    && RoleMoved(s.writer, s'.writer, run.writer, run.rotating)
    && (Preflight(run.rotating, s, run.env).Some? ==> s' == s)
    && (s'.registration == s.registration
        || (s'.registration == Direct(run.replication, run.writer) && Matches(s') && GoesOn(run.rotating, s, run.env)))
    && (GoesOn(run.rotating, s, run.env) && Smooth(run.rotating, run.env) ==>
          s'.registration == Direct(run.replication, run.writer) && Matches(s'))
  }

  ghost predicate RanAt(states: seq<State>, runs: seq<Run>, i: nat)
    requires i < |runs| && |states| == |runs| + 1
  {
    Ran(runs[i], states[i], states[i + 1])
  }

  ghost predicate History(states: seq<State>, runs: seq<Run>) {
    |states| == |runs| + 1 && forall i: nat | i < |runs| :: RanAt(states, runs, i)
  }

  // Everything a run is entitled to expect of the outside before its plan.
  predicate Willing(env: Env) {
    && env.setup && env.plane == Answers && !env.heldElsewhere && env.adminCanCreate && env.ownershipResolved
    && env.shape.walAlreadyLogical && env.rolesAnswer && env.confirmed
  }

  predicate AnyRole(s: State) { s.replication.Some? || s.writer.Some? }

  /** Exactly when each verb goes on: rotate where there is anything to re-key, apply where there is
      nothing at all. */
  lemma WhenEachGoesOn(s: State, env: Env)
    requires Willing(env)
    ensures GoesOn(true, s, env) <==> s.registration != Unregistered || AnyRole(s)
    ensures GoesOn(false, s, env) <==> !s.registration.Direct? && !AnyRole(s)
  {}

  /** No refusal loop: in every state one of the two verbs goes on, and wherever nothing fails it ends
      with the registration equal to both roles' passwords. */
  lemma NoRefusalLoop(s: State, env: Env) returns (rotating: bool)
    requires Willing(env)
    ensures GoesOn(rotating, s, env)
    ensures forall s', replication, writer ::
      Smooth(rotating, env) && Ran(Run(rotating, replication, writer, env), s, s') ==>
        Matches(s') && s'.registration == Direct(replication, writer)
  {
    WhenEachGoesOn(s, env);
    rotating := s.registration != Unregistered || AnyRole(s);
  }

  /** A run that ends for want of write-ahead logging, or on a failed check, has put its passwords on both
      roles and registered nothing. Running apply again, as it advises, is then refused; rotate goes on. */
  lemma AdvisedRerunIsRefused(s: State, env: Env)
    requires Willing(env) && AnyRole(s) && !s.registration.Direct?
    ensures Preflight(false, s, env) == Some(Refused) && GoesOn(true, s, env)
  {
    WhenEachGoesOn(s, env);
  }

  // A credential pair that works against the database, whoever holds it.
  predicate Works(s: State, replication: Password, writer: Password) {
    s.replication == Some(replication) && s.writer == Some(writer)
  }

  /** No run of apply, cut anywhere, takes an existing role's password away: every pair that worked
      still works after any number of them, and a plane that matched still matches. */
  lemma {:induction false} AppliesKeepCredentials(states: seq<State>, runs: seq<Run>, n: nat)
    requires History(states, runs) && n <= |runs|
    requires forall run | run in runs :: !run.rotating
    ensures states[0].replication.Some? ==> states[n].replication == states[0].replication
    ensures states[0].writer.Some? ==> states[n].writer == states[0].writer
    ensures forall replication, writer ::
      Works(states[0], replication, writer) ==> Works(states[n], replication, writer)
    ensures Matches(states[0]) ==> Matches(states[n])
  {
    if n > 0 {
      AppliesKeepCredentials(states, runs, n - 1);
      assert RanAt(states, runs, n - 1) && !runs[n - 1].rotating;
    }
  }

  /** A broken registration is rotate's to repair: while the plane answers, no number of applies mends it
      or changes anything the plane would need. */
  lemma {:induction false} AppliesNeverRepair(states: seq<State>, runs: seq<Run>, n: nat)
    requires History(states, runs) && n <= |runs|
    requires forall run | run in runs :: !run.rotating && run.env.plane == Answers
    requires states[0].registration.Direct? && !Matches(states[0])
    ensures states[n] == states[0]
  {
    if n > 0 {
      AppliesNeverRepair(states, runs, n - 1);
      assert RanAt(states, runs, n - 1) && !runs[n - 1].rotating && runs[n - 1].env.plane == Answers;
    }
  }

  /** Over any runs of either verb, cut anywhere: a plane on record stays on record, an existing role
      stays, and so a rotate that was let through once is let through ever after. */
  lemma {:induction false} RotateStaysOpen(states: seq<State>, runs: seq<Run>, n: nat, env: Env)
    requires History(states, runs) && n <= |runs| && Willing(env)
    requires GoesOn(true, states[0], env)
    ensures GoesOn(true, states[n], env)
  {
    WhenEachGoesOn(states[0], env);
    WhenEachGoesOn(states[n], env);
    if n > 0 {
      RotateStaysOpen(states, runs, n - 1, env);
      WhenEachGoesOn(states[n - 1], env);
      assert RanAt(states, runs, n - 1);
    }
  }

  /** What the registration says after any history is either what it said before or the passwords one
      run itself put on both roles, and then it matched at that moment. */
  lemma {:induction false} RegistrationComesFromARun(states: seq<State>, runs: seq<Run>, n: nat)
    requires History(states, runs) && n <= |runs|
    ensures states[n].registration == states[0].registration
      || exists i: nat :: i < n && RegisteredBy(states, runs, i) && states[n].registration == states[i + 1].registration
  {
    if n > 0 {
      RegistrationComesFromARun(states, runs, n - 1);
      assert RanAt(states, runs, n - 1);
      if states[n].registration != states[n - 1].registration {
        assert RegisteredBy(states, runs, n - 1);
      } else if states[n - 1].registration != states[0].registration {
        var i: nat :| i < n - 1 && RegisteredBy(states, runs, i)
          && states[n - 1].registration == states[i + 1].registration;
        assert RegisteredBy(states, runs, i);
      }
    }
  }

  ghost predicate RegisteredBy(states: seq<State>, runs: seq<Run>, i: nat) {
    && i < |runs| && |states| == |runs| + 1
    && states[i + 1].registration == Direct(runs[i].replication, runs[i].writer) && Matches(states[i + 1])
  }
}
