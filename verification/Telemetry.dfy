/** The bounded event queue and its one asynchronous flush, over every interleaving in one process. */
module Telemetry {
  import opened Wrappers

  const MAX_QUEUED_EVENTS: nat := 50
  const MAX_FLUSH_EVENTS: nat := 20

  // An event under its producer id. Ids are never issued twice; they are numbered here in issue order.
  datatype Event = Event(id: nat, payload: string)

  datatype State = State(enabled: bool, disclosureShown: bool, anonymousId: Option<string>, queue: seq<Event>)

  const DEFAULT_STATE := State(true, false, None, [])

  // The persisted file, None where there is none or it does not parse.
  type Saved = Option<State>

  function LastOf(queue: seq<Event>, n: nat): seq<Event> { if |queue| <= n then queue else queue[|queue| - n..] }

  function FirstOf(queue: seq<Event>, n: nat): seq<Event> { if |queue| <= n then queue else queue[..n] }

  function ReadState(file: Saved): State {
    match file
    case None => DEFAULT_STATE
    case Some(s) => s.(queue := LastOf(s.queue, MAX_QUEUED_EVENTS))
  }

  // The process: the file, the batch in flight if any, and the next id to be issued.
  datatype Process = Process(file: Saved, batch: Option<seq<Event>>, next: nat)

  predicate Holds(queue: seq<Event>, id: nat) { exists e :: e in queue && e.id == id }

  function Without(queue: seq<Event>, batch: seq<Event>): (kept: seq<Event>)
    ensures forall e :: e in kept <==> e in queue && !Holds(batch, e.id)
  {
    if queue == [] then []
    else (if Holds(batch, queue[0].id) then [] else [queue[0]]) + Without(queue[1..], batch)
  }

  datatype Answer = NoResponse | Status(code: nat)

  // The batch is done with: accepted, or refused for good.
  predicate Settles(a: Answer) {
    a.Status? && (200 <= a.code < 300 || (400 <= a.code < 500 && a.code !in {408, 425, 429}))
  }

  // What happens: a step of some command, or the answer to the request in flight. `writable` is whether
  // the file can be written at that moment.
  datatype Step =
    | Queue(payload: string, identity: string, blocked: bool, writable: bool)
    | SetEnabled(enabled: bool)
    | Reset
    | Flush(blocked: bool)
    | Finish(answer: Answer, writable: bool)

  function Queued(s: State, e: Event, identity: string): State {
    State(true, true, if s.anonymousId.Some? then s.anonymousId else Some(identity),
          LastOf(s.queue + [e], MAX_QUEUED_EVENTS))
  }

  function After(p: Process, step: Step): Process {
    var s := ReadState(p.file);
    match step
    case Queue(payload, identity, blocked, writable) =>
      var e := Event(p.next, payload);
      p.(next := p.next + 1,
         file := if blocked || !s.enabled || !writable then p.file else Some(Queued(s, e, identity)))
    case SetEnabled(enabled) => p.(file := Some(s.(enabled := enabled, queue := if enabled then s.queue else [])))
    case Reset => p.(file := None)
    case Flush(blocked) =>
      if p.batch.Some? || blocked || !s.enabled || s.anonymousId.None? || s.queue == [] then p
      else p.(batch := Some(FirstOf(s.queue, MAX_FLUSH_EVENTS)))
    case Finish(answer, writable) =>
      if p.batch.None? then p
      else if !Settles(answer) || !writable then p.(batch := None)
      else p.(batch := None, file := Some(s.(queue := Without(s.queue, p.batch.value))))
  }

  // The module's variable and its file, updated in place.
  class Client {
    var file: Saved
    var flushInFlight: Option<seq<Event>>
    var next: nat

    function Now(): Process
      reads this
    {
      Process(file, flushInFlight, next)
    }

    method QueueEvent(payload: string, identity: string, blocked: bool, writable: bool)
      modifies this
      ensures Now() == After(old(Now()), Queue(payload, identity, blocked, writable))
    {
      var id := next;
      next := next + 1;
      if blocked { return; }
      var state := ReadState(file);
      if !state.enabled { return; }
      var queue := LastOf(state.queue + [Event(id, payload)], MAX_QUEUED_EVENTS);
      var anonymousId := if state.anonymousId.Some? then state.anonymousId else Some(identity);
      if writable { file := Some(state.(disclosureShown := true, anonymousId := anonymousId, queue := queue)); }
    }

    method SetTelemetryEnabled(enabled: bool)
      modifies this
      ensures Now() == After(old(Now()), SetEnabled(enabled))
    {
      var state := ReadState(file);
      file := Some(state.(enabled := enabled, queue := if enabled then state.queue else []));
    }

    method ResetTelemetry()
      modifies this
      ensures Now() == After(old(Now()), Reset)
    {
      file := None;
    }

    // `flushProductAnalytics` up to its request; a flush in flight is the one returned.
    method FlushProductAnalytics(blocked: bool)
      modifies this
      ensures Now() == After(old(Now()), Flush(blocked))
    {
      if flushInFlight.Some? { return; }
      if blocked { return; }
      var state := ReadState(file);
      if !state.enabled || state.anonymousId.None? || |state.queue| == 0 { return; }
      flushInFlight := Some(FirstOf(state.queue, MAX_FLUSH_EVENTS));
    }

    // The rest of the flush, once its request has been answered or given up.
    method FinishFlush(answer: Answer, writable: bool)
      requires flushInFlight.Some?
      modifies this
      ensures Now() == After(old(Now()), Finish(answer, writable))
    {
      var batch := flushInFlight.value;
      flushInFlight := None;
      if answer.NoResponse? { return; }
      var code := answer.code;
      if !(200 <= code < 300) && (code >= 500 || code in {408, 425, 429}) { return; }
      if 200 <= code < 300 || 400 <= code < 500 {
        var current := ReadState(file);
        if writable { file := Some(current.(queue := Without(current.queue, batch))); }
      }
    }
  }

  /** What every step keeps. */

  ghost predicate Ascending(queue: seq<Event>) { forall i, j :: 0 <= i < j < |queue| ==> queue[i].id < queue[j].id }

  ghost predicate Between(queue: seq<Event>, low: nat, high: nat) { forall e :: e in queue ==> low <= e.id < high }

  function QueueOf(p: Process): seq<Event> { ReadState(p.file).queue }

  ghost predicate Valid(p: Process) {
    && (p.file.Some? ==> |p.file.value.queue| <= MAX_QUEUED_EVENTS)
    && Ascending(QueueOf(p)) && Between(QueueOf(p), 0, p.next)
    && (!ReadState(p.file).enabled ==> QueueOf(p) == [])
    && (p.batch.Some? ==> 0 < |p.batch.value| <= MAX_FLUSH_EVENTS && Between(p.batch.value, 0, p.next))
  }

  lemma {:induction false} WithoutKeepsOrder(queue: seq<Event>, batch: seq<Event>)
    requires Ascending(queue)
    ensures Ascending(Without(queue, batch)) && |Without(queue, batch)| <= |queue|
  {
    if queue != [] {
      WithoutKeepsOrder(queue[1..], batch);
      assert queue == [queue[0]] + queue[1..];
      LeastStaysFirst(queue[0], queue[1..], Without(queue[1..], batch));
    }
  }

  lemma LeastStaysFirst(e: Event, rest: seq<Event>, kept: seq<Event>)
    requires Ascending([e] + rest) && Ascending(kept) && forall k :: k in kept ==> k in rest
    ensures Ascending([e] + kept)
  {
    var all := [e] + rest;
    forall k | k in rest ensures e.id < k.id {
      var i :| 0 <= i < |rest| && rest[i] == k;
      assert all[0] == e && all[i + 1] == k;
    }
    assert forall i :: 0 <= i < |kept| ==> kept[i] in kept;
  }

  lemma LastKeepsOrder(queue: seq<Event>, e: Event)
    requires Ascending(queue) && Between(queue, 0, e.id)
    ensures Ascending(LastOf(queue + [e], MAX_QUEUED_EVENTS))
  {
    assert forall i :: 0 <= i < |queue| ==> queue[i] in queue;
  }

  /** Bounded, in enqueue order, empty while disabled, one flush of at most twenty: every step keeps it. */
  lemma StepKeepsValid(p: Process, step: Step)
    requires Valid(p)
    ensures Valid(After(p, step)) && p.next <= After(p, step).next
  {
    var s := ReadState(p.file);
    match step
    case Queue(payload, _, _, _) => LastKeepsOrder(s.queue, Event(p.next, payload));
    case Finish(answer, writable) => if p.batch.Some? { WithoutKeepsOrder(s.queue, p.batch.value); }
    case _ =>
  }

  lemma QueuedKeeps(queue: seq<Event>, last: Event, e: Event)
    requires |queue| <= MAX_QUEUED_EVENTS
    ensures var all := LastOf(queue + [last], MAX_QUEUED_EVENTS);
      && (e in all ==> e in queue || e == last)
      && (e in queue && e !in all ==> |queue| == MAX_QUEUED_EVENTS && e == queue[0])
  {
    var all := queue + [last];
    if |all| > MAX_QUEUED_EVENTS { assert all == [queue[0]] + LastOf(all, MAX_QUEUED_EVENTS); }
    assert e in all <==> e in queue || e == last;
  }

  /** An event leaves the queue only by a settled answer to a batch that held it, by overflow as the
      oldest of fifty, or by a disable or a reset; and only the newly issued one enters. */
  lemma WhatLeaves(p: Process, step: Step, e: Event)
    requires Valid(p)
    ensures e in QueueOf(p) && e !in QueueOf(After(p, step)) ==>
      || step == Reset
      || step == SetEnabled(false)
      || (step.Queue? && |QueueOf(p)| == MAX_QUEUED_EVENTS && e == QueueOf(p)[0])
      || (step.Finish? && Settles(step.answer) && p.batch.Some? && Holds(p.batch.value, e.id))
    ensures e !in QueueOf(p) && e in QueueOf(After(p, step)) ==> step.Queue? && e == Event(p.next, step.payload)
  {
    var queue := QueueOf(p);
    match step
    case Queue(payload, _, _, _) =>
      QueuedKeeps(queue, Event(p.next, payload), e);
    case Finish(_, _) => if p.batch.Some? { WithoutKeepsOrder(queue, p.batch.value); }
    case _ =>
  }

  /** A settled answer takes exactly the batch's members that are still queued, and leaves the rest,
      whatever was queued meanwhile, in order. */
  lemma FinishTakesItsBatch(p: Process, answer: Answer, e: Event)
    requires Valid(p) && p.batch.Some? && Settles(answer)
    ensures e in QueueOf(After(p, Finish(answer, true))) <==> e in QueueOf(p) && !Holds(p.batch.value, e.id)
    ensures After(p, Finish(answer, true)).batch.None?
  {
    WithoutKeepsOrder(QueueOf(p), p.batch.value);
  }

  predicate Enabled(p: Process) { ReadState(p.file).enabled }

  function Identity(p: Process): Option<string> { ReadState(p.file).anonymousId }

  /** An event is queued, last, exactly when nothing blocks it, collection is enabled and the file can be
      written; the disclosure has then been shown and the installation has an id, the one it had if any. An
      event that is not queued leaves no trace but its id. */
  lemma WhenAnEventIsQueued(p: Process, payload: string, identity: string, blocked: bool, writable: bool)
    requires Valid(p)
    ensures var after, e := After(p, Queue(payload, identity, blocked, writable)), Event(p.next, payload);
      && after.batch == p.batch && after.next == p.next + 1
      && (e in QueueOf(after) <==> !blocked && writable && Enabled(p))
      && if e in QueueOf(after)
         then QueueOf(after)[|QueueOf(after)| - 1] == e && Enabled(after) && after.file.value.disclosureShown
           && Identity(after) == (if Identity(p).Some? then Identity(p) else Some(identity))
         else after.file == p.file
  {
    var queue := QueueOf(p);
    var all := LastOf(queue + [Event(p.next, payload)], MAX_QUEUED_EVENTS);
    assert all[|all| - 1] == Event(p.next, payload);
  }

  /** A flush starts exactly when none is in flight, nothing blocks it, collection is enabled, the
      installation has an id and something is queued; it takes the oldest events, up to twenty. */
  lemma WhenAFlushStarts(p: Process, blocked: bool)
    requires Valid(p)
    ensures var after := After(p, Flush(blocked));
      && after.file == p.file && after.next == p.next && (p.batch.Some? ==> after.batch == p.batch)
      && (p.batch.None? ==>
            (after.batch.Some? <==> !blocked && Enabled(p) && Identity(p).Some? && QueueOf(p) != []))
      && (p.batch.None? && after.batch.Some? ==>
            && after.batch.value <= QueueOf(p)
            && |after.batch.value| == if |QueueOf(p)| < 20 then |QueueOf(p)| else 20)
  {}

  predicate Transient(a: Answer) {
    || a.NoResponse? || a.code < 200 || 300 <= a.code < 400 || a.code >= 500
    || a.code == 408 || a.code == 425 || a.code == 429
  }

  /** No answer, a server error, a timeout, a too-early or a too-many keeps the batch queued for later, and so
      does a file that cannot be written; success or any other refusal settles it. */
  lemma WhatAnAnswerDoes(p: Process, answer: Answer, writable: bool)
    requires Valid(p) && p.batch.Some?
    ensures var after := After(p, Finish(answer, writable));
      && after.batch.None? && after.next == p.next
      && (Transient(answer) || !writable ==> after.file == p.file)
      && (answer.Status? && writable && 200 <= answer.code < 300 ==>
            forall e | e in p.batch.value :: !Holds(QueueOf(after), e.id))
      && (answer.Status? && writable && 400 <= answer.code < 500 && answer.code !in {408, 425, 429} ==>
            forall e | e in p.batch.value :: !Holds(QueueOf(after), e.id))
      && Enabled(after) == Enabled(p) && Identity(after) == Identity(p)
  {
    WithoutKeepsOrder(QueueOf(p), p.batch.value);
  }

  /** Turning collection on or off does just that, at once; a reset leaves what a new installation has. */
  lemma WhatAChoiceDoes(p: Process, enabled: bool)
    requires Valid(p)
    ensures var after := After(p, SetEnabled(enabled));
      && Enabled(after) == enabled && Identity(after) == Identity(p)
      && QueueOf(after) == (if enabled then QueueOf(p) else [])
      && after.batch == p.batch && after.next == p.next
    ensures Enabled(After(p, Reset)) && Identity(After(p, Reset)).None? && QueueOf(After(p, Reset)) == []
  {}

  /** Whole runs. */

  ghost predicate StepAt(states: seq<Process>, steps: seq<Step>, i: nat)
    requires i < |steps| && |states| == |steps| + 1
  {
    states[i + 1] == After(states[i], steps[i])
  }

  ghost predicate IsRun(states: seq<Process>, steps: seq<Step>) {
    && |states| == |steps| + 1 && Valid(states[0])
    && forall i: nat {:trigger StepAt(states, steps, i)} :: i < |steps| ==> StepAt(states, steps, i)
  }

  lemma {:induction false} RunKeepsValid(states: seq<Process>, steps: seq<Step>, i: nat)
    requires IsRun(states, steps) && i <= |steps|
    ensures Valid(states[i])
  {
    if i > 0 {
      RunKeepsValid(states, steps, i - 1);
      assert StepAt(states, steps, i - 1);
      StepKeepsValid(states[i - 1], steps[i - 1]);
    }
  }

  /** After a disable or a reset at step k the queue only ever holds events issued since. */
  lemma {:induction false} ClearedStaysCleared(states: seq<Process>, steps: seq<Step>, k: nat, i: nat)
    requires IsRun(states, steps) && k < i <= |steps|
    requires steps[k] == SetEnabled(false) || steps[k] == Reset
    ensures Between(QueueOf(states[i]), states[k].next, states[i].next)
    ensures states[k].next <= states[i].next
  {
    assert StepAt(states, steps, i - 1);
    RunKeepsValid(states, steps, i - 1);
    RunKeepsValid(states, steps, i);
    if i > k + 1 {
      ClearedStaysCleared(states, steps, k, i - 1);
      forall e | e in QueueOf(states[i]) ensures states[k].next <= e.id {
        WhatLeaves(states[i - 1], steps[i - 1], e);
      }
    }
  }

  /** Nothing collected before a disable is sent by a flush that starts after it. */
  lemma NothingCollectedBeforeIsSent(states: seq<Process>, steps: seq<Step>, k: nat, i: nat)
    requires IsRun(states, steps) && k < i < |steps|
    requires steps[k] == SetEnabled(false) || steps[k] == Reset
    requires states[i].batch.None? && states[i + 1].batch.Some?
    ensures Between(states[i + 1].batch.value, states[k].next, states[i].next)
  {
    ClearedStaysCleared(states, steps, k, i);
    assert StepAt(states, steps, i);
    var queue := QueueOf(states[i]);
    assert forall e :: e in FirstOf(queue, MAX_FLUSH_EVENTS) ==> e in queue;
  }

  /** An event whose batch was settled never returns to the queue, so no later flush sends it again. */
  lemma {:induction false} SettledNeverReturns(states: seq<Process>, steps: seq<Step>, k: nat, i: nat, e: Event)
    requires IsRun(states, steps) && k < i <= |steps|
    requires steps[k].Finish? && Settles(steps[k].answer) && steps[k].writable
    requires states[k].batch.Some? && e in states[k].batch.value
    ensures !Holds(QueueOf(states[i]), e.id) && e.id < states[i].next
  {
    assert StepAt(states, steps, i - 1);
    RunKeepsValid(states, steps, i - 1);
    StepKeepsValid(states[i - 1], steps[i - 1]);
    if i > k + 1 {
      SettledNeverReturns(states, steps, k, i - 1, e);
      forall f | f in QueueOf(states[i]) ensures f.id != e.id { WhatLeaves(states[i - 1], steps[i - 1], f); }
    } else {
      forall f | f in QueueOf(states[i]) ensures f.id != e.id { FinishTakesItsBatch(states[k], steps[k].answer, f); }
    }
  }

  lemma SettledIsNotSentAgain(states: seq<Process>, steps: seq<Step>, k: nat, i: nat, e: Event)
    requires IsRun(states, steps) && k < i < |steps|
    requires steps[k].Finish? && Settles(steps[k].answer) && steps[k].writable
    requires states[k].batch.Some? && e in states[k].batch.value
    requires states[i].batch.None? && states[i + 1].batch.Some?
    ensures !Holds(states[i + 1].batch.value, e.id)
  {
    SettledNeverReturns(states, steps, k, i, e);
    assert StepAt(states, steps, i);
    var queue := QueueOf(states[i]);
    assert forall f :: f in FirstOf(queue, MAX_FLUSH_EVENTS) ==> f in queue;
  }

  // Between the two states the choice is neither made again nor reset.
  ghost predicate ChoiceStands(steps: seq<Step>, k: nat, i: nat)
    requires i <= |steps|
  {
    forall m | k < m < i :: !steps[m].SetEnabled? && steps[m] != Reset
  }

  /** A choice holds until the next one: while disabled nothing is queued and no flush starts; while enabled
      every event that nothing blocks is queued. */
  lemma {:induction false} TheLastChoiceHolds(states: seq<Process>, steps: seq<Step>, k: nat, i: nat)
    requires IsRun(states, steps) && k < i <= |steps| && steps[k].SetEnabled? && ChoiceStands(steps, k, i)
    ensures Enabled(states[i]) == steps[k].enabled
    ensures !steps[k].enabled ==> QueueOf(states[i]) == []
    ensures !steps[k].enabled && i < |steps| && states[i].batch.None? && steps[i] != SetEnabled(true) ==>
      states[i + 1].batch.None? && QueueOf(states[i + 1]) == []
    ensures steps[k].enabled && i < |steps| && steps[i].Queue? && !steps[i].blocked && steps[i].writable ==>
      Event(states[i].next, steps[i].payload) in QueueOf(states[i + 1])
  {
    RunKeepsValid(states, steps, i - 1);
    RunKeepsValid(states, steps, i);
    assert StepAt(states, steps, i - 1);
    if i > k + 1 { TheLastChoiceHolds(states, steps, k, i - 1); }
    StepKeepsChoice(states[i - 1], steps[i - 1]);
    if i < |steps| {
      assert StepAt(states, steps, i);
      if steps[i].Queue? {
        WhenAnEventIsQueued(states[i], steps[i].payload, steps[i].identity, steps[i].blocked, steps[i].writable);
      }
    }
  }

  lemma StepKeepsChoice(p: Process, step: Step)
    requires Valid(p)
    ensures Enabled(After(p, step)) ==
      match step
      case SetEnabled(enabled) => enabled
      case Reset => true
      case _ => Enabled(p)
  {}

  /** An installation keeps its id until it is reset. */
  lemma {:induction false} IdentityStays(states: seq<Process>, steps: seq<Step>, k: nat, i: nat)
    requires IsRun(states, steps) && k <= i <= |steps|
    requires Identity(states[k]).Some? && Reset !in steps[k..i]
    ensures Identity(states[i]) == Identity(states[k])
  {
    if k < i {
      assert steps[k..i] == steps[k..i - 1] + [steps[i - 1]];
      IdentityStays(states, steps, k, i - 1);
      assert StepAt(states, steps, i - 1);
    }
  }
}
