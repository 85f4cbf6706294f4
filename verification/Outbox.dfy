/**
 * The transactional outbox as a state machine: relay replicas, queue, workers, the reconciler of
 * failed jobs, the redrive endpoint, account deletion and retention all act on the same rows. Each
 * step is one database statement or one queue call; a step whose guard fails changes nothing, so
 * any sequence of steps is an interleaving of any number of (possibly stale) actors.
 *
 * Queue assumption: a job id is added at most once, and a job may run any number of times.
 */
module Outbox {
  import opened Wrappers
  import opened OutboxRows

  type WorkerId = nat

  /** One event in the hands of a relay: the generation it read, and whether the queue took the job. */
  datatype Hand = Hand(generation: nat, added: bool)

  datatype Worker =
    | Fetched(event: EventId, generation: nat, expiresAt: Option<Time>)
    | Started(event: EventId, generation: nat)
    | Failing(event: EventId, generation: nat, disposition: Disposition)
    | Reconciling(event: EventId, generation: nat)
    | Done

  datatype State = State(
    clock: Time,
    rows: Rows,
    purged: set<EventId>,
    tokens: set<Token>,
    hands: map<(Token, EventId), Hand>,
    jobs: set<(EventId, nat)>,
    workers: map<WorkerId, Worker>)

  datatype Step =
    | Tick(elapsed: nat)
    | AddEvent(event: EventId, availableAt: Time, expiresAt: Option<Time>)
    | ClaimBatch(token: Token, at: Time, chosen: set<EventId>)
    | AddJob(token: Token, event: EventId)
    | FinishEnqueue(token: Token, event: EventId)
    | FailEnqueue(token: Token, event: EventId)
    | DropHand(token: Token, event: EventId)
    | Fetch(worker: WorkerId, event: EventId, generation: nat)
    | FetchForReconcile(worker: WorkerId, event: EventId, generation: nat)
    | Expire(worker: WorkerId)
    | Start(worker: WorkerId)
    | Deliver(worker: WorkerId, alreadyRecorded: bool)
    | Fail(worker: WorkerId, attemptsMade: int, configured: Option<int>)
    | RecordFailure(worker: WorkerId)
    | Stop(worker: WorkerId)
    | RedriveEvent(event: EventId, at: Time)
    | EraseAccount(owned: set<EventId>)
    | Purge(event: EventId)

  function Init(): State {
    State(0, map[], {}, {}, map[], {}, map[])
  }

  /** The checks both the worker and the reconciler make on the row they read. */
  predicate Pertains(rows: Rows, e: EventId, generation: nat) {
    e in rows && !Terminal(rows[e].status) && rows[e].generation == generation
  }

  predicate CanClaim(s: State, token: Token, at: Time, chosen: set<EventId>) {
    && at <= s.clock
    && token !in s.tokens
    && |chosen| <= BATCH_SIZE
    && forall e | e in chosen :: e in s.rows && Claimable(s.rows[e], at)
  }

  function ClaimStep(s: State, token: Token, at: Time, chosen: set<EventId>): State {
    if CanClaim(s, token, at, chosen) then
      s.(rows := ClaimRows(s.rows, chosen, token, at),
         tokens := s.tokens + {token},
         hands := s.hands + (map e | e in chosen && e in s.rows :: (token, e) := Hand(s.rows[e].generation, false)))
    else s
  }

  function HandStep(s: State, step: Step): State
    requires step.AddJob? || step.FinishEnqueue? || step.FailEnqueue? || step.DropHand?
  {
    var key := (step.token, step.event);
    if key !in s.hands then s
    else match step
      case AddJob(token, e) =>
        s.(jobs := s.jobs + {(e, s.hands[key].generation)}, hands := s.hands[key := s.hands[key].(added := true)])
      case FinishEnqueue(token, e) =>
        if s.hands[key].added then s.(rows := MarkEnqueued(s.rows, e, token), hands := s.hands - {key}) else s
      case FailEnqueue(token, e) =>
        s.(rows := Release(s.rows, e, token, s.clock), hands := s.hands - {key})
      case DropHand(_, _) =>
        s.(hands := s.hands - {key})
  }

  function FetchStep(s: State, step: Step): State
    requires step.Fetch? || step.FetchForReconcile?
  {
    if step.worker in s.workers || (step.event, step.generation) !in s.jobs then s
    else if !Pertains(s.rows, step.event, step.generation) then
      s.(workers := s.workers[step.worker := Done])
    else if step.FetchForReconcile? then
      s.(workers := s.workers[step.worker := Reconciling(step.event, step.generation)])
    else
      s.(workers := s.workers[step.worker := Fetched(step.event, step.generation, s.rows[step.event].expiresAt)])
  }

  function WorkerStep(s: State, step: Step): State
    requires step.Expire? || step.Start? || step.Deliver? || step.Fail? || step.RecordFailure? || step.Stop?
  {
    if step.worker !in s.workers then s
    else
      var w := s.workers[step.worker];
      match step
      case Expire(id) =>
        if w.Fetched? && w.expiresAt.Some? && w.expiresAt.value <= s.clock then
          s.(rows := MarkExpired(s.rows, w.event, w.generation), workers := s.workers[id := Done])
        else s
      case Start(id) =>
        if w.Fetched? then
          s.(rows := MarkStarted(s.rows, w.event, w.generation),
             workers := s.workers[id :=
               if MayStart(s.rows, w.event, w.generation) then Started(w.event, w.generation) else Done])
        else s
      case Deliver(id, alreadyRecorded) =>
        if w.Started? then
          s.(rows := MarkDelivered(s.rows, w.event, w.generation),
             workers := s.workers[id :=
               if alreadyRecorded || MayDeliver(s.rows, w.event, w.generation) then Done
               else Failing(w.event, w.generation, RETRY)])
        else s
      case Fail(id, attemptsMade, configured) =>
        if w.Started? || w.Failing? then
          s.(workers := s.workers[id :=
               Failing(w.event, w.generation, FailureDisposition(attemptsMade, configured))])
        else s
      case RecordFailure(id) =>
        if w.Failing? then
          s.(rows := MarkFailure(s.rows, w.event, w.generation, w.disposition), workers := s.workers[id := Done])
        else if w.Reconciling? then
          s.(rows := MarkFailure(s.rows, w.event, w.generation, TO_DEAD_LETTER), workers := s.workers[id := Done])
        else s
      case Stop(id) =>
        s.(workers := s.workers[id := Done])
  }

  function Next(s: State, step: Step): State {
    match step
    case Tick(elapsed) => s.(clock := s.clock + elapsed)
    case AddEvent(e, availableAt, expiresAt) =>
      if e in s.rows || e in s.purged then s
      else s.(rows := s.rows[e := Row(PENDING, 0, 0, availableAt, expiresAt, None, None)])
    case ClaimBatch(token, at, chosen) => ClaimStep(s, token, at, chosen)
    case RedriveEvent(e, at) => if at <= s.clock then s.(rows := Redrive(s.rows, e, at)) else s
    case EraseAccount(owned) => s.(rows := Erase(s.rows, owned, s.clock))
    case Purge(e) =>
      if e in s.rows && Terminal(s.rows[e].status) then
        s.(rows := s.rows - {e}, purged := s.purged + {e})
      else s
    case Fetch(_, _, _) => FetchStep(s, step)
    case FetchForReconcile(_, _, _) => FetchStep(s, step)
    case AddJob(_, _) => HandStep(s, step)
    case FinishEnqueue(_, _) => HandStep(s, step)
    case FailEnqueue(_, _) => HandStep(s, step)
    case DropHand(_, _) => HandStep(s, step)
    case _ => WorkerStep(s, step)
  }

  function Run(s: State, steps: seq<Step>): State
    decreases |steps|
  {
    if steps == [] then s else Run(Next(s, steps[0]), steps[1..])
  }

  // ---------------------------------------------------------------------------------------------
  // The invariant
  // ---------------------------------------------------------------------------------------------

  /** Between its start and its finish: the worker may still deliver or record a failure. */
  predicate InFlight(w: Worker) {
    w.Started? || w.Failing?
  }

  predicate Known(s: State, e: EventId) {
    e in s.rows || e in s.purged
  }

  /** A hand names a token already drawn, an old generation, and a row no newer than its own claim. */
  ghost predicate HandAgrees(s: State, token: Token, e: EventId, h: Hand) {
    && token in s.tokens
    && Known(s, e)
    && (h.added ==> (e, h.generation) in s.jobs)
    && (e in s.rows ==>
          && h.generation <= s.rows[e].generation
          && (s.rows[e].claimToken == Some(token) ==> s.rows[e].generation == h.generation))
  }

  ghost predicate HandsAgree(s: State) {
    forall token, e :: (token, e) in s.hands ==> HandAgrees(s, token, e, s.hands[(token, e)])
  }

  ghost predicate RowAgrees(s: State, e: EventId)
    requires e in s.rows
  {
    var row := s.rows[e];
    && (row.claimToken.Some? ==> row.claimToken.value in s.tokens)
    && (row.status == CLAIMED ==> row.claimToken.Some? && row.claimExpiresAt.Some?)
    && (row.status == ENQUEUED || row.status == PROCESSING || row.status == FAILED || row.status == DELIVERED
        ==> (e, row.generation) in s.jobs)
  }

  ghost predicate RowsAgree(s: State) {
    forall e :: e in s.rows ==> RowAgrees(s, e)
  }

  ghost predicate JobsAgree(s: State) {
    forall e, g :: (e, g) in s.jobs ==> Known(s, e) && (e in s.rows ==> g <= s.rows[e].generation)
  }

  /**
   * While a worker is in flight its generation is over, or the row is still marked PROCESSING, or it
   * has been dead-lettered under the worker: nothing can put it back to a startable status.
   */
  ghost predicate WorkerAgrees(s: State, w: Worker) {
    && (!w.Done? ==> (w.event, w.generation) in s.jobs)
    && (InFlight(w) && w.event in s.rows && s.rows[w.event].generation == w.generation ==>
          s.rows[w.event].status == PROCESSING || s.rows[w.event].status == DEAD_LETTER)
  }

  ghost predicate WorkersAgree(s: State) {
    forall k :: k in s.workers ==> WorkerAgrees(s, s.workers[k])
  }

  ghost predicate OneWorkerInFlight(s: State) {
    forall k, l :: k in s.workers && l in s.workers && InFlight(s.workers[k]) && InFlight(s.workers[l])
      && s.workers[k].event == s.workers[l].event && s.workers[k].generation == s.workers[l].generation
      ==> k == l
  }

  ghost predicate Inv(s: State) {
    && HandsAgree(s)
    && RowsAgree(s)
    && JobsAgree(s)
    && WorkersAgree(s)
    && OneWorkerInFlight(s)
    && s.rows.Keys !! s.purged
  }

  // ---------------------------------------------------------------------------------------------
  // Rows only move forward
  // ---------------------------------------------------------------------------------------------

  function Phase(status: Status): nat {
    match status
    case PENDING => 0
    case CLAIMED => 0
    case ENQUEUED => 1
    case PROCESSING => 1
    case FAILED => 1
    case DELIVERED => 2
    case DEAD_LETTER => 2
  }

  /** (generation, phase) never falls lexicographically, and DELIVERED is final. */
  predicate Forward(before: Row, after: Row) {
    && (before.generation < after.generation
        || (before.generation == after.generation && Phase(before.status) <= Phase(after.status)))
    && (before.status == DELIVERED ==> after.status == DELIVERED && after.generation == before.generation)
  }

  /** Only a redrive raises the generation, by one, and only out of DEAD_LETTER. */
  lemma StepMovesForward(s: State, step: Step, e: EventId)
    requires e in s.rows && e in Next(s, step).rows
    ensures Forward(s.rows[e], Next(s, step).rows[e])
    ensures Next(s, step).rows[e].generation != s.rows[e].generation ==>
              && step.RedriveEvent? && step.event == e && s.rows[e].status == DEAD_LETTER
              && Next(s, step).rows[e].generation == s.rows[e].generation + 1
              && Next(s, step).rows[e].status == PENDING
  {
  }

  /** A purged event never comes back, so a row seen twice was there all along. */
  lemma {:induction false} GoneForGood(s: State, steps: seq<Step>, e: EventId)
    requires e in s.purged && e !in s.rows
    ensures e in Run(s, steps).purged && e !in Run(s, steps).rows
    decreases |steps|
  {
    if steps != [] {
      GoneForGood(Next(s, steps[0]), steps[1..], e);
    }
  }

  /** Over every run, of any actors, stale or not. */
  lemma {:induction false} RunMovesForward(s: State, steps: seq<Step>, e: EventId)
    requires e in s.rows && e in Run(s, steps).rows
    ensures Forward(s.rows[e], Run(s, steps).rows[e])
    decreases |steps|
  {
    if steps != [] {
      var t := Next(s, steps[0]);
      if e !in t.rows {
        GoneForGood(t, steps[1..], e);
        assert false;
      }
      StepMovesForward(s, steps[0], e);
      RunMovesForward(t, steps[1..], e);
    }
  }

  // ---------------------------------------------------------------------------------------------
  // Every step keeps the invariant
  // ---------------------------------------------------------------------------------------------

  /**
   * Row changes that leave generations alone, introduce no token, and enter no phase-one status
   * without its job keep everything except the workers' view.
   */
  lemma RowChangeKeeps(s: State, t: State)
    requires Inv(s)
    requires t == s.(rows := t.rows, workers := t.workers)
    requires t.rows.Keys == s.rows.Keys
    requires forall e :: e in s.rows ==>
               && t.rows[e].generation == s.rows[e].generation
               && (t.rows[e].claimToken.Some? ==> t.rows[e].claimToken == s.rows[e].claimToken)
               && RowAgrees(t, e)
    ensures HandsAgree(t) && RowsAgree(t) && JobsAgree(t) && t.rows.Keys !! t.purged
  {
    forall token, e | (token, e) in t.hands
      ensures HandAgrees(t, token, e, t.hands[(token, e)])
    {
      assert HandAgrees(s, token, e, s.hands[(token, e)]);
    }
  }

  lemma ClaimKeepsInv(s: State, token: Token, at: Time, chosen: set<EventId>)
    requires Inv(s)
    ensures Inv(Next(s, ClaimBatch(token, at, chosen)))
  {
    var t := Next(s, ClaimBatch(token, at, chosen));
    if CanClaim(s, token, at, chosen) {
      forall k, e | (k, e) in s.hands
        ensures k != token
      {
        assert HandAgrees(s, k, e, s.hands[(k, e)]);
      }
      forall k, e | (k, e) in t.hands
        ensures HandAgrees(t, k, e, t.hands[(k, e)])
      {
        if k != token {
          assert (k, e) in s.hands;
          assert HandAgrees(s, k, e, s.hands[(k, e)]);
        }
      }
      forall e | e in t.rows
        ensures RowAgrees(t, e)
      {
        assert RowAgrees(s, e);
      }
      forall k | k in t.workers
        ensures WorkerAgrees(t, t.workers[k])
      {
        assert WorkerAgrees(s, s.workers[k]);
      }
    }
  }

  lemma HandStepKeepsInv(s: State, step: Step)
    requires Inv(s)
    requires step.AddJob? || step.FinishEnqueue? || step.FailEnqueue? || step.DropHand?
    ensures Inv(Next(s, step))
  {
    var t := Next(s, step);
    var key := (step.token, step.event);
    if key in s.hands {
      assert HandAgrees(s, step.token, step.event, s.hands[key]);
      forall k, e | (k, e) in t.hands
        ensures HandAgrees(t, k, e, t.hands[(k, e)])
      {
        assert HandAgrees(s, k, e, s.hands[(k, e)]);
      }
      forall e | e in t.rows
        ensures RowAgrees(t, e)
      {
        assert RowAgrees(s, e);
      }
      forall k | k in t.workers
        ensures WorkerAgrees(t, t.workers[k])
      {
        assert WorkerAgrees(s, s.workers[k]);
      }
    }
  }

  lemma FetchKeepsWorkers(s: State, step: Step)
    requires Inv(s) && (step.Fetch? || step.FetchForReconcile?)
    ensures WorkersAgree(Next(s, step)) && OneWorkerInFlight(Next(s, step))
  {
    hide HandsAgree, RowsAgree, JobsAgree;
    var t := Next(s, step);
    forall k | k in t.workers
      ensures WorkerAgrees(t, t.workers[k])
    {
      if k != step.worker {
        assert WorkerAgrees(s, s.workers[k]);
      }
    }
  }

  lemma FetchKeepsInv(s: State, step: Step)
    requires Inv(s) && (step.Fetch? || step.FetchForReconcile?)
    ensures Inv(Next(s, step))
  {
    FetchKeepsWorkers(s, step);
    RowChangeKeeps(s, Next(s, step));
  }

  /** Starting claims the row for this worker: no other one of its generation can be in flight. */
  lemma StartKeepsInv(s: State, id: WorkerId)
    requires Inv(s)
    ensures Inv(Next(s, Start(id)))
  {
    if id in s.workers && s.workers[id].Fetched? {
      var t := Next(s, Start(id));
      var w := s.workers[id];
      assert WorkerAgrees(s, w);
      WritesKeepRows(s, t, w.event);
      forall k | k in t.workers
        ensures WorkerAgrees(t, t.workers[k])
        ensures k != id && InFlight(t.workers[k]) && InFlight(t.workers[id]) ==>
                  t.workers[k].event != w.event || t.workers[k].generation != w.generation
      {
        assert WorkerAgrees(s, s.workers[k]);
      }
    }
  }

  /** A write that touches one row in place, within its generation. */
  lemma WritesKeepRows(s: State, t: State, e: EventId)
    requires Inv(s)
    requires t == s.(rows := t.rows, workers := t.workers)
    requires t.rows.Keys == s.rows.Keys && forall other :: other in s.rows && other != e ==> t.rows[other] == s.rows[other]
    requires e in s.rows ==>
               && t.rows[e].generation == s.rows[e].generation
               && (t.rows[e].claimToken.Some? ==> t.rows[e].claimToken == s.rows[e].claimToken)
               && (t.rows[e].status == CLAIMED ==> t.rows[e] == s.rows[e])
               && (Phase(t.rows[e].status) > 0 && t.rows[e].status != DEAD_LETTER ==> (e, t.rows[e].generation) in s.jobs)
    ensures HandsAgree(t) && RowsAgree(t) && JobsAgree(t) && t.rows.Keys !! t.purged
  {
    forall other | other in t.rows
      ensures RowAgrees(t, other)
    {
      assert RowAgrees(s, other);
    }
    RowChangeKeeps(s, t);
  }

  /**
   * A worker that ends, or stays in flight, may write its event's row: any worker may dead-letter it,
   * and the one in flight may do more, because it is the only one of its generation.
   */
  lemma SettleKeepsInv(s: State, t: State, id: WorkerId)
    requires Inv(s) && id in s.workers && id in t.workers && !s.workers[id].Done?
    requires t == s.(rows := t.rows, workers := s.workers[id := t.workers[id]])
    requires var w, v := s.workers[id], t.workers[id];
      v.Done? || (InFlight(w) && InFlight(v) && v.event == w.event && v.generation == w.generation)
    requires HandsAgree(t) && RowsAgree(t) && JobsAgree(t) && t.rows.Keys == s.rows.Keys
    requires var w := s.workers[id];
      forall e :: e in s.rows && t.rows[e] != s.rows[e] ==>
        && e == w.event && s.rows[e].generation == w.generation == t.rows[e].generation
        && (t.rows[e].status == DEAD_LETTER || (InFlight(w) && t.workers[id].Done?))
    ensures Inv(t)
  {
    forall k | k in t.workers
      ensures WorkerAgrees(t, t.workers[k])
    {
      assert WorkerAgrees(s, s.workers[k]);
    }
  }

  lemma DeliverKeepsInv(s: State, id: WorkerId, alreadyRecorded: bool)
    requires Inv(s)
    ensures Inv(Next(s, Deliver(id, alreadyRecorded)))
  {
    if id in s.workers && s.workers[id].Started? {
      var t := Next(s, Deliver(id, alreadyRecorded));
      assert WorkerAgrees(s, s.workers[id]);
      WritesKeepRows(s, t, s.workers[id].event);
      SettleKeepsInv(s, t, id);
    }
  }

  lemma RecordFailureKeepsInv(s: State, id: WorkerId)
    requires Inv(s)
    ensures Inv(Next(s, RecordFailure(id)))
  {
    if id in s.workers && (s.workers[id].Failing? || s.workers[id].Reconciling?) {
      var t := Next(s, RecordFailure(id));
      assert WorkerAgrees(s, s.workers[id]);
      WritesKeepRows(s, t, s.workers[id].event);
      SettleKeepsInv(s, t, id);
    }
  }

  lemma ExpireKeepsInv(s: State, id: WorkerId)
    requires Inv(s)
    ensures Inv(Next(s, Expire(id)))
  {
    if id in s.workers && s.workers[id].Fetched? {
      var t := Next(s, Expire(id));
      assert WorkerAgrees(s, s.workers[id]);
      if t != s {
        WritesKeepRows(s, t, s.workers[id].event);
        SettleKeepsInv(s, t, id);
      }
    }
  }

  lemma FailOrStopKeepsInv(s: State, step: Step)
    requires Inv(s) && (step.Fail? || step.Stop?)
    ensures Inv(Next(s, step))
  {
    if step.worker in s.workers && !s.workers[step.worker].Done? {
      var t := Next(s, step);
      if t != s {
        assert forall e :: e in s.rows ==> RowAgrees(s, e) && RowAgrees(t, e);
        RowChangeKeeps(s, t);
        SettleKeepsInv(s, t, step.worker);
      }
    } else if step.worker in s.workers {
      assert Next(s, step) == s;
    }
  }

  predicate IsRowStep(step: Step) {
    step.Tick? || step.AddEvent? || step.RedriveEvent? || step.EraseAccount? || step.Purge?
  }

  lemma RowStepKeepsHands(s: State, step: Step)
    requires Inv(s) && IsRowStep(step)
    ensures HandsAgree(Next(s, step))
  {
    var t := Next(s, step);
    forall k, e | (k, e) in t.hands
      ensures HandAgrees(t, k, e, t.hands[(k, e)])
    {
      assert HandAgrees(s, k, e, s.hands[(k, e)]);
    }
  }

  lemma RowStepKeepsWorkers(s: State, step: Step)
    requires Inv(s) && IsRowStep(step)
    ensures WorkersAgree(Next(s, step)) && OneWorkerInFlight(Next(s, step))
  {
    var t := Next(s, step);
    forall k | k in t.workers
      ensures WorkerAgrees(t, t.workers[k])
    {
      assert WorkerAgrees(s, s.workers[k]);
    }
  }

  lemma RowStepKeepsInv(s: State, step: Step)
    requires Inv(s) && IsRowStep(step)
    ensures Inv(Next(s, step))
  {
    RowStepKeepsHands(s, step);
    RowStepKeepsWorkers(s, step);
    hide HandsAgree, WorkersAgree, OneWorkerInFlight;
    var t := Next(s, step);
    forall e | e in t.rows
      ensures RowAgrees(t, e)
    {
      if e in s.rows {
        assert RowAgrees(s, e);
      }
    }
  }

  lemma NextKeepsInv(s: State, step: Step)
    requires Inv(s)
    ensures Inv(Next(s, step))
  {
    match step
    case ClaimBatch(token, at, chosen) => ClaimKeepsInv(s, token, at, chosen);
    case AddJob(_, _) => HandStepKeepsInv(s, step);
    case FinishEnqueue(_, _) => HandStepKeepsInv(s, step);
    case FailEnqueue(_, _) => HandStepKeepsInv(s, step);
    case DropHand(_, _) => HandStepKeepsInv(s, step);
    case Fetch(_, _, _) => FetchKeepsInv(s, step);
    case FetchForReconcile(_, _, _) => FetchKeepsInv(s, step);
    case Tick(_) => RowStepKeepsInv(s, step);
    case AddEvent(_, _, _) => RowStepKeepsInv(s, step);
    case RedriveEvent(_, _) => RowStepKeepsInv(s, step);
    case EraseAccount(_) => RowStepKeepsInv(s, step);
    case Purge(_) => RowStepKeepsInv(s, step);
    case Start(id) => StartKeepsInv(s, id);
    case Expire(id) => ExpireKeepsInv(s, id);
    case Deliver(id, alreadyRecorded) => DeliverKeepsInv(s, id, alreadyRecorded);
    case RecordFailure(id) => RecordFailureKeepsInv(s, id);
    case Fail(_, _, _) => FailOrStopKeepsInv(s, step);
    case Stop(_) => FailOrStopKeepsInv(s, step);
  }

  lemma {:induction false} RunKeepsInv(s: State, steps: seq<Step>)
    requires Inv(s)
    ensures Inv(Run(s, steps))
    decreases |steps|
  {
    if steps != [] {
      NextKeepsInv(s, steps[0]);
      RunKeepsInv(Next(s, steps[0]), steps[1..]);
    }
  }

  // ---------------------------------------------------------------------------------------------
  // What the invariant buys
  // ---------------------------------------------------------------------------------------------

  /** For each (event, generation), at most one worker is between start and finish. */
  lemma OneWorkerPerGeneration(steps: seq<Step>, k: WorkerId, l: WorkerId)
    requires var s := Run(Init(), steps);
      && k in s.workers && l in s.workers && InFlight(s.workers[k]) && InFlight(s.workers[l])
      && s.workers[k].event == s.workers[l].event && s.workers[k].generation == s.workers[l].generation
    ensures k == l
  {
    RunKeepsInv(Init(), steps);
  }

  lemma {:induction false} SmallNaturals(g: set<nat>, bound: nat)
    requires forall x :: x in g ==> x < bound
    ensures |g| <= bound
  {
    if bound > 0 {
      SmallNaturals(g - {bound - 1}, bound - 1);
      assert g <= (g - {bound - 1}) + {bound - 1};
    } else {
      assert g == {};
    }
  }

  function JobGenerations(s: State, e: EventId): set<nat> {
    set job | job in s.jobs && job.0 == e :: job.1
  }

  /** Distinct queue jobs ever created for an event: at most one per generation so far. */
  lemma JobsBoundedByGeneration(steps: seq<Step>, e: EventId)
    requires e in Run(Init(), steps).rows
    ensures |JobGenerations(Run(Init(), steps), e)| <= Run(Init(), steps).rows[e].generation + 1
  {
    RunKeepsInv(Init(), steps);
    var s := Run(Init(), steps);
    SmallNaturals(JobGenerations(s, e), s.rows[e].generation + 1);
  }

  /** No event is marked enqueued, running or delivered in a generation the queue never got a job for. */
  lemma EnqueuedEventsHaveAJob(steps: seq<Step>, e: EventId)
    requires e in Run(Init(), steps).rows
    requires Phase(Run(Init(), steps).rows[e].status) > 0 && Run(Init(), steps).rows[e].status != DEAD_LETTER
    ensures (e, Run(Init(), steps).rows[e].generation) in Run(Init(), steps).jobs
  {
    RunKeepsInv(Init(), steps);
    assert RowAgrees(Run(Init(), steps), e);
  }

  /** The claim ended by other means than a second claim: dead-lettered, redriven, or purged. */
  predicate ClaimKeptOrOver(before: Row, rows: Rows, e: EventId) {
    e in rows ==>
      || rows[e] == before
      || (rows[e].status == DEAD_LETTER && rows[e].generation == before.generation)
      || rows[e].generation > before.generation
  }

  predicate SettledByOwner(step: Step, token: Token, e: EventId) {
    (step.FinishEnqueue? || step.FailEnqueue?) && step.token == token && step.event == e
  }

  lemma LiveLeaseStep(s: State, step: Step, e: EventId, row: Row)
    requires Inv(s)
    requires row.status == CLAIMED && row.claimToken.Some? && row.claimExpiresAt.Some?
    requires ClaimKeptOrOver(row, s.rows, e) && Known(s, e)
    requires s.clock < row.claimExpiresAt.value
    requires !SettledByOwner(step, row.claimToken.value, e)
    ensures ClaimKeptOrOver(row, Next(s, step).rows, e) && Known(Next(s, step), e)
  {
    if e in s.rows && e in Next(s, step).rows {
      StepMovesForward(s, step, e);
      if s.rows[e] == row {
        hide HandsAgree, JobsAgree, WorkersAgree, OneWorkerInFlight;
        assert RowAgrees(s, e);
      } else {
        hide HandsAgree, RowsAgree, JobsAgree, OneWorkerInFlight;
        if step.RecordFailure? && step.worker in s.workers {
          assert WorkerAgrees(s, s.workers[step.worker]);
        }
      }
    }
  }

  lemma {:induction false} ClockRises(s: State, steps: seq<Step>)
    ensures s.clock <= Run(s, steps).clock
    decreases |steps|
  {
    if steps != [] {
      ClockRises(Next(s, steps[0]), steps[1..]);
    }
  }

  /**
   * A live claim is never taken over: as long as the lease has not run out and its owner has not
   * settled it, the row is untouched, or its generation has been dead-lettered.
   */
  lemma {:induction false} LiveLeaseIsNeverTakenOver(s: State, steps: seq<Step>, e: EventId, row: Row)
    requires Inv(s) && Known(s, e) && ClaimKeptOrOver(row, s.rows, e)
    requires row.status == CLAIMED && row.claimToken.Some? && row.claimExpiresAt.Some?
    requires Run(s, steps).clock < row.claimExpiresAt.value
    requires forall step :: step in steps ==> !SettledByOwner(step, row.claimToken.value, e)
    ensures ClaimKeptOrOver(row, Run(s, steps).rows, e)
    decreases |steps|
  {
    if steps != [] {
      var t := Next(s, steps[0]);
      ClockRises(s, steps);
      assert steps[0] in steps;
      LiveLeaseStep(s, steps[0], e, row);
      NextKeepsInv(s, steps[0]);
      LiveLeaseIsNeverTakenOver(t, steps[1..], e, row);
    }
  }

  predicate Superseded(s: State, token: Token, e: EventId) {
    token in s.tokens && (e in s.rows ==> s.rows[e].claimToken != Some(token))
  }

  /** Once superseded, a relay's token never matches again, whatever it or anyone else still does. */
  lemma {:induction false} SupersededForever(s: State, steps: seq<Step>, token: Token, e: EventId)
    requires Superseded(s, token, e)
    ensures Superseded(Run(s, steps), token, e)
    decreases |steps|
  {
    if steps != [] {
      SupersededForever(Next(s, steps[0]), steps[1..], token, e);
    }
  }

  /** A relay whose token was superseded, and a worker or reconciler of an older generation, write nothing. */
  lemma StaleActorsWriteNothing(s: State, step: Step)
    requires Inv(s)
    requires
      || ((step.FinishEnqueue? || step.FailEnqueue?) && Superseded(s, step.token, step.event))
      || ((step.Expire? || step.Start? || step.Deliver? || step.Fail? || step.RecordFailure? || step.Stop?)
          && step.worker in s.workers && !s.workers[step.worker].Done?
          && s.workers[step.worker].event in s.rows
          && s.workers[step.worker].generation != s.rows[s.workers[step.worker].event].generation)
    ensures Next(s, step).rows == s.rows
  {
  }
}
