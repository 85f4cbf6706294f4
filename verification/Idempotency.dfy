/**
 * `runIdempotent`: durable replay records for operations with external side effects, owned through
 * leases. A state machine over the record table and any number of in-flight calls; retention and
 * account deletion act on the same table. Each step is one database statement or one step of a
 * call; a step whose guard fails changes nothing.
 *
 * A record is unique per (actor, scope, key hash), so the table is a map from that triple. Random
 * tokens and record ids are new. `answers` and `fingerprints` are history: what was ever stored under a
 * record id, kept after the row is deleted.
 */
module Idempotency {
  import opened Wrappers

  type Key = nat
  type Fingerprint = nat
  type Token = nat
  type RecordId = nat
  type CallId = nat
  type Time = int

  const LEASE: int := 120_000

  /** Status code and response body; encryption at rest is undone exactly by decryption. */
  datatype Answer = Answer(statusCode: int, response: nat)

  datatype Record = Record(
    id: RecordId,
    fingerprint: Fingerprint,
    answer: Option<Answer>,
    lockToken: Option<Token>,
    lockedUntil: Option<Time>,
    attempts: nat,
    expiresAt: Time)

  datatype Request = Request(key: Key, fingerprint: Fingerprint, token: Token, now: Time, ttl: nat)

  datatype Call =
    | Begun(request: Request)
    | ToDelete(request: Request, id: RecordId)
    | ToCreate(request: Request)
    | ToAcquire(request: Request, id: RecordId)
    | Running(request: Request, id: RecordId)
    | Saving(request: Request, id: RecordId, answer: Answer)
    | Releasing(request: Request, id: RecordId)
    | Fresh(request: Request, id: RecordId, answer: Answer)
    | Replayed(request: Request, id: RecordId, answer: Answer)
    | Refused(request: Request)

  datatype State = State(
    clock: Time,
    records: map<Key, Record>,
    calls: map<CallId, Call>,
    tokens: set<Token>,
    answers: map<RecordId, Answer>,
    fingerprints: map<RecordId, Fingerprint>)

  datatype Step =
    | Tick(elapsed: nat)
    | Begin(call: CallId, key: Key, fingerprint: Fingerprint, token: Token, ttl: nat)
    | Find(call: CallId)
    | DeleteExpired(call: CallId)
    | Create(call: CallId, id: RecordId)
    | Acquire(call: CallId)
    | FinishOperation(call: CallId, answer: Answer)
    | FailOperation(call: CallId)
    | Save(call: CallId, acknowledged: bool)
    | SaveFails(call: CallId)
    | Release(call: CallId)
    | Crash(call: CallId)
    | Retention(key: Key, at: Time)
    | EraseActor(keys: set<Key>)

  function Init(): State {
    State(0, map[], map[], {}, map[], map[])
  }

  predicate Expired(r: Record, at: Time) {
    r.answer.Some? && r.expiresAt <= at
  }

  predicate Names(s: State, key: Key, id: RecordId) {
    key in s.records && s.records[key].id == id
  }

  /** The decision taken on the row that `findFirst` returned. */
  function AfterFind(s: State, q: Request): Call {
    if q.key !in s.records then ToCreate(q)
    else
      var r := s.records[q.key];
      if Expired(r, q.now) then ToDelete(q, r.id)
      else if r.fingerprint != q.fingerprint then Refused(q)
      else if r.answer.Some? then Replayed(q, r.id, r.answer.value)
      else ToAcquire(q, r.id)
  }

  predicate MayAcquire(s: State, q: Request, id: RecordId) {
    && Names(s, q.key, id)
    && s.records[q.key].answer.None?
    && (s.records[q.key].lockedUntil.None? || s.records[q.key].lockedUntil.value <= q.now)
  }

  function Locked(r: Record, q: Request): Record {
    r.(lockToken := Some(q.token), lockedUntil := Some(q.now + LEASE),
       expiresAt := q.now + q.ttl, attempts := r.attempts + 1)
  }

  /** The guard `save` and `release` share. */
  predicate Owns(s: State, q: Request, id: RecordId) {
    Names(s, q.key, id) && s.records[q.key].lockToken == Some(q.token) && s.records[q.key].answer.None?
  }

  function Move(s: State, call: CallId, c: Call): State {
    s.(calls := s.calls[call := c])
  }

  function CreateStep(s: State, call: CallId, q: Request, id: RecordId): State {
    if q.key in s.records then
      Move(s, call, Refused(q))
    else if id in s.fingerprints then
      s
    else
      Move(s.(records := s.records[q.key := Locked(Record(id, q.fingerprint, None, None, None, 0, 0), q)],
              fingerprints := s.fingerprints[id := q.fingerprint]),
           call, Running(q, id))
  }

  function AcquireStep(s: State, call: CallId, q: Request, id: RecordId): State {
    if MayAcquire(s, q, id) then
      Move(s.(records := s.records[q.key := Locked(s.records[q.key], q)]), call, Running(q, id))
    else
      Move(s, call, Refused(q))
  }

  function SaveStep(s: State, call: CallId, q: Request, id: RecordId, answer: Answer, acknowledged: bool): State {
    if Owns(s, q, id) then
      Move(s.(records := s.records[q.key := s.records[q.key].(
                answer := Some(answer), lockToken := None, lockedUntil := None)],
              answers := s.answers[id := answer]),
           call, if acknowledged then Fresh(q, id, answer) else Releasing(q, id))
    else
      Move(s, call, Releasing(q, id))
  }

  function ReleaseStep(s: State, call: CallId, q: Request, id: RecordId): State {
    if Owns(s, q, id) then
      Move(s.(records := s.records[q.key := s.records[q.key].(lockToken := None, lockedUntil := Some(q.now))]),
           call, Refused(q))
    else
      Move(s, call, Refused(q))
  }

  function CallStep(s: State, step: Step): State
    requires step.Find? || step.DeleteExpired? || step.Create? || step.Acquire? || step.FinishOperation?
             || step.FailOperation? || step.Save? || step.SaveFails? || step.Release? || step.Crash?
  {
    if step.call !in s.calls then s
    else
      var c := s.calls[step.call];
      match step
      case Find(k) => if c.Begun? then Move(s, k, AfterFind(s, c.request)) else s
      case DeleteExpired(k) =>
        if !c.ToDelete? then s
        else if Names(s, c.request.key, c.id) && Expired(s.records[c.request.key], c.request.now) then
          Move(s.(records := s.records - {c.request.key}), k, ToCreate(c.request))
        else
          Move(s, k, ToCreate(c.request))
      case Create(k, id) => if c.ToCreate? then CreateStep(s, k, c.request, id) else s
      case Acquire(k) => if c.ToAcquire? then AcquireStep(s, k, c.request, c.id) else s
      case FinishOperation(k, answer) =>
        if c.Running? then Move(s, k, Saving(c.request, c.id, answer)) else s
      case FailOperation(k) => if c.Running? then Move(s, k, Releasing(c.request, c.id)) else s
      case Save(k, acknowledged) =>
        if c.Saving? then SaveStep(s, k, c.request, c.id, c.answer, acknowledged) else s
      case SaveFails(k) => if c.Saving? then Move(s, k, Releasing(c.request, c.id)) else s
      case Release(k) => if c.Releasing? then ReleaseStep(s, k, c.request, c.id) else s
      case Crash(k) => if c.Fresh? || c.Replayed? then s else Move(s, k, Refused(c.request))
  }

  function Next(s: State, step: Step): State {
    match step
    case Tick(elapsed) => s.(clock := s.clock + elapsed)
    case Begin(k, key, fingerprint, token, ttl) =>
      if k in s.calls || token in s.tokens then s
      else Move(s.(tokens := s.tokens + {token}), k, Begun(Request(key, fingerprint, token, s.clock, ttl)))
    case Retention(key, at) =>
      if at <= s.clock && key in s.records && s.records[key].answer.Some? && s.records[key].expiresAt < at then
        s.(records := s.records - {key})
      else s
    case EraseActor(keys) => s.(records := s.records - keys)
    case _ => CallStep(s, step)
  }

  function Run(s: State, steps: seq<Step>): State
    decreases |steps|
  {
    if steps == [] then s else Run(Next(s, steps[0]), steps[1..])
  }

  // ---------------------------------------------------------------------------------------------
  // The invariant
  // ---------------------------------------------------------------------------------------------

  ghost predicate RecordsAgree(s: State) {
    && (forall k :: k in s.records ==>
          var r := s.records[k];
          && r.id in s.fingerprints && s.fingerprints[r.id] == r.fingerprint
          && (r.answer.Some? ==> r.id in s.answers && s.answers[r.id] == r.answer.value)
          && (r.answer.None? ==> r.id !in s.answers)
          && (r.lockToken.Some? ==> r.lockToken.value in s.tokens))
    && (forall k, l :: k in s.records && l in s.records && s.records[k].id == s.records[l].id ==> k == l)
    && s.answers.Keys <= s.fingerprints.Keys
  }

  ghost predicate CallAgrees(s: State, c: Call) {
    && c.request.token in s.tokens
    && c.request.now <= s.clock
    && (c.ToDelete? ==> c.id in s.fingerprints)
    && (c.ToAcquire? || c.Running? || c.Saving? || c.Releasing? || c.Fresh? || c.Replayed? ==>
          c.id in s.fingerprints && s.fingerprints[c.id] == c.request.fingerprint)
    && (c.Fresh? || c.Replayed? ==> c.id in s.answers && s.answers[c.id] == c.answer)
  }

  ghost predicate CallsAgree(s: State) {
    && (forall k :: k in s.calls ==> CallAgrees(s, s.calls[k]))
    && (forall k, l :: k in s.calls && l in s.calls && s.calls[k].request.token == s.calls[l].request.token
          ==> k == l)
  }

  ghost predicate OneFresh(s: State) {
    forall k, l :: k in s.calls && l in s.calls && s.calls[k].Fresh? && s.calls[l].Fresh?
      && s.calls[k].id == s.calls[l].id
      ==> k == l
  }

  ghost predicate Inv(s: State) {
    RecordsAgree(s) && CallsAgree(s) && OneFresh(s)
  }

  lemma MoveKeepsInv(s: State, k: CallId, c: Call)
    requires Inv(s) && CallAgrees(s, c) && k in s.calls && c.request == s.calls[k].request
    requires c.Fresh? ==> forall l :: l in s.calls && s.calls[l].Fresh? ==> s.calls[l].id != c.id
    ensures Inv(Move(s, k, c))
  {
    var t := Move(s, k, c);
    forall l | l in t.calls
      ensures CallAgrees(t, t.calls[l])
    {
      assert l != k ==> CallAgrees(s, s.calls[l]);
    }
  }

  /** The table may change freely as long as history only grows and the rows agree with it. */
  lemma TableChangeKeepsInv(s: State, t: State)
    requires Inv(s) && RecordsAgree(t)
    requires t == s.(records := t.records, answers := t.answers, fingerprints := t.fingerprints)
    requires forall id :: id in s.answers ==> id in t.answers && t.answers[id] == s.answers[id]
    requires forall id :: id in s.fingerprints ==> id in t.fingerprints && t.fingerprints[id] == s.fingerprints[id]
    ensures Inv(t)
  {
    forall l | l in t.calls
      ensures CallAgrees(t, t.calls[l])
    {
      assert CallAgrees(s, s.calls[l]);
    }
  }

  lemma CreateKeepsInv(s: State, k: CallId, id: RecordId)
    requires Inv(s) && k in s.calls && s.calls[k].ToCreate?
    ensures Inv(Next(s, Create(k, id)))
  {
    var q := s.calls[k].request;
    assert CallAgrees(s, s.calls[k]);
    if q.key in s.records {
      MoveKeepsInv(s, k, Refused(q));
    } else if id !in s.fingerprints {
      var t := s.(records := s.records[q.key := Locked(Record(id, q.fingerprint, None, None, None, 0, 0), q)],
                  fingerprints := s.fingerprints[id := q.fingerprint]);
      TableChangeKeepsInv(s, t);
      MoveKeepsInv(t, k, Running(q, id));
    }
  }

  lemma AcquireKeepsInv(s: State, k: CallId)
    requires Inv(s) && k in s.calls && s.calls[k].ToAcquire?
    ensures Inv(Next(s, Acquire(k)))
  {
    var c := s.calls[k];
    assert CallAgrees(s, c);
    if MayAcquire(s, c.request, c.id) {
      var t := s.(records := s.records[c.request.key := Locked(s.records[c.request.key], c.request)]);
      TableChangeKeepsInv(s, t);
      MoveKeepsInv(t, k, Running(c.request, c.id));
    } else {
      MoveKeepsInv(s, k, Refused(c.request));
    }
  }

  lemma SaveKeepsInv(s: State, k: CallId, acknowledged: bool)
    requires Inv(s) && k in s.calls && s.calls[k].Saving?
    ensures Inv(Next(s, Save(k, acknowledged)))
  {
    var c := s.calls[k];
    assert CallAgrees(s, c);
    if Owns(s, c.request, c.id) {
      var r := s.records[c.request.key];
      assert c.id !in s.answers;
      forall l | l in s.calls && s.calls[l].Fresh?
        ensures s.calls[l].id != c.id
      {
        assert CallAgrees(s, s.calls[l]);
      }
      var t := s.(records := s.records[c.request.key := r.(
                    answer := Some(c.answer), lockToken := None, lockedUntil := None)],
                  answers := s.answers[c.id := c.answer]);
      TableChangeKeepsInv(s, t);
      MoveKeepsInv(t, k, if acknowledged then Fresh(c.request, c.id, c.answer) else Releasing(c.request, c.id));
    } else {
      MoveKeepsInv(s, k, Releasing(c.request, c.id));
    }
  }

  lemma ReleaseKeepsInv(s: State, k: CallId)
    requires Inv(s) && k in s.calls && s.calls[k].Releasing?
    ensures Inv(Next(s, Release(k)))
  {
    var c := s.calls[k];
    assert CallAgrees(s, c);
    if Owns(s, c.request, c.id) {
      var t := s.(records := s.records[c.request.key := s.records[c.request.key].(
                    lockToken := None, lockedUntil := Some(c.request.now))]);
      TableChangeKeepsInv(s, t);
      MoveKeepsInv(t, k, Refused(c.request));
    } else {
      MoveKeepsInv(s, k, Refused(c.request));
    }
  }

  lemma DeleteKeepsInv(s: State, k: CallId)
    requires Inv(s) && k in s.calls && s.calls[k].ToDelete?
    ensures Inv(Next(s, DeleteExpired(k)))
  {
    var c := s.calls[k];
    assert CallAgrees(s, c);
    if Names(s, c.request.key, c.id) && Expired(s.records[c.request.key], c.request.now) {
      var t := s.(records := s.records - {c.request.key});
      TableChangeKeepsInv(s, t);
      MoveKeepsInv(t, k, ToCreate(c.request));
    } else {
      MoveKeepsInv(s, k, ToCreate(c.request));
    }
  }

  lemma BeginKeepsInv(s: State, k: CallId, key: Key, fingerprint: Fingerprint, token: Token, ttl: nat)
    requires Inv(s)
    ensures Inv(Next(s, Begin(k, key, fingerprint, token, ttl)))
  {
    var t := Next(s, Begin(k, key, fingerprint, token, ttl));
    forall l | l in t.calls
      ensures CallAgrees(t, t.calls[l])
    {
      assert l in s.calls ==> CallAgrees(s, s.calls[l]);
    }
  }

  /** The steps of a call that write nothing to the table. */
  lemma PlainStepKeepsInv(s: State, step: Step)
    requires Inv(s)
    requires step.Find? || step.FinishOperation? || step.FailOperation? || step.SaveFails? || step.Crash?
    requires step.call in s.calls
    ensures Inv(Next(s, step))
  {
    assert CallAgrees(s, s.calls[step.call]);
    var t := Next(s, step);
    if t != s {
      MoveKeepsInv(s, step.call, t.calls[step.call]);
    }
  }

  lemma TickKeepsInv(s: State, elapsed: nat)
    requires Inv(s)
    ensures Inv(Next(s, Tick(elapsed)))
  {
    assert forall k :: k in s.calls ==> CallAgrees(s, s.calls[k]);
  }

  lemma CallStepKeepsInv(s: State, step: Step)
    requires Inv(s)
    requires step.Find? || step.DeleteExpired? || step.Create? || step.Acquire? || step.FinishOperation?
             || step.FailOperation? || step.Save? || step.SaveFails? || step.Release? || step.Crash?
    requires step.call in s.calls
    ensures Inv(Next(s, step))
  {
    var c := s.calls[step.call];
    match step
    case DeleteExpired(k) => if c.ToDelete? { DeleteKeepsInv(s, k); }
    case Create(k, id) => if c.ToCreate? { CreateKeepsInv(s, k, id); }
    case Acquire(k) => if c.ToAcquire? { AcquireKeepsInv(s, k); }
    case Save(k, acknowledged) => if c.Saving? { SaveKeepsInv(s, k, acknowledged); }
    case Release(k) => if c.Releasing? { ReleaseKeepsInv(s, k); }
    case _ => PlainStepKeepsInv(s, step);
  }

  lemma NextKeepsInv(s: State, step: Step)
    requires Inv(s)
    ensures Inv(Next(s, step))
  {
    match step
    case Tick(elapsed) => TickKeepsInv(s, elapsed);
    case Begin(k, key, fingerprint, token, ttl) => BeginKeepsInv(s, k, key, fingerprint, token, ttl);
    case Retention(_, _) => TableChangeKeepsInv(s, Next(s, step));
    case EraseActor(_) => TableChangeKeepsInv(s, Next(s, step));
    case _ =>
      if step.call in s.calls {
        CallStepKeepsInv(s, step);
      }
  }

  lemma {:induction false} RunKeepsInv(s: State, steps: seq<Step>)
    requires Inv(s)
    ensures Inv(Run(s, steps))
    decreases |steps|
  {
    if steps != [] {
      NextKeepsInv(s, steps[0]);
      RunKeepsInv(Next(s, steps[0]), steps[1..]);
    }
  }

  // ---------------------------------------------------------------------------------------------
  // One execution, faithful replays
  // ---------------------------------------------------------------------------------------------

  /** For each record at most one call returns `replayed: false`, whatever leases were taken over. */
  lemma AtMostOneFreshAnswer(steps: seq<Step>, k: CallId, l: CallId)
    requires var s := Run(Init(), steps);
      k in s.calls && l in s.calls && s.calls[k].Fresh? && s.calls[l].Fresh? && s.calls[k].id == s.calls[l].id
    ensures k == l
  {
    RunKeepsInv(Init(), steps);
  }

  /** Every answer handed out for a record, first or replayed, is the same, for the same request. */
  lemma ReplaysAreExact(steps: seq<Step>, k: CallId, l: CallId)
    requires var s := Run(Init(), steps);
      && k in s.calls && l in s.calls
      && (s.calls[k].Fresh? || s.calls[k].Replayed?) && (s.calls[l].Fresh? || s.calls[l].Replayed?)
      && s.calls[k].id == s.calls[l].id
    ensures var s := Run(Init(), steps);
      && s.calls[k].answer == s.calls[l].answer
      && s.calls[k].request.fingerprint == s.calls[l].request.fingerprint
  {
    RunKeepsInv(Init(), steps);
    var s := Run(Init(), steps);
    assert CallAgrees(s, s.calls[k]) && CallAgrees(s, s.calls[l]);
  }

  // ---------------------------------------------------------------------------------------------
  // Mutual exclusion under the lease
  // ---------------------------------------------------------------------------------------------

  predicate RunsOn(s: State, k: CallId, key: Key) {
    k in s.calls && s.calls[k].Running? && s.calls[k].request.key == key
  }

  predicate Erases(step: Step, key: Key) {
    step.EraseActor? && key in step.keys
  }

  /** Every operation still executing on the key is within the lease its call computed when it began. */
  ghost predicate Timely(s: State, key: Key) {
    forall k :: RunsOn(s, k, key) ==> s.clock < s.calls[k].request.now + LEASE
  }

  /** A run that is timely for this key and does not erase its record; other keys may do as they like. */
  ghost predicate TimelyRun(s: State, steps: seq<Step>, key: Key)
    decreases |steps|
  {
    && Timely(s, key)
    && (steps != [] ==> !Erases(steps[0], key) && TimelyRun(Next(s, steps[0]), steps[1..], key))
  }

  ghost predicate RunnerHoldsLease(s: State, c: Call)
    requires c.Running?
  {
    Owns(s, c.request, c.id) && s.records[c.request.key].lockedUntil == Some(c.request.now + LEASE)
  }

  ghost predicate RunnersHoldTheirLease(s: State, key: Key) {
    forall k :: RunsOn(s, k, key) ==> RunnerHoldsLease(s, s.calls[k])
  }

  /** A lease in force refuses every other call's write to its record. */
  lemma LeaseSurvives(s: State, step: Step, k: CallId)
    requires Inv(s) && k in s.calls && s.calls[k].Running? && RunnerHoldsLease(s, s.calls[k])
    requires s.clock < s.calls[k].request.now + LEASE
    requires !Erases(step, s.calls[k].request.key)
    ensures k in Next(s, step).calls
    ensures Next(s, step).calls[k].Running? ==>
              Next(s, step).calls[k] == s.calls[k] && RunnerHoldsLease(Next(s, step), s.calls[k])
  {
    hide RecordsAgree, OneFresh;
    if HasCall(step) && step.call in s.calls {
      var c := s.calls[step.call];
      assert CallAgrees(s, c);
      if step.call != k && step.Acquire? && c.ToAcquire? {
        assert !(MayAcquire(s, c.request, c.id) && c.request.key == s.calls[k].request.key);
      }
    }
  }

  /** The steps taken by a call that has begun. */
  predicate HasCall(step: Step) {
    !step.Tick? && !step.Begin? && !step.Retention? && !step.EraseActor?
  }

  predicate Starts(s: State, step: Step, k: CallId) {
    k in Next(s, step).calls && Next(s, step).calls[k].Running? && !(k in s.calls && s.calls[k].Running?)
  }

  /** An operation starts on the record its key names, under a full lease. */
  lemma RunnerStartsWithLease(s: State, step: Step, k: CallId)
    requires Starts(s, step, k)
    ensures RunnerHoldsLease(Next(s, step), Next(s, step).calls[k])
  {
    assert step.Create? || step.Acquire?;
  }

  lemma TimelyStepKeepsLeases(s: State, step: Step, key: Key)
    requires Inv(s) && Timely(s, key) && RunnersHoldTheirLease(s, key) && !Erases(step, key)
    ensures RunnersHoldTheirLease(Next(s, step), key)
  {
    hide Next;
    var t := Next(s, step);
    forall k | RunsOn(t, k, key)
      ensures RunnerHoldsLease(t, t.calls[k])
    {
      if k in s.calls && s.calls[k].Running? {
        RequestStays(s, step, k);
        LeaseSurvives(s, step, k);
      } else {
        RunnerStartsWithLease(s, step, k);
      }
    }
  }

  /** No two calls with this key execute their operation at the same time. */
  lemma {:induction false} TimelyRunsExclude(s: State, steps: seq<Step>, key: Key, k: CallId, l: CallId)
    requires Inv(s) && RunnersHoldTheirLease(s, key) && TimelyRun(s, steps, key)
    requires RunsOn(Run(s, steps), k, key) && RunsOn(Run(s, steps), l, key)
    ensures k == l
    decreases |steps|
  {
    if steps != [] {
      NextKeepsInv(s, steps[0]);
      TimelyStepKeepsLeases(s, steps[0], key);
      TimelyRunsExclude(Next(s, steps[0]), steps[1..], key, k, l);
    } else {
      assert RunnerHoldsLease(s, s.calls[k]) && RunnerHoldsLease(s, s.calls[l]);
    }
  }

  // ---------------------------------------------------------------------------------------------
  // A key is never reused for a different request
  // ---------------------------------------------------------------------------------------------

  /** The record still guards its key: its answer is missing, or has not expired yet. */
  predicate Guards(s: State, key: Key) {
    key in s.records && !Expired(s.records[key], s.clock)
  }

  /** A guarding record outlives every step but its account's deletion, fingerprint included. */
  lemma GuardedRecordStays(s: State, step: Step, key: Key)
    requires Inv(s) && Guards(s, key) && !Erases(step, key)
    ensures key in Next(s, step).records
    ensures Next(s, step).records[key].id == s.records[key].id
    ensures Next(s, step).records[key].fingerprint == s.records[key].fingerprint
  {
    if HasCall(step) && step.call in s.calls {
      assert CallAgrees(s, s.calls[step.call]);
    }
  }

  ghost predicate GuardedRun(s: State, steps: seq<Step>, key: Key)
    decreases |steps|
  {
    && Guards(s, key)
    && (steps != [] ==> !Erases(steps[0], key) && GuardedRun(Next(s, steps[0]), steps[1..], key))
  }

  lemma StartsOnTheRecord(s: State, step: Step, key: Key, k: CallId)
    requires Inv(s) && RunsOn(Next(s, step), k, key) && !RunsOn(s, k, key)
    ensures Names(Next(s, step), key, Next(s, step).calls[k].id)
    ensures Next(s, step).calls[k].request.fingerprint == Next(s, step).records[key].fingerprint
  {
    NextKeepsInv(s, step);
    var t := Next(s, step);
    if k in s.calls && s.calls[k].Running? {
      RequestStays(s, step, k);
    } else {
      RunnerStartsWithLease(s, step, k);
      hide Next;
      assert CallAgrees(t, t.calls[k]);
    }
  }

  /**
   * While a record is unexpired or incomplete, every call that starts its operation on that key
   * carries the record's fingerprint: across failures, takeovers and retention cleanup.
   */
  lemma {:induction false} OnlySameRequestRuns(s: State, steps: seq<Step>, key: Key, k: CallId)
    requires Inv(s) && GuardedRun(s, steps, key)
    requires RunsOn(Run(s, steps), k, key) && !RunsOn(s, k, key)
    ensures Run(s, steps).calls[k].request.fingerprint == s.records[key].fingerprint
    decreases |steps|
  {
    hide Next;
    if steps != [] {
      var t := Next(s, steps[0]);
      NextKeepsInv(s, steps[0]);
      GuardedRecordStays(s, steps[0], key);
      if RunsOn(t, k, key) {
        RunningKeepsRequest(t, steps[1..], k);
        StartsOnTheRecord(s, steps[0], key, k);
      } else {
        OnlySameRequestRuns(t, steps[1..], key, k);
      }
    }
  }

  lemma RequestStays(s: State, step: Step, k: CallId)
    requires k in s.calls
    ensures k in Next(s, step).calls && Next(s, step).calls[k].request == s.calls[k].request
  {
  }

  lemma {:induction false} RunningKeepsRequest(s: State, steps: seq<Step>, k: CallId)
    requires k in s.calls
    ensures k in Run(s, steps).calls && Run(s, steps).calls[k].request == s.calls[k].request
    decreases |steps|
  {
    hide Next;
    if steps != [] {
      RequestStays(s, steps[0], k);
      RunningKeepsRequest(Next(s, steps[0]), steps[1..], k);
    }
  }

  // ---------------------------------------------------------------------------------------------
  // Where exclusion ends
  // ---------------------------------------------------------------------------------------------

  /** Time stands still, the key is not erased, and call `k` does nothing. */
  predicate Leaves(step: Step, k: CallId, key: Key) {
    !step.Tick? && !Erases(step, key) && (HasCall(step) ==> step.call != k)
  }

  predicate AllLeave(steps: seq<Step>, k: CallId, key: Key) {
    forall i :: 0 <= i < |steps| ==> Leaves(steps[i], k, key)
  }

  /** While `k` executes and no time passes, some call that is not executing can come to execute as well. */
  ghost predicate CanBeJoined(s: State, k: CallId, key: Key) {
    exists steps, l :: JoinedBy(s, k, key, steps, l)
  }

  ghost predicate JoinedBy(s: State, k: CallId, key: Key, steps: seq<Step>, l: CallId) {
    && AllLeave(steps, k, key) && l != k && !RunsOn(s, l, key)
    && RunsOn(Run(s, steps), l, key) && RunsOn(Run(s, steps), k, key)
  }

  predicate LockEnded(s: State, r: Record) {
    r.lockedUntil.None? || r.lockedUntil.value <= s.clock
  }

  /** The call owns the record at its key and can give it up without time passing: by failing, wherever it is. */
  predicate MayYield(s: State, c: Call) {
    (c.Running? || c.Saving? || c.Releasing?) && Owns(s, c.request, c.id)
  }

  /**
   * The record keeps others out: it has an unexpired answer, or a lock in force that no other call
   * than `k` is still running, saving or releasing under.
   */
  ghost predicate Shielded(s: State, k: CallId, key: Key) {
    && key in s.records
    && var r := s.records[key];
    && (r.answer.Some? ==> r.expiresAt > s.clock)
    && (r.answer.None? ==>
          && !LockEnded(s, r)
          && forall l :: l in s.calls && l != k && s.calls[l].request.key == key ==> !MayYield(s, s.calls[l]))
  }

  lemma ShieldStays(s: State, step: Step, k: CallId, key: Key)
    requires Inv(s) && Shielded(s, k, key) && Leaves(step, k, key)
    ensures Shielded(Next(s, step), k, key)
  {
    if HasCall(step) {
      CallStepKeepsShield(s, step, k, key);
    } else {
      assert forall l :: l in s.calls ==> CallAgrees(s, s.calls[l]);
    }
  }

  /** A step of any call but `k` leaves a shielded record alone. */
  lemma ShieldedRecordStays(s: State, step: Step, k: CallId, key: Key)
    requires Inv(s) && Shielded(s, k, key) && Leaves(step, k, key) && HasCall(step) && step.call in s.calls
    ensures var t := Next(s, step);
      key in t.records && t.clock == s.clock && t.records[key] == s.records[key]
  {
    assert CallAgrees(s, s.calls[step.call]);
  }

  lemma CallStepKeepsShield(s: State, step: Step, k: CallId, key: Key)
    requires Inv(s) && Shielded(s, k, key) && Leaves(step, k, key) && HasCall(step)
    ensures Shielded(Next(s, step), k, key)
  {
    if step.call in s.calls {
      ShieldedRecordStays(s, step, k, key);
      var t := Next(s, step);
      if t.records[key].answer.None? {
        forall l | l in t.calls && l != k && t.calls[l].request.key == key
          ensures !MayYield(t, t.calls[l])
        {
          if MayYield(t, t.calls[l]) {
            YieldersWereYielders(s, step, l, key);
          }
        }
      }
    }
  }

  lemma YieldersWereYielders(s: State, step: Step, l: CallId, key: Key)
    requires HasCall(step) && step.call in s.calls && l in Next(s, step).calls
    requires key in s.records && key in Next(s, step).records && Next(s, step).records[key] == s.records[key]
    requires !LockEnded(s, s.records[key]) && Inv(s)
    requires Next(s, step).calls[l].request.key == key && MayYield(Next(s, step), Next(s, step).calls[l])
    ensures l in s.calls && s.calls[l].request.key == key && MayYield(s, s.calls[l])
  {
    hide RecordsAgree, OneFresh;
    assert CallAgrees(s, s.calls[step.call]);
  }

  /** Nobody starts behind a shield. */
  lemma ShieldKeepsOut(s: State, step: Step, k: CallId, key: Key, l: CallId)
    requires Inv(s) && Shielded(s, k, key) && RunsOn(Next(s, step), l, key)
    ensures RunsOn(s, l, key)
  {
    hide RecordsAgree, OneFresh, MayYield;
    if HasCall(step) && step.call in s.calls {
      assert CallAgrees(s, s.calls[step.call]);
    }
  }

  lemma {:induction false} ShieldHolds(s: State, steps: seq<Step>, k: CallId, key: Key, l: CallId)
    requires Inv(s) && Shielded(s, k, key) && AllLeave(steps, k, key) && RunsOn(Run(s, steps), l, key)
    ensures RunsOn(s, l, key)
    decreases |steps|
  {
    if steps != [] {
      hide Next, Inv, Shielded, RunsOn, Leaves;
      assert Leaves(steps[0], k, key);
      LaterLeave(steps, k, key);
      NextKeepsInv(s, steps[0]);
      ShieldStays(s, steps[0], k, key);
      ShieldHolds(Next(s, steps[0]), steps[1..], k, key, l);
      ShieldKeepsOut(s, steps[0], k, key, l);
    }
  }

  lemma StepLeavesRunner(s: State, step: Step, k: CallId, key: Key)
    requires RunsOn(s, k, key) && Leaves(step, k, key)
    ensures RunsOn(Next(s, step), k, key)
  {
  }

  /** Left alone, the runner keeps executing. */
  lemma {:induction false} RunnerKeepsRunning(s: State, steps: seq<Step>, k: CallId, key: Key)
    requires RunsOn(s, k, key) && AllLeave(steps, k, key)
    ensures RunsOn(Run(s, steps), k, key)
    decreases |steps|
  {
    if steps != [] {
      hide Next, RunsOn, Leaves;
      assert Leaves(steps[0], k, key);
      LaterLeave(steps, k, key);
      StepLeavesRunner(s, steps[0], k, key);
      RunnerKeepsRunning(Next(s, steps[0]), steps[1..], k, key);
    }
  }

  lemma LaterLeave(steps: seq<Step>, k: CallId, key: Key)
    requires steps != [] && AllLeave(steps, k, key)
    ensures AllLeave(steps[1..], k, key)
  {
    hide Leaves;
    forall i | 0 <= i < |steps[1..]|
      ensures Leaves(steps[1..][i], k, key)
    {
      assert steps[1..][i] == steps[i + 1];
    }
  }

  lemma {:induction false} Ceiling(s: set<nat>) returns (n: nat)
    ensures forall x :: x in s ==> x < n
    decreases |s|
  {
    if s == {} {
      n := 0;
    } else {
      var x :| x in s;
      var m := Ceiling(s - {x});
      n := if m <= x then x + 1 else m;
      forall y | y in s
        ensures y < n
      {
        assert y == x || y in s - {x};
      }
    }
  }

  /** Identifiers nobody has used yet: a call, a token, a record. */
  lemma Unused(s: State) returns (l: CallId, token: Token, id: RecordId)
    ensures l !in s.calls && token !in s.tokens && id !in s.fingerprints
  {
    l := Ceiling(s.calls.Keys);
    token := Ceiling(s.tokens);
    id := Ceiling(s.fingerprints.Keys);
  }

  /** With the record gone, a new request creates its own and runs. */
  lemma JoinWhenGone(s: State, key: Key, fingerprint: Fingerprint, l: CallId, token: Token, id: RecordId)
    requires key !in s.records && l !in s.calls && token !in s.tokens && id !in s.fingerprints
    ensures RunsOn(Run(s, [Begin(l, key, fingerprint, token, 0), Find(l), Create(l, id)]), l, key)
  {
    RunThree(s, Begin(l, key, fingerprint, token, 0), Find(l), Create(l, id));
  }

  /** With the lock ended, a repeated request takes the lease over and runs. */
  lemma JoinWhenUnlocked(s: State, key: Key, l: CallId, token: Token)
    requires key in s.records && s.records[key].answer.None? && LockEnded(s, s.records[key])
    requires l !in s.calls && token !in s.tokens
    ensures RunsOn(Run(s, [Begin(l, key, s.records[key].fingerprint, token, 0), Find(l), Acquire(l)]), l, key)
  {
    RunThree(s, Begin(l, key, s.records[key].fingerprint, token, 0), Find(l), Acquire(l));
  }

  /** An answer that has expired is deleted by the next request, which then runs. */
  lemma JoinWhenExpired(s: State, key: Key, l: CallId, token: Token, id: RecordId)
    requires key in s.records && Expired(s.records[key], s.clock)
    requires l !in s.calls && token !in s.tokens && id !in s.fingerprints
    ensures RunsOn(Run(s, [Begin(l, key, 0, token, 0), Find(l), DeleteExpired(l), Create(l, id)]), l, key)
  {
    var t := Run(s, [Begin(l, key, 0, token, 0), Find(l), DeleteExpired(l)]);
    RunThree(s, Begin(l, key, 0, token, 0), Find(l), DeleteExpired(l));
    assert [Begin(l, key, 0, token, 0), Find(l), DeleteExpired(l), Create(l, id)]
        == [Begin(l, key, 0, token, 0), Find(l), DeleteExpired(l)] + [Create(l, id)];
    RunConcat(s, [Begin(l, key, 0, token, 0), Find(l), DeleteExpired(l)], [Create(l, id)]);
    RunOne(t, Create(l, id));
  }

  lemma {:induction false} RunConcat(s: State, a: seq<Step>, b: seq<Step>)
    ensures Run(s, a + b) == Run(Run(s, a), b)
    decreases |a|
  {
    hide Next;
    if a == [] {
      assert a + b == b;
    } else {
      assert (a + b)[1..] == a[1..] + b;
      RunConcat(Next(s, a[0]), a[1..], b);
    }
  }

  lemma RunOne(s: State, step: Step)
    ensures Run(s, [step]) == Next(s, step)
  {
    assert [step][1..] == [];
  }

  /** No shield and nobody who must first let go: a new call joins. */
  lemma JoinUnshielded(s: State, k: CallId, key: Key) returns (steps: seq<Step>, l: CallId)
    requires k in s.calls
    requires key in s.records && s.records[key].answer.None? ==> LockEnded(s, s.records[key])
    requires key in s.records && s.records[key].answer.Some? ==> s.records[key].expiresAt <= s.clock
    ensures AllLeave(steps, k, key) && l !in s.calls && RunsOn(Run(s, steps), l, key)
  {
    var token: Token, id: RecordId;
    l, token, id := Unused(s);
    hide Next, Run;
    if key !in s.records {
      JoinWhenGone(s, key, 0, l, token, id);
      steps := [Begin(l, key, 0, token, 0), Find(l), Create(l, id)];
    } else if s.records[key].answer.None? {
      JoinWhenUnlocked(s, key, l, token);
      steps := [Begin(l, key, s.records[key].fingerprint, token, 0), Find(l), Acquire(l)];
    } else {
      JoinWhenExpired(s, key, l, token, id);
      steps := [Begin(l, key, 0, token, 0), Find(l), DeleteExpired(l), Create(l, id)];
    }
  }

  /** An owner that can give the record up does so in at most two steps. */
  lemma Yield(s: State, k: CallId, key: Key, y: CallId) returns (steps: seq<Step>)
    requires Inv(s) && y in s.calls && y != k && s.calls[y].request.key == key && MayYield(s, s.calls[y])
    ensures AllLeave(steps, k, key) && s.calls.Keys == Run(s, steps).calls.Keys && Run(s, steps).clock == s.clock
    ensures var t := Run(s, steps);
      key in t.records && t.records[key].answer.None? && LockEnded(t, t.records[key])
  {
    assert CallAgrees(s, s.calls[y]);
    if s.calls[y].Releasing? {
      steps := [Release(y)];
      RunOne(s, Release(y));
    } else {
      var fails := if s.calls[y].Saving? then SaveFails(y) else FailOperation(y);
      steps := [fails, Release(y)];
      assert [fails, Release(y)][1..] == [Release(y)];
      RunOne(Next(s, fails), Release(y));
    }
  }

  lemma JoinAfterYield(s: State, k: CallId, key: Key, y: CallId)
    requires Inv(s) && RunsOn(s, k, key)
    requires y in s.calls && y != k && s.calls[y].request.key == key && MayYield(s, s.calls[y])
    ensures CanBeJoined(s, k, key)
  {
    var first := Yield(s, k, key, y);
    var t := Run(s, first);
    hide Next, Run, Inv;
    var later, l := JoinUnshielded(t, k, key);
    RunConcat(s, first, later);
    RunnerKeepsRunning(s, first + later, k, key);
    assert JoinedBy(s, k, key, first + later, l);
  }

  /**
   * When exclusion ends, for every reachable state and key: while `k` executes, a further call can come
   * to execute without time passing, erasure, or a step of `k`, if and only if the record does not
   * shield the key: it is gone, its answer has expired, its lock has ended, or its lock belongs to yet
   * another call that is running, saving or releasing.
   */
  lemma JoinedExactlyWhenUnshielded(s: State, k: CallId, key: Key)
    requires Inv(s) && RunsOn(s, k, key)
    ensures CanBeJoined(s, k, key) <==> !Shielded(s, k, key)
  {
    if CanBeJoined(s, k, key) {
      var steps, l :| JoinedBy(s, k, key, steps, l);
      if Shielded(s, k, key) {
        ShieldHolds(s, steps, k, key, l);
      }
    }
    if !Shielded(s, k, key) {
      if y :| y in s.calls && y != k && s.calls[y].request.key == key && MayYield(s, s.calls[y]) {
        JoinAfterYield(s, k, key, y);
      } else {
        var steps, l := JoinUnshielded(s, k, key);
        RunnerKeepsRunning(s, steps, k, key);
        assert JoinedBy(s, k, key, steps, l);
      }
    }
  }

  /**
   * For a runner nobody has taken over from, the two guards of the code decide: it can be joined if
   * and only if its record is gone or its own lock has ended.
   */
  lemma OwnersAreJoinedExactly(s: State, k: CallId, key: Key)
    requires Inv(s) && RunsOn(s, k, key)
    requires key in s.records ==> Owns(s, s.calls[k].request, s.calls[k].id)
    ensures CanBeJoined(s, k, key) <==> key !in s.records || LockEnded(s, s.records[key])
  {
    JoinedExactlyWhenUnshielded(s, k, key);
    if key in s.records {
      forall l | l in s.calls && l != k && s.calls[l].request.key == key
        ensures !MayYield(s, s.calls[l])
      {
        assert s.calls[l].request.token != s.calls[k].request.token;
      }
    }
  }

  /** The first request on key 7, executing under record 0. */
  function FirstRunner(): State {
    var q := Request(7, 0, 0, 0, 0);
    State(0, map[7 := Locked(Record(0, 0, None, None, None, 0, 0), q)],
          map[0 := Running(q, 0)], {0}, map[], map[0 := 0])
  }

  lemma FirstRunnerIsReachable()
    ensures Run(Init(), [Begin(0, 7, 0, 0, 0), Find(0), Create(0, 0)]) == FirstRunner()
    ensures Inv(FirstRunner()) && RunnersHoldTheirLease(FirstRunner(), 7) && RunsOn(FirstRunner(), 0, 7)
  {
    RunThree(Init(), Begin(0, 7, 0, 0, 0), Find(0), Create(0, 0));
    RunKeepsInv(Init(), [Begin(0, 7, 0, 0, 0), Find(0), Create(0, 0)]);
  }

  lemma RunThree(s: State, a: Step, b: Step, c: Step)
    ensures Run(s, [a, b, c]) == Next(Next(Next(s, a), b), c)
  {
    assert [a, b, c][1..] == [b, c] && [b, c][1..] == [c] && [c][1..] == [];
    assert Run(Next(s, a), [b, c]) == Run(Next(Next(s, a), b), [c]);
  }

  /** Account deletion removes records that are still in use: two calls may then run on one key. */
  lemma ErasureBreaksExclusion()
    ensures CanBeJoined(Next(FirstRunner(), EraseActor({7})), 0, 7) && Timely(Next(FirstRunner(), EraseActor({7})), 7)
  {
    FirstRunnerIsReachable();
    NextKeepsInv(FirstRunner(), EraseActor({7}));
    OwnersAreJoinedExactly(Next(FirstRunner(), EraseActor({7})), 0, 7);
  }

  /** The moment its lease runs out, and not a moment before, an unfinished operation may be joined. */
  lemma OverrunBreaksExclusion(elapsed: nat)
    ensures CanBeJoined(Next(FirstRunner(), Tick(elapsed)), 0, 7) <==> elapsed >= LEASE
  {
    FirstRunnerIsReachable();
    NextKeepsInv(FirstRunner(), Tick(elapsed));
    OwnersAreJoinedExactly(Next(FirstRunner(), Tick(elapsed)), 0, 7);
  }
}
