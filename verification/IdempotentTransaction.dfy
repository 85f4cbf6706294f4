/**
 * `runIdempotentTransaction`: a database mutation and its replay record in one serializable
 * transaction, retried a bounded number of times. The store holds the committed rows; a transaction
 * either commits all its statements or restores them all, and other transactions commit in between.
 */
module IdempotentTransaction {
  import opened Wrappers
  import opened Idempotency

  /** A committed business mutation: which call made it, under which replay record. */
  datatype Write = Write(caller: CallId, record: RecordId)

  datatype Failure =
    | DifferentRequest | InProgress | OperationFailed | UniqueViolation | SerializationFailure | ConnectionLost
    | BudgetExhausted

  datatype Reply = Reply(answer: Answer, replayed: bool)

  /**
   * How the database treats one attempt. A connection may be lost before the commit or with its
   * acknowledgement, which the caller cannot tell apart; the lookup of a winner may fail as well.
   */
  datatype Luck = Serializes | AbortsUnique(lookupFails: bool) | AbortsSerialization | LosesConnection(committed: bool)

  function WritesBy(writes: seq<Write>, caller: CallId): nat {
    if writes == [] then 0
    else WritesBy(writes[..|writes| - 1], caller) + if writes[|writes| - 1].caller == caller then 1 else 0
  }

  function WritesUnder(writes: seq<Write>, id: RecordId): nat {
    if writes == [] then 0
    else WritesUnder(writes[..|writes| - 1], id) + if writes[|writes| - 1].record == id then 1 else 0
  }

  lemma Appended(writes: seq<Write>, w: Write, caller: CallId, id: RecordId)
    ensures WritesBy(writes + [w], caller) == WritesBy(writes, caller) + if w.caller == caller then 1 else 0
    ensures WritesUnder(writes + [w], id) == WritesUnder(writes, id) + if w.record == id then 1 else 0
  {
    assert (writes + [w])[..|writes|] == writes;
  }

  lemma {:induction false} NoWriteUnderNewId(writes: seq<Write>, id: RecordId)
    requires forall w :: w in writes ==> w.record < id
    ensures WritesUnder(writes, id) == 0
  {
    if writes != [] {
      assert forall w :: w in writes[..|writes| - 1] ==> w in writes;
      NoWriteUnderNewId(writes[..|writes| - 1], id);
    }
  }

  ghost predicate Consistent(records: map<Key, Record>, writes: seq<Write>, nextId: RecordId) {
    && (forall k :: k in records ==> records[k].id < nextId)
    && (forall w :: w in writes ==> w.record < nextId)
    && (forall id :: WritesUnder(writes, id) <= 1)
    && (forall k :: k in records && records[k].answer.None? ==> WritesUnder(writes, records[k].id) == 0)
  }

  /** The committed tables as one statement of a call finds them. */
  datatype Tables = Tables(records: map<Key, Record>, writes: seq<Write>, nextId: RecordId)

  ghost predicate Found(t: Tables, me: CallId) {
    Consistent(t.records, t.writes, t.nextId) && WritesBy(t.writes, me) == 0
  }

  /** The record an attempt finds, unless it has expired and gives way. */
  function Standing(t: Tables, q: Request): Option<Record> {
    if q.key in t.records && !Expired(t.records[q.key], q.now) then Some(t.records[q.key]) else None
  }

  /** A committed attempt: an expired record gives way, one record and one business write are added. */
  function AfterCommit(t: Tables, me: CallId, q: Request, answer: Answer): Tables {
    Tables(t.records[q.key := Record(t.nextId, q.fingerprint, Some(answer), None, None, 1, q.now + q.ttl)],
           t.writes + [Write(me, t.nextId)],
           t.nextId + 1)
  }

  lemma CommitKeepsConsistent(t: Tables, me: CallId, q: Request, answer: Answer)
    requires Consistent(t.records, t.writes, t.nextId)
    ensures var after := AfterCommit(t, me, q, answer); Consistent(after.records, after.writes, after.nextId)
  {
    NoWriteUnderNewId(t.writes, t.nextId);
    forall other
      ensures WritesUnder(t.writes + [Write(me, t.nextId)], other)
              == WritesUnder(t.writes, other) + if other == t.nextId then 1 else 0
    {
      Appended(t.writes, Write(me, t.nextId), me, other);
    }
  }

  // ---------------------------------------------------------------------------------------------
  // The others
  // ---------------------------------------------------------------------------------------------

  /**
   * What other callers and the maintenance of the table commit: transactions of this kind, replay
   * records taken out and answered by operations with external effects, and deletions of records that
   * expired or whose actor was erased.
   */
  datatype Commit =
    | Transaction(caller: CallId, request: Request, answer: Answer)
    | TakeLease(request: Request)
    | SaveAnswer(key: Key, answer: Answer)
    | DeleteRecords(keys: set<Key>)

  function Committing(t: Tables, c: Commit): Tables {
    match c
    case Transaction(caller, q, answer) => if Standing(t, q).Some? then t else AfterCommit(t, caller, q, answer)
    case TakeLease(q) =>
      if q.key in t.records then t
      else t.(records := t.records[q.key := Locked(Record(t.nextId, q.fingerprint, None, None, None, 0, 0), q)],
              nextId := t.nextId + 1)
    case SaveAnswer(key, answer) =>
      if key in t.records && t.records[key].answer.None? then
        t.(records := t.records[key := t.records[key].(answer := Some(answer), lockToken := None)])
      else t
    case DeleteRecords(keys) => t.(records := t.records - keys)
  }

  function CommittingAll(t: Tables, commits: seq<Commit>): Tables
    decreases |commits|
  {
    if commits == [] then t else CommittingAll(Committing(t, commits[0]), commits[1..])
  }

  predicate NotBy(commits: seq<Commit>, me: CallId) {
    forall i :: 0 <= i < |commits| && commits[i].Transaction? ==> commits[i].caller != me
  }

  lemma OneCommitIsFound(t: Tables, c: Commit, me: CallId)
    requires Found(t, me) && (c.Transaction? ==> c.caller != me)
    ensures Found(Committing(t, c), me)
  {
    match c
    case Transaction(caller, q, answer) =>
      CommitKeepsConsistent(t, caller, q, answer);
      Appended(t.writes, Write(caller, t.nextId), me, t.nextId);
    case TakeLease(_) => NoWriteUnderNewId(t.writes, t.nextId);
    case _ =>
  }

  /** Whatever any number of others commit, in any order, is what the call is prepared to find. */
  lemma {:induction false} OthersAreFound(t: Tables, commits: seq<Commit>, me: CallId)
    requires Found(t, me) && NotBy(commits, me)
    ensures Found(CommittingAll(t, commits), me)
    decreases |commits|
  {
    if commits != [] {
      OneCommitIsFound(t, commits[0], me);
      assert NotBy(commits[1..], me) by {
        forall i | 0 <= i < |commits[1..]| && commits[1..][i].Transaction?
          ensures commits[1..][i].caller != me
        {
          assert commits[1..][i] == commits[i + 1];
        }
      }
      hide Found, Committing;
      OthersAreFound(Committing(t, commits[0]), commits[1..], me);
    }
  }

  /** The tables as a call's statements find them, after what others committed before each of them. */
  function Findings(t: Tables, between: seq<seq<Commit>>): (found: seq<Tables>)
    ensures |found| == |between|
    decreases |between|
  {
    if between == [] then []
    else [CommittingAll(t, between[0])] + Findings(CommittingAll(t, between[0]), between[1..])
  }

  /** A failed attempt changes nothing, so this is all the loop of one call ever meets. */
  lemma {:induction false} FindingsAreFound(t: Tables, between: seq<seq<Commit>>, me: CallId)
    requires Found(t, me) && forall commits :: commits in between ==> NotBy(commits, me)
    ensures forall f :: f in Findings(t, between) ==> Found(f, me)
    decreases |between|
  {
    if between != [] {
      hide Found, CommittingAll, NotBy;
      assert between[0] in between;
      OthersAreFound(t, between[0], me);
      FindingsAreFound(CommittingAll(t, between[0]), between[1..], me);
    }
  }

  // ---------------------------------------------------------------------------------------------
  // What a call amounts to
  // ---------------------------------------------------------------------------------------------

  /** The answer a record gives to a request. */
  function Reading(record: Record, q: Request): Result<Reply, Failure> {
    if record.fingerprint != q.fingerprint then Err(DifferentRequest)
    else if record.answer.Some? then Ok(Reply(record.answer.value, true))
    else Err(InProgress)
  }

  /** What the statements of the transaction come to; the operation returns `outcome`, or throws. */
  function Returned(t: Tables, q: Request, outcome: Option<Answer>): Result<Reply, Failure> {
    if Standing(t, q).Some? then Reading(Standing(t, q).value, q)
    else if outcome.None? then Err(OperationFailed)
    else Ok(Reply(outcome.value, false))
  }

  /** What the caller sees of one attempt. */
  function Attempted(t: Tables, q: Request, outcome: Option<Answer>, luck: Luck): Result<Reply, Failure> {
    match luck
    case Serializes => Returned(t, q, outcome)
    case AbortsUnique(_) => if Standing(t, q).None? then Err(UniqueViolation) else Returned(t, q, outcome)
    case AbortsSerialization => Err(SerializationFailure)
    case LosesConnection(committed) =>
      if committed && Returned(t, q, outcome).Err? then Returned(t, q, outcome) else Err(ConnectionLost)
  }

  lemma ViolationsAreUnique(t: Tables, q: Request, outcome: Option<Answer>, luck: Luck)
    ensures Attempted(t, q, outcome, luck) == Err(UniqueViolation) ==> luck.AbortsUnique?
  {
  }

  /** The attempt leaves its business write behind, whether or not the caller learns of it. */
  predicate Commits(t: Tables, q: Request, outcome: Option<Answer>, luck: Luck) {
    Standing(t, q).None? && outcome.Some? && (luck.Serializes? || luck == LosesConnection(true))
  }

  function Left(t: Tables, me: CallId, q: Request, outcome: Option<Answer>, luck: Luck): Tables {
    if Commits(t, q, outcome, luck) then AfterCommit(t, me, q, outcome.value) else t
  }

  /** The answer after another transaction won the unique key. */
  function Winner(t: Tables, q: Request): Result<Reply, Failure> {
    if q.key in t.records then Reading(t.records[q.key], q) else Err(UniqueViolation)
  }

  /**
   * What the three attempts of a call meet. `found[2 * n]` and `found[2 * n + 1]` are the tables as
   * the n-th attempt and the lookup of its winner find them.
   */
  datatype Course = Course(outcomes: seq<Option<Answer>>, luck: seq<Luck>, found: seq<Tables>)

  predicate ThreeAttempts(course: Course) {
    |course.outcomes| == |course.luck| == 3 && |course.found| == 6
  }

  /** The loop from its n-th attempt on: the answer, and the tables it leaves. */
  function Called(me: CallId, q: Request, course: Course, n: nat): (Result<Reply, Failure>, Tables)
    requires ThreeAttempts(course) && n < 3
    decreases 3 - n
  {
    var t, outcome, luck := course.found[2 * n], course.outcomes[n], course.luck[n];
    var r := Attempted(t, q, outcome, luck);
    if r == Err(SerializationFailure) && n < 2 then Called(me, q, course, n + 1)
    else if r == Err(UniqueViolation) then
      var won := course.found[2 * n + 1];
      (if luck.lookupFails then Err(ConnectionLost) else Winner(won, q), won)
    else (r, Left(t, me, q, outcome, luck))
  }

  /** The attempt a call ends with: those before it failed to serialize, and it did not, unless it is the third. */
  function LastAttempt(course: Course, n: nat): (m: nat)
    requires ThreeAttempts(course) && n < 3
    ensures n <= m < 3 && (m < 2 ==> !course.luck[m].AbortsSerialization?)
    ensures forall i :: n <= i < m ==> course.luck[i].AbortsSerialization?
    decreases 3 - n
  {
    if course.luck[n].AbortsSerialization? && n < 2 then LastAttempt(course, n + 1) else n
  }

  lemma {:induction false} OnlyTheLastAttemptCounts(me: CallId, q: Request, course: Course, n: nat)
    requires ThreeAttempts(course) && n < 3
    ensures Called(me, q, course, n) == Called(me, q, course, LastAttempt(course, n))
    decreases 3 - n
  {
    if course.luck[n].AbortsSerialization? && n < 2 {
      OnlyTheLastAttemptCounts(me, q, course, n + 1);
    }
  }

  /** The key carries this request's answer. */
  predicate Committed(t: Tables, q: Request, answer: Answer) {
    q.key in t.records && t.records[q.key].fingerprint == q.fingerprint && t.records[q.key].answer == Some(answer)
  }

  predicate IsFresh(r: Result<Reply, Failure>) {
    r.Ok? && !r.value.replayed
  }

  predicate CommitsAt(course: Course, q: Request, n: nat)
    requires ThreeAttempts(course) && n < 3
  {
    Commits(course.found[2 * n], q, course.outcomes[n], course.luck[n])
  }

  lemma LeftIsConsistent(me: CallId, q: Request, t: Tables, outcome: Option<Answer>, luck: Luck)
    requires Found(t, me)
    ensures var left := Left(t, me, q, outcome, luck);
      && Consistent(left.records, left.writes, left.nextId)
      && WritesBy(left.writes, me) == if Commits(t, q, outcome, luck) then 1 else 0
  {
    if Commits(t, q, outcome, luck) {
      CommitKeepsConsistent(t, me, q, outcome.value);
      Appended(t.writes, Write(me, t.nextId), me, t.nextId);
    }
  }

  lemma LastAttemptReports(me: CallId, q: Request, course: Course, m: nat)
    requires ThreeAttempts(course) && m < 3 && (m < 2 ==> !course.luck[m].AbortsSerialization?)
    ensures var (r, t) := Called(me, q, course, m);
      && (IsFresh(r) <==> CommitsAt(course, q, m) && course.luck[m].Serializes?)
      && (CommitsAt(course, q, m) && !IsFresh(r) ==> r == Err(ConnectionLost))
      && (r.Ok? ==> Committed(t, q, r.value.answer))
      && (r == Err(SerializationFailure) <==> course.luck[m].AbortsSerialization?)
      && r != Err(BudgetExhausted)
      && t == if course.luck[m].AbortsUnique? && Standing(course.found[2 * m], q).None?
              then course.found[2 * m + 1]
              else Left(course.found[2 * m], me, q, course.outcomes[m], course.luck[m])
  {
  }

  /**
   * However its attempts go and whatever others commit meanwhile, a call makes one business write or
   * none: one exactly when its last attempt commits, which it reports as a fresh answer, or as a lost
   * connection when the acknowledgement is lost. Every answer it reports is the one its key carries.
   */
  lemma WritesOnceOrNever(me: CallId, q: Request, course: Course)
    requires ThreeAttempts(course) && forall t :: t in course.found ==> Found(t, me)
    ensures var (r, t) := Called(me, q, course, 0); var m := LastAttempt(course, 0);
      && Consistent(t.records, t.writes, t.nextId)
      && WritesBy(t.writes, me) == (if CommitsAt(course, q, m) then 1 else 0)
      && (IsFresh(r) <==> CommitsAt(course, q, m) && course.luck[m].Serializes?)
      && (CommitsAt(course, q, m) && !IsFresh(r) ==> r == Err(ConnectionLost))
      && (r.Ok? ==> Committed(t, q, r.value.answer))
      && (r == Err(SerializationFailure) <==> course.luck[m].AbortsSerialization?)
      && r != Err(BudgetExhausted)
  {
    OnlyTheLastAttemptCounts(me, q, course, 0);
    var m := LastAttempt(course, 0);
    hide Called, Left, Consistent, WritesBy;
    LastAttemptReports(me, q, course, m);
    LeftIsConsistent(me, q, course.found[2 * m], course.outcomes[m], course.luck[m]);
    assert Found(course.found[2 * m + 1], me);
  }

  /** The answer comes from a record that had already expired for this request. */
  predicate ReportsExpired(r: Result<Reply, Failure>, t: Tables, q: Request) {
    r.Ok? && r.value.replayed && q.key in t.records && Expired(t.records[q.key], q.now)
  }

  /**
   * An attempt made room for its record and met a unique violation, which put an expired record of the
   * same request back, and the lookup of a winner finds that record, or another that has expired.
   */
  predicate LosesToExpired(course: Course, q: Request, n: nat)
    requires ThreeAttempts(course) && n < 3
  {
    var won := course.found[2 * n + 1].records;
    && course.luck[n] == AbortsUnique(false) && Standing(course.found[2 * n], q).None?
    && q.key in won && Expired(won[q.key], q.now) && won[q.key].fingerprint == q.fingerprint
  }

  /** Exactly when a call replays an expired answer instead of running the operation or failing. */
  lemma ExpiredAnswersExactly(me: CallId, q: Request, course: Course)
    requires ThreeAttempts(course)
    ensures var (r, t) := Called(me, q, course, 0);
      ReportsExpired(r, t, q) <==> LosesToExpired(course, q, LastAttempt(course, 0))
  {
    OnlyTheLastAttemptCounts(me, q, course, 0);
    var m := LastAttempt(course, 0);
    hide Called, AfterCommit;
    LastAttemptStands(me, q, course, m);
  }

  lemma LastAttemptStands(me: CallId, q: Request, course: Course, m: nat)
    requires ThreeAttempts(course) && m < 3 && (m < 2 ==> !course.luck[m].AbortsSerialization?)
    ensures var (r, t) := Called(me, q, course, m);
      ReportsExpired(r, t, q) <==> LosesToExpired(course, q, m)
  {
  }

  /**
   * An instance, with nobody else at work: call 1 committed an answer for ten time units; call 2 repeats
   * its request later, and its operation violates a unique column. It reports the old answer.
   */
  lemma ExpiredAnswerIsReplayed()
    ensures var expired := AfterCommit(Tables(map[], [], 0), 1, Request(7, 0, 0, 0, 10), Answer(200, 5));
      var luck := AbortsUnique(false);
      var course := Course([None, None, None], [luck, luck, luck], [expired, expired, expired, expired, expired, expired]);
      Found(expired, 2) && Called(2, Request(7, 0, 1, 20, 10), course, 0) == (Ok(Reply(Answer(200, 5), true)), expired)
  {
    var expired := AfterCommit(Tables(map[], [], 0), 1, Request(7, 0, 0, 0, 10), Answer(200, 5));
    assert Consistent(map[], [], 0) by {
      assert forall id :: WritesUnder([], id) == 0;
    }
    CommitKeepsConsistent(Tables(map[], [], 0), 1, Request(7, 0, 0, 0, 10), Answer(200, 5));
    Appended([], Write(1, 0), 2, 0);
    assert expired.writes == [] + [Write(1, 0)];
  }

  /** The record keeps answering this request: it stands, is the same request's, and has this answer. */
  predicate Answers(t: Tables, q: Request, answer: Answer) {
    Committed(t, q, answer) && q.now < t.records[q.key].expiresAt
  }

  /**
   * A repeated request writes nothing while its record answers: it reports that very answer, or that
   * the database failed it, and the latter only if the database did.
   */
  lemma RepeatsAreReplayed(me: CallId, q: Request, course: Course, answer: Answer)
    requires ThreeAttempts(course) && forall t :: t in course.found ==> Found(t, me) && Answers(t, q, answer)
    ensures var (r, t) := Called(me, q, course, 0); var luck := course.luck[LastAttempt(course, 0)];
      && WritesBy(t.writes, me) == 0
      && r == if luck.AbortsSerialization? then Err(SerializationFailure)
              else if luck.LosesConnection? then Err(ConnectionLost)
              else Ok(Reply(answer, true))
  {
    WritesOnceOrNever(me, q, course);
    OnlyTheLastAttemptCounts(me, q, course, 0);
    var m := LastAttempt(course, 0);
    assert course.found[2 * m] in course.found;
    hide Found;
  }

  /** Others leave the record to `q`: they do not delete it, nor find it expired before `q` would. */
  predicate Spares(c: Commit, q: Request) {
    match c
    case Transaction(_, other, _) => other.key == q.key ==> other.now <= q.now
    case DeleteRecords(keys) => q.key !in keys
    case _ => true
  }

  predicate AllSpare(commits: seq<Commit>, q: Request) {
    forall i :: 0 <= i < |commits| ==> Spares(commits[i], q)
  }

  /** An answer outlasts everything that spares its record. */
  lemma {:induction false} AnswersOutlastOthers(t: Tables, commits: seq<Commit>, q: Request, answer: Answer)
    requires Answers(t, q, answer) && AllSpare(commits, q)
    ensures Answers(CommittingAll(t, commits), q, answer)
    decreases |commits|
  {
    if commits != [] {
      assert Spares(commits[0], q);
      assert AllSpare(commits[1..], q) by {
        forall i | 0 <= i < |commits[1..]|
          ensures Spares(commits[1..][i], q)
        {
          assert commits[1..][i] == commits[i + 1];
        }
      }
      AnswersOutlastOthers(Committing(t, commits[0]), commits[1..], q, answer);
    }
  }

  lemma {:induction false} FindingsAnswer(t: Tables, between: seq<seq<Commit>>, q: Request, answer: Answer)
    requires Answers(t, q, answer) && forall commits :: commits in between ==> AllSpare(commits, q)
    ensures forall f :: f in Findings(t, between) ==> Answers(f, q, answer)
    decreases |between|
  {
    if between != [] {
      hide Answers, CommittingAll, AllSpare;
      assert between[0] in between;
      AnswersOutlastOthers(t, between[0], q, answer);
      FindingsAnswer(CommittingAll(t, between[0]), between[1..], q, answer);
    }
  }

  /**
   * A lost acknowledgement does no harm: once an attempt has committed, whatever its caller was told, the
   * same request sent again before it expires writes nothing and gets the committed answer, or fails
   * because the database fails it again, whatever others commit that spares the record.
   */
  lemma LostAnswersAreReplayed(t: Tables, first: CallId, q: Request, outcome: Option<Answer>, luck: Luck,
                               second: CallId, again: Request, course: Course, between: seq<seq<Commit>>)
    requires Commits(t, q, outcome, luck) && Found(t, second) && first != second
    requires again.key == q.key && again.fingerprint == q.fingerprint && again.now < q.now + q.ttl
    requires ThreeAttempts(course) && course.found == Findings(Left(t, first, q, outcome, luck), between)
    requires forall commits :: commits in between ==> NotBy(commits, second) && AllSpare(commits, again)
    ensures var (r, after) := Called(second, again, course, 0); var last := course.luck[LastAttempt(course, 0)];
      && WritesBy(after.writes, second) == 0
      && r == if last.AbortsSerialization? then Err(SerializationFailure)
              else if last.LosesConnection? then Err(ConnectionLost)
              else Ok(Reply(outcome.value, true))
  {
    var left := Left(t, first, q, outcome, luck);
    CommitKeepsConsistent(t, first, q, outcome.value);
    Appended(t.writes, Write(first, t.nextId), second, t.nextId);
    assert Found(left, second) && Answers(left, again, outcome.value);
    hide Found, Answers, Left, Findings, AllSpare, NotBy;
    FindingsAreFound(left, between, second);
    FindingsAnswer(left, between, again, outcome.value);
    RepeatsAreReplayed(second, again, course, outcome.value);
  }

  class Store {
    var records: map<Key, Record>
    var writes: seq<Write>
    var nextId: RecordId

    /** No record has two business writes, and a record without an answer has none. */
    ghost predicate Valid()
      reads this
    {
      Consistent(records, writes, nextId)
    }

    constructor ()
      ensures Valid() && records == map[] && writes == []
    {
      records, writes, nextId := map[], [], 0;
      new;
      assert forall id :: WritesUnder(writes, id) == 0;
    }

    function Snapshot(): Tables
      reads this
    {
      Tables(records, writes, nextId)
    }

    /** Other callers have committed transactions since this call last looked. */
    method OthersCommit(now: Tables)
      requires Consistent(now.records, now.writes, now.nextId)
      modifies this
      ensures Snapshot() == now
    {
      records, writes, nextId := now.records, now.writes, now.nextId;
    }

    /**
     * One attempt: the statements of the transaction in order, all undone when it does not commit.
     * `outcome` is what the caller's operation returns, or nothing when it throws.
     */
    method Execute(me: CallId, q: Request, outcome: Option<Answer>, luck: Luck) returns (r: Result<Reply, Failure>)
      requires Valid()
      modifies this
      ensures Valid()
      ensures r == Attempted(old(Snapshot()), q, outcome, luck)
      ensures Snapshot() == Left(old(Snapshot()), me, q, outcome, luck)
      ensures WritesBy(writes, me) == WritesBy(old(writes), me) + if Commits(old(Snapshot()), q, outcome, luck) then 1 else 0
    {
      hide Consistent, WritesBy, WritesUnder;
      var recordsBefore, writesBefore, idBefore := records, writes, nextId;
      if luck.AbortsSerialization? {
        return Err(SerializationFailure);
      }
      if luck == LosesConnection(false) {
        return Err(ConnectionLost);
      }
      if q.key in records && Expired(records[q.key], q.now) {
        records := records - {q.key};
      }
      if q.key in records {
        var record := records[q.key];
        if record.fingerprint != q.fingerprint {
          return Err(DifferentRequest);
        }
        if record.answer.None? {
          return Err(InProgress);
        }
        if luck.LosesConnection? {
          return Err(ConnectionLost);
        }
        return Ok(Reply(record.answer.value, true));
      }
      var id := nextId;
      nextId := nextId + 1;
      records := records[q.key := Record(id, q.fingerprint, None, None, None, 1, q.now + q.ttl)];
      if luck.AbortsUnique? || outcome.None? {
        records, writes, nextId := recordsBefore, writesBefore, idBefore;
        return Err(if luck.AbortsUnique? then UniqueViolation else OperationFailed);
      }
      Appended(writes, Write(me, id), me, id);
      CommitKeepsConsistent(Tables(recordsBefore, writesBefore, idBefore), me, q, outcome.value);
      writes := writes + [Write(me, id)];
      records := records[q.key := records[q.key].(answer := outcome)];
      assert Snapshot() == AfterCommit(Tables(recordsBefore, writesBefore, idBefore), me, q, outcome.value);
      if luck.LosesConnection? {
        return Err(ConnectionLost);
      }
      return Ok(Reply(outcome.value, false));
    }

    /**
     * The whole call: three attempts at most, a serialization failure is retried, a unique violation
     * is answered from the winner's record. It has made one business write exactly when its last
     * attempt committed, and then reports a fresh answer or a lost connection.
     */
    method RunIdempotentTransaction(me: CallId, q: Request, course: Course) returns (r: Result<Reply, Failure>)
      requires Valid() && ThreeAttempts(course) && forall t :: t in course.found ==> Found(t, me)
      modifies this
      ensures Valid()
      ensures (r, Snapshot()) == Called(me, q, course, 0)
      ensures WritesBy(writes, me) == if CommitsAt(course, q, LastAttempt(course, 0)) then 1 else 0
      ensures IsFresh(r) ==> WritesBy(writes, me) == 1
      ensures !IsFresh(r) && r != Err(ConnectionLost) ==> WritesBy(writes, me) == 0
      ensures r.Ok? ==> Committed(Snapshot(), q, r.value.answer)
      ensures forall id :: WritesUnder(writes, id) <= 1
    {
      WritesOnceOrNever(me, q, course);
      hide WritesBy, WritesUnder, Left, CommitsAt, Committed, Attempted;
      for attempt := 0 to 3
        invariant Valid() && attempt < 3
        invariant Called(me, q, course, 0) == Called(me, q, course, attempt)
      {
        assert course.found[2 * attempt] in course.found && course.found[2 * attempt + 1] in course.found;
        OthersCommit(course.found[2 * attempt]);
        ViolationsAreUnique(course.found[2 * attempt], q, course.outcomes[attempt], course.luck[attempt]);
        var executed := Execute(me, q, course.outcomes[attempt], course.luck[attempt]);
        if executed.Ok? {
          return executed;
        }
        if executed.error == SerializationFailure && attempt < 2 {
          continue;
        }
        if executed.error != UniqueViolation {
          return executed;
        }
        OthersCommit(course.found[2 * attempt + 1]);
        if course.luck[attempt].lookupFails {
          return Err(ConnectionLost);
        }
        if q.key !in records {
          return executed;
        }
        var winner := records[q.key];
        if winner.fingerprint != q.fingerprint {
          return Err(DifferentRequest);
        }
        if winner.answer.Some? {
          return Ok(Reply(winner.answer.value, true));
        }
        return Err(InProgress);
      }
      return Err(BudgetExhausted);
    }

    /** The call among any number of others: what it finds is what they committed, starting from these tables. */
    method RunAmongOthers(me: CallId, q: Request, outcomes: seq<Option<Answer>>, luck: seq<Luck>, between: seq<seq<Commit>>)
      returns (r: Result<Reply, Failure>)
      requires Valid() && WritesBy(writes, me) == 0
      requires |outcomes| == |luck| == 3 && |between| == 6 && forall commits :: commits in between ==> NotBy(commits, me)
      modifies this
      ensures Valid()
      ensures (r, Snapshot()) == Called(me, q, Course(outcomes, luck, Findings(old(Snapshot()), between)), 0)
      ensures IsFresh(r) ==> WritesBy(writes, me) == 1
      ensures !IsFresh(r) && r != Err(ConnectionLost) ==> WritesBy(writes, me) == 0
      ensures WritesBy(writes, me) <= 1
      ensures r.Ok? ==> Committed(Snapshot(), q, r.value.answer)
      ensures forall id :: WritesUnder(writes, id) <= 1
    {
      var found := Findings(Snapshot(), between);
      FindingsAreFound(Snapshot(), between, me);
      r := RunIdempotentTransaction(me, q, Course(outcomes, luck, found));
    }
  }
}
