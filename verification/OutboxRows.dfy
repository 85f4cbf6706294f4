/**
 * The outbox table. Each function is the effect of one guarded statement on the rows; the class
 * runs the relay's and the worker's statements in place.
 */
module OutboxRows {
  import opened Wrappers

  type EventId = nat
  type Token = nat
  type Time = int

  const CLAIM_LEASE: int := 30_000
  const ENQUEUE_RETRY_DELAY: int := 5_000
  const BATCH_SIZE: nat := 100
  const MAX_BATCHES_PER_TICK: nat := 10

  datatype Status = PENDING | CLAIMED | ENQUEUED | PROCESSING | FAILED | DELIVERED | DEAD_LETTER

  datatype Row = Row(
    status: Status,
    generation: nat,
    attempts: nat,
    availableAt: Time,
    expiresAt: Option<Time>,
    claimToken: Option<Token>,
    claimExpiresAt: Option<Time>)

  type Rows = map<EventId, Row>

  datatype Disposition = RETRY | TO_DEAD_LETTER

  /** `deliveryFailureDisposition`. */
  function FailureDisposition(attemptsMadeBefore: int, configuredAttempts: Option<int>): Disposition
  {
    var configured := if configuredAttempts.Some? then configuredAttempts.value else 1;
    var maximum := if configured < 1 then 1 else configured;
    if attemptsMadeBefore + 1 >= maximum then TO_DEAD_LETTER else RETRY
  }

  predicate Terminal(status: Status) {
    status == DELIVERED || status == DEAD_LETTER
  }

  /** The WHERE clause of the claiming query. */
  predicate Claimable(row: Row, now: Time) {
    && row.availableAt <= now
    && (row.expiresAt.None? || row.expiresAt.value > now)
    && (row.status == PENDING
        || (row.status == CLAIMED && row.claimExpiresAt.Some? && row.claimExpiresAt.value <= now))
  }

  function ClaimRow(row: Row, token: Token, now: Time): Row {
    row.(status := CLAIMED, claimToken := Some(token), claimExpiresAt := Some(now + CLAIM_LEASE))
  }

  function ClaimRows(rows: Rows, chosen: set<EventId>, token: Token, now: Time): Rows {
    map e | e in rows :: if e in chosen then ClaimRow(rows[e], token, now) else rows[e]
  }

  predicate HeldBy(rows: Rows, e: EventId, token: Token) {
    e in rows && rows[e].status == CLAIMED && rows[e].claimToken == Some(token)
  }

  function MarkEnqueued(rows: Rows, e: EventId, token: Token): Rows {
    if HeldBy(rows, e, token) then
      rows[e := rows[e].(status := ENQUEUED, claimToken := None, claimExpiresAt := None)]
    else rows
  }

  function Release(rows: Rows, e: EventId, token: Token, now: Time): Rows {
    if HeldBy(rows, e, token) then
      rows[e := rows[e].(status := PENDING, availableAt := now + ENQUEUE_RETRY_DELAY,
                         claimToken := None, claimExpiresAt := None)]
    else rows
  }

  predicate MayStart(rows: Rows, e: EventId, generation: nat) {
    && e in rows
    && rows[e].generation == generation
    && (rows[e].status == ENQUEUED || rows[e].status == FAILED)
  }

  function MarkStarted(rows: Rows, e: EventId, generation: nat): Rows {
    if MayStart(rows, e, generation) then
      rows[e := rows[e].(status := PROCESSING, attempts := rows[e].attempts + 1,
                         claimToken := None, claimExpiresAt := None)]
    else rows
  }

  predicate MayDeliver(rows: Rows, e: EventId, generation: nat) {
    e in rows && rows[e].generation == generation && rows[e].status == PROCESSING
  }

  function MarkDelivered(rows: Rows, e: EventId, generation: nat): Rows {
    if MayDeliver(rows, e, generation) then rows[e := rows[e].(status := DELIVERED)] else rows
  }

  /** `recordDeliveryFailure`. */
  function MarkFailure(rows: Rows, e: EventId, generation: nat, disposition: Disposition): Rows {
    if e in rows && rows[e].generation == generation && !Terminal(rows[e].status) then
      rows[e := rows[e].(status := if disposition == TO_DEAD_LETTER then DEAD_LETTER else ENQUEUED)]
    else rows
  }

  /** The worker's write for an event whose business expiry has passed. */
  function MarkExpired(rows: Rows, e: EventId, generation: nat): Rows {
    if e in rows && rows[e].generation == generation && rows[e].status != DELIVERED then
      rows[e := rows[e].(status := DEAD_LETTER)]
    else rows
  }

  predicate MayRedrive(rows: Rows, e: EventId, now: Time) {
    && e in rows
    && rows[e].status == DEAD_LETTER
    && (rows[e].expiresAt.None? || rows[e].expiresAt.value > now)
  }

  function Redrive(rows: Rows, e: EventId, now: Time): Rows {
    if MayRedrive(rows, e, now) then
      rows[e := rows[e].(status := PENDING, attempts := 0, generation := rows[e].generation + 1,
                         availableAt := now, claimToken := None, claimExpiresAt := None)]
    else rows
  }

  function EraseRow(row: Row, now: Time): Row {
    if Terminal(row.status) then
      row.(expiresAt := Some(now))
    else
      row.(expiresAt := Some(now), status := DEAD_LETTER, claimToken := None, claimExpiresAt := None)
  }

  /** Account deletion: the user's events expire, and those still undelivered are dead-lettered. */
  function Erase(rows: Rows, owned: set<EventId>, now: Time): Rows {
    map e | e in rows :: if e in owned then EraseRow(rows[e], now) else rows[e]
  }

  /** The rows the claiming query picks: oldest first, skipping those a peer has locked, up to the limit. */
  function FirstClaimable(rows: Rows, byAge: seq<EventId>, now: Time, limit: nat, locked: set<EventId>): (picked: seq<EventId>)
    ensures |picked| <= limit
    ensures forall e :: e in picked ==> e in byAge && e in rows && Claimable(rows[e], now) && e !in locked
  {
    if byAge == [] || limit == 0 then []
    else if byAge[0] in rows && Claimable(rows[byAge[0]], now) && byAge[0] !in locked then
      [byAge[0]] + FirstClaimable(rows, byAge[1..], now, limit - 1, locked)
    else FirstClaimable(rows, byAge[1..], now, limit, locked)
  }

  lemma {:induction false} FirstClaimableSnoc(rows: Rows, byAge: seq<EventId>, e: EventId, now: Time, limit: nat, locked: set<EventId>)
    ensures var before := FirstClaimable(rows, byAge, now, limit, locked);
      FirstClaimable(rows, byAge + [e], now, limit, locked) ==
        if |before| < limit && e in rows && Claimable(rows[e], now) && e !in locked then before + [e] else before
  {
    var all := byAge + [e];
    if byAge == [] {
      assert all[1..] == [];
    } else if limit > 0 {
      assert all[1..] == byAge[1..] + [e];
      if byAge[0] in rows && Claimable(rows[byAge[0]], now) && byAge[0] !in locked {
        FirstClaimableSnoc(rows, byAge[1..], e, now, limit - 1, locked);
      } else {
        FirstClaimableSnoc(rows, byAge[1..], e, now, limit, locked);
      }
    }
  }

  predicate Distinct(events: seq<EventId>) {
    forall i, j :: 0 <= i < j < |events| ==> events[i] != events[j]
  }

  /** The relay process: its view of the table, and the flag that keeps its ticks from overlapping. */
  class Relay {
    var rows: Rows
    var byAge: seq<EventId>
    var relaying: bool

    constructor (rows: Rows, byAge: seq<EventId>)
      ensures this.rows == rows && this.byAge == byAge && !relaying
    {
      this.rows := rows;
      this.byAge := byAge;
      relaying := false;
    }

    /** `claimOutboxBatch`: the oldest claimable rows no peer has locked, at most `limit`, under one token. */
    method ClaimBatch(now: Time, token: Token, limit: nat, locked: set<EventId>) returns (claimed: seq<EventId>)
      requires Distinct(byAge)
      modifies `rows
      ensures claimed == FirstClaimable(old(rows), byAge, now, limit, locked)
      ensures Distinct(claimed)
      ensures rows == ClaimRows(old(rows), (set e | e in claimed), token, now)
    {
      claimed := [];
      var i := 0;
      while i < |byAge|
        invariant 0 <= i <= |byAge|
        invariant claimed == FirstClaimable(old(rows), byAge[..i], now, limit, locked)
        invariant Distinct(claimed)
        invariant rows == ClaimRows(old(rows), (set e | e in claimed), token, now)
      {
        var e := byAge[i];
        assert e !in claimed by {
          assert e !in byAge[..i];
        }
        assert byAge[..i + 1] == byAge[..i] + [e] && FirstClaimable(old(rows), byAge[..i] + [e], now, limit, locked) ==
               (if |claimed| < limit && e in old(rows) && Claimable(old(rows)[e], now) && e !in locked then claimed + [e] else claimed)
        by {
          FirstClaimableSnoc(old(rows), byAge[..i], e, now, limit, locked);
        }
        if |claimed| < limit && e in rows && Claimable(rows[e], now) && e !in locked {
          rows := rows[e := ClaimRow(rows[e], token, now)];
          claimed := claimed + [e];
        }
        i := i + 1;
      }
      assert byAge[..i] == byAge;
    }

    /** `enqueueClaimedEvent` after the queue answered: mark the row, or give the claim back. */
    method SettleClaim(e: EventId, token: Token, added: bool, now: Time)
      modifies `rows
      ensures rows == if added then MarkEnqueued(old(rows), e, token) else Release(old(rows), e, token, now)
    {
      if e in rows && rows[e].status == CLAIMED && rows[e].claimToken == Some(token) {
        var row := rows[e].(claimToken := None, claimExpiresAt := None);
        if added {
          row := row.(status := ENQUEUED);
        } else {
          row := row.(status := PENDING, availableAt := now + ENQUEUE_RETRY_DELAY);
        }
        rows := rows[e := row];
      }
    }

    /**
     * `relayAvailableOutbox`: batches until one comes up short, ten at most, never two ticks at once.
     * `clock`, `tokens`, `accepted` and `locked` stand for the time, the random token, the queue's
     * answers and the peers' row locks of each batch.
     */
    method RelayAvailable(clock: seq<Time>, tokens: seq<Token>, accepted: seq<set<EventId>>,
                          locked: seq<set<EventId>>) returns (total: nat)
      requires Distinct(byAge)
      requires |tokens| == |clock| == |accepted| == |locked| == MAX_BATCHES_PER_TICK
      modifies `rows, `relaying
      ensures relaying == old(relaying)
      ensures (rows, total) == if old(relaying) then (old(rows), 0) else Ticked(old(rows), byAge, clock, accepted, locked)
    {
      if relaying {
        return 0;
      }
      relaying := true;
      total := 0;
      var batch := 0;
      while batch < MAX_BATCHES_PER_TICK
        invariant 0 <= batch <= MAX_BATCHES_PER_TICK
        invariant relaying
        invariant var (last, count) := Ticked(rows, byAge, clock[batch..], accepted[batch..], locked[batch..]);
                  Ticked(old(rows), byAge, clock, accepted, locked) == (last, total + count)
      {
        ghost var before := rows;
        assert clock[batch..][0] == clock[batch] && clock[batch..][1..] == clock[batch + 1..];
        assert accepted[batch..][0] == accepted[batch] && accepted[batch..][1..] == accepted[batch + 1..];
        assert locked[batch..][0] == locked[batch] && locked[batch..][1..] == locked[batch + 1..];
        var count := RelayBatch(clock[batch], tokens[batch], accepted[batch], locked[batch]);
        total := total + count;
        batch := batch + 1;
        if count < BATCH_SIZE {
          break;
        }
      }
      relaying := false;
    }

    /** `relayOutboxBatch`: claim, offer to the queue, settle each claim by the queue's answer. */
    method RelayBatch(now: Time, token: Token, accepted: set<EventId>, locked: set<EventId>) returns (count: nat)
      requires Distinct(byAge)
      modifies `rows
      ensures var claimed := FirstClaimable(old(rows), byAge, now, BATCH_SIZE, locked);
        rows == Relayed(old(rows), claimed, accepted, now) && count == |claimed|
    {
      var claimed := ClaimBatch(now, token, BATCH_SIZE, locked);
      ghost var stamped := rows;
      var i := 0;
      while i < |claimed|
        invariant 0 <= i <= |claimed|
        invariant rows.Keys == stamped.Keys
        invariant forall e :: e in rows && e !in claimed[..i] ==> rows[e] == stamped[e]
        invariant forall j :: 0 <= j < i ==> claimed[j] in rows && rows[claimed[j]] == SettledRow(old(rows)[claimed[j]], claimed[j] in accepted, now)
      {
        var e := claimed[i];
        assert e !in claimed[..i];
        SettleClaim(e, token, e in accepted, now);
        i := i + 1;
      }
      count := |claimed|;
      assert claimed[..i] == claimed;
    }
  }

  /** A claimable row after one batch: handed to the queue, or due again after the retry delay. */
  function SettledRow(row: Row, added: bool, now: Time): Row {
    if added then row.(status := ENQUEUED, claimToken := None, claimExpiresAt := None)
    else row.(status := PENDING, availableAt := now + ENQUEUE_RETRY_DELAY, claimToken := None, claimExpiresAt := None)
  }

  function Relayed(rows: Rows, claimed: seq<EventId>, accepted: set<EventId>, now: Time): Rows {
    map e | e in rows :: if e in claimed then SettledRow(rows[e], e in accepted, now) else rows[e]
  }

  /** One tick: full batches follow each other, a short one is the last. */
  function Ticked(rows: Rows, byAge: seq<EventId>, clock: seq<Time>, accepted: seq<set<EventId>>, locked: seq<set<EventId>>): (Rows, nat)
    requires |clock| == |accepted| == |locked|
  {
    if clock == [] then (rows, 0)
    else
      var claimed := FirstClaimable(rows, byAge, clock[0], BATCH_SIZE, locked[0]);
      var next := Relayed(rows, claimed, accepted[0], clock[0]);
      if |claimed| < BATCH_SIZE then (next, |claimed|)
      else
        var (last, count) := Ticked(next, byAge, clock[1..], accepted[1..], locked[1..]);
        (last, |claimed| + count)
  }

  /** What a tick may do to a row: nothing, or take it from waiting to the queue or back to waiting. */
  ghost predicate OnlyRelays(before: Rows, after: Rows) {
    && after.Keys == before.Keys
    && forall e :: e in after && after[e] != before[e] ==>
         && (before[e].status == PENDING || before[e].status == CLAIMED)
         && (after[e].status == PENDING || after[e].status == ENQUEUED)
         && after[e].claimToken.None?
         && after[e].generation == before[e].generation
         && after[e].attempts == before[e].attempts
  }

  /** A tick leaves none of its claims behind, touches no other row, and counts what it claimed. */
  lemma {:induction false} TickOnlyRelays(rows: Rows, byAge: seq<EventId>, clock: seq<Time>, accepted: seq<set<EventId>>,
                                         locked: seq<set<EventId>>)
    requires |clock| == |accepted| == |locked|
    ensures OnlyRelays(rows, Ticked(rows, byAge, clock, accepted, locked).0)
    ensures Ticked(rows, byAge, clock, accepted, locked).1 <= BATCH_SIZE * |clock|
    decreases |clock|
  {
    if clock != [] {
      var claimed := FirstClaimable(rows, byAge, clock[0], BATCH_SIZE, locked[0]);
      var next := Relayed(rows, claimed, accepted[0], clock[0]);
      assert OnlyRelays(rows, next);
      if |claimed| == BATCH_SIZE {
        TickOnlyRelays(next, byAge, clock[1..], accepted[1..], locked[1..]);
      }
    }
  }
}
