/**
 * The chargeable-item table: OPEN -> RESERVED -> CONSUMED, with RESERVED -> OPEN when the provider
 * payment is canceled. The functions give the effect of each guarded `updateMany`; the class runs
 * the same statements in place.
 */
module ChargeableItems {
  import opened Wrappers

  type ItemId = nat
  type IntentId = nat
  /** Hash of (billing owner, business idempotency key); hashing is taken to be injective. */
  type KeyHash = nat
  type UserId = nat
  type Time = int

  datatype ItemStatus = OPEN | RESERVED | CONSUMED | EXPIRED | CANCELED

  datatype Item = Item(
    reference: string,
    userId: Option<UserId>,
    amount: int,
    expiresAt: Option<Time>,
    deleted: bool,
    status: ItemStatus,
    reservationKeyHash: Option<KeyHash>,
    paymentIntentId: Option<IntentId>)

  type Items = map<ItemId, Item>

  /** The three classes of provider status the code tells apart. */
  datatype IntentStatus = InProgress | Succeeded | Canceled

  datatype ChargeError = NotFound | Expired | ReservedForAnother | NotOpen | ChangedWhileReserving

  datatype Reservation = Reservation(item: ItemId, keyHash: KeyHash, amount: int)

  predicate IsCurrent(items: Items, id: ItemId, reference: string) {
    id in items && !items[id].deleted && items[id].reference == reference
  }

  /** The checks `reserve` makes on the row it read; `None` means the row is OPEN and may be claimed. */
  function InspectForReserve(item: Item, id: ItemId, userId: UserId, keyHash: KeyHash, now: Time)
    : Option<Result<Reservation, ChargeError>>
  {
    if item.expiresAt.Some? && item.expiresAt.value <= now then
      Some(Err(Expired))
    else if item.userId.Some? && item.userId.value != userId then
      Some(Err(NotFound))
    else if item.status == RESERVED then
      if item.reservationKeyHash != Some(keyHash) then
        Some(Err(ReservedForAnother))
      else
        Some(Ok(Reservation(id, keyHash, item.amount)))
    else if item.status != OPEN then
      Some(Err(NotOpen))
    else
      None
  }

  predicate MayClaim(items: Items, id: ItemId) {
    id in items && !items[id].deleted && items[id].status == OPEN
  }

  /** `reserve`'s updateMany on {id, status: OPEN}. */
  function Claim(items: Items, id: ItemId, keyHash: KeyHash): Items {
    if MayClaim(items, id) then
      items[id := items[id].(status := RESERVED, reservationKeyHash := Some(keyHash))]
    else
      items
  }

  /** The row filter every later update shares: same reservation, and no other payment recorded. */
  predicate BelongsTo(items: Items, id: ItemId, keyHash: KeyHash, intent: IntentId) {
    && id in items
    && !items[id].deleted
    && items[id].reservationKeyHash == Some(keyHash)
    && (items[id].paymentIntentId == None || items[id].paymentIntentId == Some(intent))
  }

  predicate MayRecord(items: Items, id: ItemId, keyHash: KeyHash, intent: IntentId) {
    BelongsTo(items, id, keyHash, intent) && items[id].status == RESERVED
  }

  /** `recordPaymentIntent`. */
  function Record(items: Items, id: ItemId, keyHash: KeyHash, intent: IntentId, succeeded: bool): Items {
    if MayRecord(items, id, keyHash, intent) then
      items[id := items[id].(
        paymentIntentId := Some(intent),
        status := if succeeded then CONSUMED else items[id].status)]
    else
      items
  }

  /** `projectChargeableItem`: what a webhook carrying this intent and status does to the table. */
  function Project(items: Items, id: ItemId, keyHash: KeyHash, intent: IntentId, status: IntentStatus): Items {
    if !BelongsTo(items, id, keyHash, intent) then
      items
    else match status
      case Succeeded =>
        if items[id].status == RESERVED || items[id].status == CONSUMED then
          items[id := items[id].(paymentIntentId := Some(intent), status := CONSUMED)]
        else
          items
      case Canceled =>
        if items[id].status == RESERVED then
          items[id := items[id].(status := OPEN, reservationKeyHash := None, paymentIntentId := None)]
        else
          items
      case InProgress =>
        if items[id].status == RESERVED then
          items[id := items[id].(paymentIntentId := Some(intent))]
        else
          items
  }

  /**
   * What concurrent requests may do between two statements: rows are never removed or repriced, and
   * a CONSUMED row keeps its status and reservation. Every step of the charge protocol obeys it
   * (`Charges.StepsInterfere`).
   */
  predicate Interference(before: Items, after: Items) {
    && before.Keys <= after.Keys
    && (forall id | id in before :: after[id].amount == before[id].amount)
    && (forall id | id in before && before[id].status == CONSUMED ::
          && after[id].status == CONSUMED
          && after[id].reservationKeyHash == before[id].reservationKeyHash)
  }

  /** `reserve` with the table to itself: the answer the row it found deserves, and nothing else written. */
  predicate ReservedAlone(before: Items, reference: string, userId: UserId, keyHash: KeyHash, now: Time,
                          found: Option<ItemId>, after: Items, r: Result<Reservation, ChargeError>)
  {
    match found
    case None =>
      after == before && r == Err(NotFound) && forall id | id in before :: !IsCurrent(before, id, reference)
    case Some(id) =>
      && IsCurrent(before, id, reference)
      && match InspectForReserve(before[id], id, userId, keyHash, now)
         case Some(verdict) => after == before && r == verdict
         case None => after == Claim(before, id, keyHash) && r == Ok(Reservation(id, keyHash, before[id].amount))
  }

  class Table {
    var rows: Items

    constructor ()
      ensures rows == map[]
    {
      rows := map[];
    }

    /** Other requests, if there are any, run between two statements of this one. */
    method OthersRun(others: bool)
      modifies this
      ensures Interference(old(rows), rows)
      ensures !others ==> rows == old(rows)
    {
      var next: Items := *;
      if others && Interference(rows, next) {
        rows := next;
      }
    }

    method FindByReference(reference: string) returns (found: Option<ItemId>)
      ensures found.Some? ==> IsCurrent(rows, found.value, reference)
      ensures found.None? ==> forall id :: id in rows ==> !IsCurrent(rows, id, reference)
    {
      if id: ItemId :| id in rows && IsCurrent(rows, id, reference) {
        return Some(id);
      }
      return None;
    }

    method ClaimIfOpen(id: ItemId, keyHash: KeyHash) returns (count: nat)
      modifies this
      ensures rows == Claim(old(rows), id, keyHash)
      ensures count == if MayClaim(old(rows), id) then 1 else 0
    {
      count := 0;
      if id in rows && !rows[id].deleted && rows[id].status == OPEN {
        rows := rows[id := rows[id].(status := RESERVED, reservationKeyHash := Some(keyHash))];
        count := 1;
      }
    }

    /**
     * `reserve`: at most two rounds of read-then-claim, with other requests running in between.
     * A reservation is handed out only while the row really is RESERVED under this very key, at the
     * price the row carries; with nobody else around the outcome is fully determined.
     */
    method Reserve(reference: string, userId: UserId, keyHash: KeyHash, now: Time, others: bool)
      returns (r: Result<Reservation, ChargeError>)
      modifies this
      ensures r.Ok? ==>
                && r.value.item in rows
                && rows[r.value.item].status == RESERVED
                && rows[r.value.item].reservationKeyHash == Some(keyHash)
                && r.value.keyHash == keyHash
                && r.value.amount == rows[r.value.item].amount
      ensures Interference(old(rows), rows)
      ensures r == Err(ChangedWhileReserving) ==> others
      ensures !others ==> exists found :: ReservedAlone(old(rows), reference, userId, keyHash, now, found, rows, r)
    {
      for attempt := 0 to 2
        invariant Interference(old(rows), rows)
        invariant attempt > 0 ==> others
        invariant !others ==> rows == old(rows)
      {
        OthersRun(others);
        var found := FindByReference(reference);
        if found.None? {
          assert !others ==> ReservedAlone(old(rows), reference, userId, keyHash, now, None, rows, Err(NotFound));
          return Err(NotFound);
        }
        var id := found.value;
        var item := rows[id];
        assert !others ==> IsCurrent(old(rows), id, reference);
        var verdict := InspectForReserve(item, id, userId, keyHash, now);
        if verdict.Some? {
          assert !others ==> ReservedAlone(old(rows), reference, userId, keyHash, now, found, rows, verdict.value);
          return verdict.value;
        }
        OthersRun(others);
        var count := ClaimIfOpen(id, keyHash);
        if count == 1 {
          assert !others ==>
              ReservedAlone(old(rows), reference, userId, keyHash, now, found, rows, Ok(Reservation(id, keyHash, item.amount)));
          return Ok(Reservation(id, keyHash, item.amount));
        }
      }
      return Err(ChangedWhileReserving);
    }

    method RecordPaymentIntent(reservation: Reservation, intent: IntentId, succeeded: bool)
      returns (recorded: bool)
      modifies this
      ensures rows == Record(old(rows), reservation.item, reservation.keyHash, intent, succeeded)
      ensures recorded == MayRecord(old(rows), reservation.item, reservation.keyHash, intent)
    {
      recorded := false;
      var id := reservation.item;
      if id in rows && !rows[id].deleted && rows[id].status == RESERVED
         && rows[id].reservationKeyHash == Some(reservation.keyHash)
         && (rows[id].paymentIntentId == None || rows[id].paymentIntentId == Some(intent))
      {
        rows := rows[id := rows[id].(paymentIntentId := Some(intent))];
        if succeeded {
          rows := rows[id := rows[id].(status := CONSUMED)];
        }
        recorded := true;
      }
    }

    method ProjectChargeableItem(id: ItemId, keyHash: KeyHash, intent: IntentId, status: IntentStatus)
      modifies this
      ensures rows == Project(old(rows), id, keyHash, intent, status)
    {
      if !(id in rows && !rows[id].deleted && rows[id].reservationKeyHash == Some(keyHash)) {
        return;
      }
      if !(rows[id].paymentIntentId == None || rows[id].paymentIntentId == Some(intent)) {
        return;
      }
      if status == Succeeded {
        if rows[id].status == RESERVED || rows[id].status == CONSUMED {
          rows := rows[id := rows[id].(paymentIntentId := Some(intent), status := CONSUMED)];
        }
        return;
      }
      if status == Canceled {
        if rows[id].status == RESERVED {
          rows := rows[id := rows[id].(status := OPEN, reservationKeyHash := None, paymentIntentId := None)];
        }
        return;
      }
      if rows[id].status == RESERVED {
        rows := rows[id := rows[id].(paymentIntentId := Some(intent))];
      }
    }
  }
}
