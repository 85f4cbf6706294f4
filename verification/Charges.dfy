/**
 * Dynamic charges as one state machine: API calls, the payment provider and webhook workers share
 * the chargeable-item table. Each constructor of `Step` is one database statement, one provider
 * call or one provider event; a step whose guard fails leaves the state alone, so a sequence of
 * steps is any interleaving of any number of calls, retries, crashes and duplicated webhooks.
 *
 * Provider assumptions: an idempotency key names one PaymentIntent for ever, a key repeated with
 * other parameters is refused, and `succeeded` and `canceled` are terminal.
 */
module Charges {
  import opened Wrappers
  import opened ChargeableItems

  type CallId = nat

  /** A PaymentIntent with the metadata `createCharge` puts on it. */
  datatype Intent = Intent(item: ItemId, keyHash: KeyHash, status: IntentStatus)

  datatype Request = Request(reference: string, userId: UserId, keyHash: KeyHash)

  /** Where an in-flight `createCharge` stands. */
  datatype Call =
    | Reserving(request: Request, attempt: nat)
    | SawOpen(request: Request, attempt: nat, item: ItemId)
    | Holding(request: Request, item: ItemId)
    | Created(request: Request, item: ItemId, intent: IntentId, seen: IntentStatus, raises: bool)
    | Charged(request: Request, item: ItemId, intent: IntentId)
    | Failed

  /** A provider object as a webhook worker holds it: the status may be out of date. */
  datatype Snapshot = Snapshot(intent: IntentId, seen: IntentStatus)

  datatype State = State(
    items: Items,
    intents: map<IntentId, Intent>,
    providerKeys: map<KeyHash, IntentId>,
    calls: map<CallId, Call>,
    snapshots: set<Snapshot>)

  datatype Step =
    | AddItem(id: ItemId, item: Item)
    | SoftDelete(id: ItemId)
    | Begin(call: CallId, request: Request)
    | Find(call: CallId, found: Option<ItemId>, now: Time)
    | ClaimItem(call: CallId)
    | GiveUp(call: CallId)
    | CreateIntent(call: CallId, minted: IntentId, seen: IntentStatus, raises: bool)
    | RecordIntent(call: CallId)
    | Advance(intent: IntentId, status: IntentStatus)
    | Observe(intent: IntentId)
    | ProjectSnapshot(snapshot: Snapshot)

  function Init(): State {
    State(map[], map[], map[], map[], {})
  }

  function FindStep(s: State, call: CallId, request: Request, attempt: nat, found: Option<ItemId>, now: Time): State {
    match found
    case None =>
      if forall id | id in s.items :: !IsCurrent(s.items, id, request.reference) then
        s.(calls := s.calls[call := Failed])
      else
        s
    case Some(id) =>
      if !IsCurrent(s.items, id, request.reference) then
        s
      else
        match InspectForReserve(s.items[id], id, request.userId, request.keyHash, now)
        case None => s.(calls := s.calls[call := SawOpen(request, attempt, id)])
        case Some(Ok(_)) => s.(calls := s.calls[call := Holding(request, id)])
        case Some(Err(_)) => s.(calls := s.calls[call := Failed])
  }

  function ClaimStep(s: State, call: CallId, request: Request, attempt: nat, id: ItemId): State {
    if MayClaim(s.items, id) then
      s.(items := Claim(s.items, id, request.keyHash), calls := s.calls[call := Holding(request, id)])
    else if attempt + 1 < 2 then
      s.(calls := s.calls[call := Reserving(request, attempt + 1)])
    else
      s.(calls := s.calls[call := Failed])
  }

  /** A status the provider may report for an intent: replayed answers can lag, terminal ones cannot. */
  predicate MayReport(actual: IntentStatus, seen: IntentStatus) {
    seen == InProgress || seen == actual
  }

  /** `paymentIntents.create`, answering with the intent or with an error that carries it (`raises`). */
  function CreateStep(s: State, call: CallId, request: Request, id: ItemId,
                      minted: IntentId, seen: IntentStatus, raises: bool): State
  {
    if request.keyHash in s.providerKeys then
      var known := s.providerKeys[request.keyHash];
      if known !in s.intents || s.intents[known].item != id then
        s.(calls := s.calls[call := Failed])
      else if !MayReport(s.intents[known].status, seen) then
        s
      else
        s.(calls := s.calls[call := Created(request, id, known, seen, raises)])
    else if minted in s.intents then
      s
    else
      s.(intents := s.intents[minted := Intent(id, request.keyHash, seen)],
         providerKeys := s.providerKeys[request.keyHash := minted],
         calls := s.calls[call := Created(request, id, minted, seen, raises)])
  }

  function RecordStep(s: State, call: CallId, c: Call): State
    requires c.Created?
  {
    var recorded := MayRecord(s.items, c.item, c.request.keyHash, c.intent);
    s.(items := Record(s.items, c.item, c.request.keyHash, c.intent, c.seen == Succeeded),
       calls := s.calls[call :=
         if recorded && !c.raises then Charged(c.request, c.item, c.intent) else Failed])
  }

  function Next(s: State, step: Step): State {
    match step
    case AddItem(id, item) =>
      if id in s.items || item.status == RESERVED || item.status == CONSUMED
         || item.reservationKeyHash.Some? || item.paymentIntentId.Some? then s
      else s.(items := s.items[id := item])
    case SoftDelete(id) =>
      if id in s.items then s.(items := s.items[id := s.items[id].(deleted := true)]) else s
    case Begin(call, request) =>
      if call in s.calls then s else s.(calls := s.calls[call := Reserving(request, 0)])
    case Find(call, found, now) =>
      if call in s.calls && s.calls[call].Reserving? then
        FindStep(s, call, s.calls[call].request, s.calls[call].attempt, found, now)
      else s
    case ClaimItem(call) =>
      if call in s.calls && s.calls[call].SawOpen? then
        ClaimStep(s, call, s.calls[call].request, s.calls[call].attempt, s.calls[call].item)
      else s
    case GiveUp(call) =>
      // A crash, a bounds check that fails, or a provider error that carries no intent.
      if call in s.calls && !s.calls[call].Charged? then s.(calls := s.calls[call := Failed]) else s
    case CreateIntent(call, minted, seen, raises) =>
      if call in s.calls && s.calls[call].Holding? then
        CreateStep(s, call, s.calls[call].request, s.calls[call].item, minted, seen, raises)
      else s
    case RecordIntent(call) =>
      if call in s.calls && s.calls[call].Created? then RecordStep(s, call, s.calls[call]) else s
    case Advance(intent, status) =>
      if intent in s.intents && s.intents[intent].status == InProgress then
        s.(intents := s.intents[intent := s.intents[intent].(status := status)])
      else s
    case Observe(intent) =>
      if intent in s.intents then
        s.(snapshots := s.snapshots + {Snapshot(intent, s.intents[intent].status)})
      else s
    case ProjectSnapshot(snapshot) =>
      if snapshot in s.snapshots && snapshot.intent in s.intents then
        var intent := s.intents[snapshot.intent];
        s.(items := Project(s.items, intent.item, intent.keyHash, snapshot.intent, snapshot.seen))
      else s
  }

  function Run(s: State, steps: seq<Step>): State
    decreases |steps|
  {
    if steps == [] then s else Run(Next(s, steps[0]), steps[1..])
  }

  // ---------------------------------------------------------------------------------------------
  // The invariant
  // ---------------------------------------------------------------------------------------------

  predicate Live(s: State, i: IntentId) {
    i in s.intents && s.intents[i].status != Canceled
  }

  ghost predicate ProviderKeysNameIntents(s: State) {
    && (forall i :: i in s.intents ==>
          s.intents[i].keyHash in s.providerKeys && s.providerKeys[s.intents[i].keyHash] == i)
    && (forall h :: h in s.providerKeys ==>
          s.providerKeys[h] in s.intents && s.intents[s.providerKeys[h]].keyHash == h)
  }

  /** The row is taken, and by this key. */
  predicate TakenBy(items: Items, id: ItemId, keyHash: KeyHash) {
    && id in items
    && (items[id].status == RESERVED || items[id].status == CONSUMED)
    && items[id].reservationKeyHash == Some(keyHash)
  }

  ghost predicate LiveIntentsHoldTheirItem(s: State) {
    forall i :: Live(s, i) ==> TakenBy(s.items, s.intents[i].item, s.intents[i].keyHash)
  }

  ghost predicate IntentMatches(s: State, c: Call)
    requires c.Created? || c.Charged?
  {
    && c.intent in s.intents
    && s.intents[c.intent].item == c.item
    && s.intents[c.intent].keyHash == c.request.keyHash
    && (c.Created? ==> MayReport(s.intents[c.intent].status, c.seen))
  }

  /**
   * A call that has reserved either still holds the row or its provider key is spent: the row can
   * only have been given back by canceling the one intent that key will ever name.
   */
  ghost predicate CallIsBacked(s: State, c: Call) {
    && (c.Holding? ==> TakenBy(s.items, c.item, c.request.keyHash) || c.request.keyHash in s.providerKeys)
    && (c.Created? || c.Charged? ==> IntentMatches(s, c))
  }

  ghost predicate CallsAreBacked(s: State) {
    forall k :: k in s.calls ==> CallIsBacked(s, s.calls[k])
  }

  ghost predicate SnapshotsAreTruthful(s: State) {
    forall m :: m in s.snapshots ==>
      m.intent in s.intents && MayReport(s.intents[m.intent].status, m.seen)
  }

  ghost predicate RowAgrees(s: State, id: ItemId)
    requires id in s.items
  {
    var row := s.items[id];
    && (row.status != RESERVED && row.status != CONSUMED ==>
          row.reservationKeyHash == None && row.paymentIntentId == None)
    && (row.status == CONSUMED ==> row.paymentIntentId.Some?)
    && (row.paymentIntentId.Some? ==>
          var p := row.paymentIntentId.value;
          && p in s.intents
          && s.intents[p].item == id
          && row.reservationKeyHash == Some(s.intents[p].keyHash)
          && (row.status == CONSUMED ==> s.intents[p].status == Succeeded))
  }

  ghost predicate RowsAgree(s: State) {
    forall id :: id in s.items ==> RowAgrees(s, id)
  }

  ghost predicate Inv(s: State) {
    && ProviderKeysNameIntents(s)
    && LiveIntentsHoldTheirItem(s)
    && CallsAreBacked(s)
    && SnapshotsAreTruthful(s)
    && RowsAgree(s)
  }

  lemma ProjectKeepsInv(s: State, m: Snapshot)
    requires Inv(s)
    ensures Inv(Next(s, ProjectSnapshot(m)))
  {
    var t := Next(s, ProjectSnapshot(m));
    if m in s.snapshots {
      var intent := s.intents[m.intent];
      forall i | Live(t, i)
        ensures TakenBy(t.items, t.intents[i].item, t.intents[i].keyHash)
      {
        assert TakenBy(s.items, s.intents[i].item, s.intents[i].keyHash);
        if m.seen == Canceled && s.intents[i].item == intent.item && s.intents[i].keyHash == intent.keyHash {
          assert false;
        }
      }
      forall id | id in t.items
        ensures RowAgrees(t, id)
      {
        assert RowAgrees(s, id);
      }
    }
  }

  lemma CreateKeepsInv(s: State, call: CallId, minted: IntentId, seen: IntentStatus, raises: bool)
    requires Inv(s)
    ensures Inv(Next(s, CreateIntent(call, minted, seen, raises)))
  {
    var t := Next(s, CreateIntent(call, minted, seen, raises));
    if call in s.calls && s.calls[call].Holding? {
      var c := s.calls[call];
      if c.request.keyHash !in s.providerKeys && minted !in s.intents {
        MintKeepsRows(s, t, minted, Intent(c.item, c.request.keyHash, seen));
        forall k | k in t.calls
          ensures CallIsBacked(t, t.calls[k])
        {
          if k != call {
            assert CallIsBacked(s, s.calls[k]);
          }
        }
      }
    }
  }

  /** A new intent whose item is taken under its key disturbs no row and no other intent. */
  lemma MintKeepsRows(s: State, t: State, minted: IntentId, intent: Intent)
    requires Inv(s) && minted !in s.intents && intent.keyHash !in s.providerKeys
    requires TakenBy(s.items, intent.item, intent.keyHash)
    requires t.items == s.items && t.snapshots == s.snapshots
    requires t.intents == s.intents[minted := intent]
    requires t.providerKeys == s.providerKeys[intent.keyHash := minted]
    ensures ProviderKeysNameIntents(t) && LiveIntentsHoldTheirItem(t) && SnapshotsAreTruthful(t) && RowsAgree(t)
  {
    forall i | Live(t, i)
      ensures TakenBy(t.items, t.intents[i].item, t.intents[i].keyHash)
    {
      if i != minted {
        assert Live(s, i);
      }
    }
    forall id | id in t.items
      ensures RowAgrees(t, id)
    {
      assert RowAgrees(s, id);
    }
  }

  lemma RecordKeepsInv(s: State, call: CallId)
    requires Inv(s)
    ensures Inv(Next(s, RecordIntent(call)))
  {
    var t := Next(s, RecordIntent(call));
    forall i | Live(t, i)
      ensures TakenBy(t.items, t.intents[i].item, t.intents[i].keyHash)
    {
      assert Live(s, i);
    }
    forall id | id in t.items
      ensures RowAgrees(t, id)
    {
      assert RowAgrees(s, id);
    }
  }

  /** Seeding, soft deletion and claiming an OPEN row: the row touched was not taken by anyone. */
  lemma RowChangeKeepsInv(s: State, t: State, id: ItemId)
    requires Inv(s)
    requires t.intents == s.intents && t.providerKeys == s.providerKeys && t.snapshots == s.snapshots
    requires id in t.items && t.items == s.items[id := t.items[id]]
    requires RowAgrees(t, id)
    requires id in s.items ==>
               || t.items[id] == s.items[id].(deleted := true)
               || (s.items[id].status != RESERVED && s.items[id].status != CONSUMED)
    requires CallsAreBacked(t)
    ensures Inv(t)
  {
    forall i | Live(t, i)
      ensures TakenBy(t.items, t.intents[i].item, t.intents[i].keyHash)
    {
      assert Live(s, i);
      assert TakenBy(s.items, s.intents[i].item, s.intents[i].keyHash);
    }
    forall other | other in t.items
      ensures RowAgrees(t, other)
    {
      if other != id {
        assert RowAgrees(s, other);
      }
    }
  }

  lemma ClaimKeepsInv(s: State, call: CallId)
    requires Inv(s)
    ensures Inv(Next(s, ClaimItem(call)))
  {
    if call in s.calls && s.calls[call].SawOpen? {
      var c := s.calls[call];
      var t := Next(s, ClaimItem(call));
      if MayClaim(s.items, c.item) {
        assert RowAgrees(s, c.item);
        forall k | k in t.calls
          ensures CallIsBacked(t, t.calls[k])
        {
          if k != call {
            assert CallIsBacked(s, s.calls[k]);
          }
        }
        RowChangeKeepsInv(s, t, c.item);
      } else {
        MoveCallKeepsInv(s, call, t.calls[call]);
      }
    }
  }

  lemma AddItemKeepsInv(s: State, id: ItemId, item: Item)
    requires Inv(s)
    ensures Inv(Next(s, AddItem(id, item)))
  {
    var t := Next(s, AddItem(id, item));
    if t != s {
      assert forall k :: k in s.calls ==> CallIsBacked(s, s.calls[k]) && CallIsBacked(t, t.calls[k]);
      RowChangeKeepsInv(s, t, id);
    }
  }

  lemma SoftDeleteKeepsInv(s: State, id: ItemId)
    requires Inv(s)
    ensures Inv(Next(s, SoftDelete(id)))
  {
    if id in s.items {
      var t := Next(s, SoftDelete(id));
      assert RowAgrees(s, id);
      assert forall k :: k in s.calls ==> CallIsBacked(s, s.calls[k]) && CallIsBacked(t, t.calls[k]);
      RowChangeKeepsInv(s, t, id);
    }
  }

  /** The provider moves an unfinished intent on, or hands out its current status. */
  lemma ProviderStepKeepsInv(s: State, step: Step)
    requires Inv(s) && (step.Advance? || step.Observe?)
    ensures Inv(Next(s, step))
  {
    var t := Next(s, step);
    forall i | Live(t, i)
      ensures TakenBy(t.items, t.intents[i].item, t.intents[i].keyHash)
    {
      assert Live(s, i);
    }
    forall id | id in t.items
      ensures RowAgrees(t, id)
    {
      assert RowAgrees(s, id);
    }
    assert forall k :: k in s.calls ==> CallIsBacked(s, s.calls[k]);
  }

  /** Steps that only move a call along. */
  lemma MoveCallKeepsInv(s: State, call: CallId, c: Call)
    requires Inv(s) && CallIsBacked(s, c)
    ensures Inv(s.(calls := s.calls[call := c]))
  {
    var t := s.(calls := s.calls[call := c]);
    forall id | id in t.items
      ensures RowAgrees(t, id)
    {
      assert RowAgrees(s, id);
    }
    assert forall i :: Live(t, i) ==> Live(s, i);
    forall k | k in t.calls
      ensures CallIsBacked(t, t.calls[k])
    {
      assert k != call ==> CallIsBacked(s, s.calls[k]);
    }
  }

  lemma FindKeepsInv(s: State, call: CallId, found: Option<ItemId>, now: Time)
    requires Inv(s)
    ensures Inv(Next(s, Find(call, found, now)))
  {
    var t := Next(s, Find(call, found, now));
    if t != s {
      MoveCallKeepsInv(s, call, t.calls[call]);
    }
  }

  lemma NextKeepsInv(s: State, step: Step)
    requires Inv(s)
    ensures Inv(Next(s, step))
  {
    match step
    case AddItem(id, item) => AddItemKeepsInv(s, id, item);
    case SoftDelete(id) => SoftDeleteKeepsInv(s, id);
    case Begin(call, request) => MoveCallKeepsInv(s, call, Reserving(request, 0));
    case Find(call, found, now) => FindKeepsInv(s, call, found, now);
    case ClaimItem(call) => ClaimKeepsInv(s, call);
    case GiveUp(call) => MoveCallKeepsInv(s, call, Failed);
    case CreateIntent(call, minted, seen, raises) => CreateKeepsInv(s, call, minted, seen, raises);
    case RecordIntent(call) => RecordKeepsInv(s, call);
    case Advance(_, _) => ProviderStepKeepsInv(s, step);
    case Observe(_) => ProviderStepKeepsInv(s, step);
    case ProjectSnapshot(m) => ProjectKeepsInv(s, m);
  }

  lemma {:induction false} RunKeepsInv(s: State, steps: seq<Step>)
    requires Inv(s)
    ensures Inv(Run(s, steps))
    decreases |steps|
  {
    if steps != [] {
      NextKeepsInv(s, steps[0]);
      RunKeepsInv(Next(s, steps[0]), steps[1..]);
    }
  }

  // ---------------------------------------------------------------------------------------------
  // What the invariant buys
  // ---------------------------------------------------------------------------------------------

  /** In every interleaving an item has at most one PaymentIntent that is not canceled. */
  lemma AtMostOneLiveIntent(steps: seq<Step>, i: IntentId, j: IntentId)
    requires var s := Run(Init(), steps); Live(s, i) && Live(s, j) && s.intents[i].item == s.intents[j].item
    ensures i == j
  {
    RunKeepsInv(Init(), steps);
    var s := Run(Init(), steps);
    assert TakenBy(s.items, s.intents[i].item, s.intents[i].keyHash);
    assert TakenBy(s.items, s.intents[j].item, s.intents[j].keyHash);
  }

  /** A CONSUMED item was paid by a succeeded intent made for it, and no intent pays for two items. */
  lemma ConsumedItemsArePaid(steps: seq<Step>, a: ItemId, b: ItemId)
    ensures var s := Run(Init(), steps);
      && (a in s.items && s.items[a].status == CONSUMED ==>
            && s.items[a].paymentIntentId.Some?
            && s.items[a].paymentIntentId.value in s.intents
            && s.intents[s.items[a].paymentIntentId.value].item == a
            && s.intents[s.items[a].paymentIntentId.value].status == Succeeded)
      && (a in s.items && b in s.items && s.items[a].paymentIntentId.Some?
          && s.items[a].paymentIntentId == s.items[b].paymentIntentId
          ==> a == b)
  {
    RunKeepsInv(Init(), steps);
    var s := Run(Init(), steps);
    if a in s.items { assert RowAgrees(s, a); }
    if b in s.items { assert RowAgrees(s, b); }
  }

  /** Two answers for the same business key, however many retries apart, name the same payment. */
  lemma RetriesResumeOnePayment(steps: seq<Step>, k: CallId, l: CallId)
    requires var s := Run(Init(), steps);
      && k in s.calls && l in s.calls && s.calls[k].Charged? && s.calls[l].Charged?
      && s.calls[k].request.keyHash == s.calls[l].request.keyHash
    ensures var s := Run(Init(), steps);
      s.calls[k].intent == s.calls[l].intent && s.calls[k].item == s.calls[l].item
  {
    RunKeepsInv(Init(), steps);
  }

  /** CONSUMED is never left, and the payment recorded on it never changes. */
  lemma ConsumedStep(s: State, step: Step, id: ItemId)
    requires Inv(s) && id in s.items && s.items[id].status == CONSUMED
    ensures var t := Next(s, step);
      && id in t.items && t.items[id].status == CONSUMED
      && t.items[id].paymentIntentId == s.items[id].paymentIntentId
      && t.items[id].reservationKeyHash == s.items[id].reservationKeyHash
  {
    assert RowAgrees(s, id);
  }

  lemma {:induction false} ConsumedForever(s: State, steps: seq<Step>, id: ItemId)
    requires Inv(s) && id in s.items && s.items[id].status == CONSUMED
    ensures var t := Run(s, steps);
      && id in t.items && t.items[id].status == CONSUMED
      && t.items[id].paymentIntentId == s.items[id].paymentIntentId
    decreases |steps|
  {
    if steps != [] {
      NextKeepsInv(s, steps[0]);
      ConsumedStep(s, steps[0], id);
      ConsumedForever(Next(s, steps[0]), steps[1..], id);
    }
  }

  /**
   * Reconciliation: whatever the API process managed to write before it crashed, a webhook for a
   * succeeded intent leaves its item CONSUMED by that intent (unless the row was soft-deleted).
   */
  lemma SucceededWebhookConsumes(steps: seq<Step>, m: Snapshot)
    requires var s := Run(Init(), steps);
      && m in s.snapshots && m.seen == Succeeded
    ensures var s := Run(Init(), steps); var t := Next(s, ProjectSnapshot(m));
      && m.intent in s.intents && s.intents[m.intent].item in s.items
      && var id := s.intents[m.intent].item;
         !s.items[id].deleted ==>
           t.items[id].status == CONSUMED && t.items[id].paymentIntentId == Some(m.intent)
  {
    RunKeepsInv(Init(), steps);
    var s := Run(Init(), steps);
    var id := s.intents[m.intent].item;
    assert Live(s, m.intent);
    assert TakenBy(s.items, id, s.intents[m.intent].keyHash);
    assert RowAgrees(s, id);
  }

  /**
   * A row goes back to OPEN only through a webhook, and only once the intent its key names is
   * canceled: nobody can still be paying under the reservation that is given up.
   */
  lemma ReopenedOnlyAfterCancel(s: State, step: Step, id: ItemId)
    requires Inv(s) && id in s.items && s.items[id].status == RESERVED
    requires Next(s, step).items[id].status != RESERVED && Next(s, step).items[id].status != CONSUMED
    ensures s.items[id].reservationKeyHash.Some?
    ensures s.items[id].reservationKeyHash.value in s.providerKeys
    ensures s.intents[s.providerKeys[s.items[id].reservationKeyHash.value]] ==
            Intent(id, s.items[id].reservationKeyHash.value, Canceled)
    ensures forall i :: Live(s, i) ==> s.intents[i].item != id
  {
    assert step.ProjectSnapshot?;
    var intent := s.intents[step.snapshot.intent];
    forall i | Live(s, i)
      ensures s.intents[i].item != id
    {
      assert TakenBy(s.items, s.intents[i].item, s.intents[i].keyHash);
    }
  }

  /** Every step of the protocol is an interference the reservation loop is prepared for. */
  lemma StepsInterfere(s: State, step: Step)
    requires Inv(s)
    ensures Interference(s.items, Next(s, step).items)
  {
    forall id | id in s.items && s.items[id].status == CONSUMED
      ensures id in Next(s, step).items && Next(s, step).items[id].status == CONSUMED
      ensures Next(s, step).items[id].reservationKeyHash == s.items[id].reservationKeyHash
    {
      ConsumedStep(s, step, id);
    }
  }
}
