/**
 * The projection of payment events onto payment rows: `upsertPayment`, ordered by event creation time
 * and event id, and the retry around it. Status and cursor only; the optional columns are left out.
 */
module Payments {
  import opened Wrappers

  type IntentId = nat
  type EventId = nat
  type Time = nat

  datatype Event = Event(intent: IntentId, id: EventId, createdAt: Time, status: string, authoritative: bool)

  /** The last event projected; rows older than the column have none. */
  datatype Cursor = Cursor(createdAt: Time, id: EventId)

  datatype Payment = Payment(status: string, cursor: Option<Cursor>)

  type Table = map<IntentId, Payment>

  predicate Before(a: Cursor, b: Cursor) {
    a.createdAt < b.createdAt || (a.createdAt == b.createdAt && a.id < b.id)
  }

  function CursorOf(e: Event): Cursor {
    Cursor(e.createdAt, e.id)
  }

  /** The guard of the second statement. */
  predicate MayProject(p: Payment, e: Event) {
    e.authoritative || p.cursor.None? || Before(p.cursor.value, CursorOf(e))
  }

  function Projected(e: Event): Payment {
    Payment(e.status, Some(CursorOf(e)))
  }

  function Apply(t: Table, e: Event): Table {
    var upserted := if e.intent in t then t else t[e.intent := Projected(e)];
    if MayProject(upserted[e.intent], e) then upserted[e.intent := Projected(e)] else upserted
  }

  function ApplyAll(t: Table, events: seq<Event>): Table {
    if events == [] then t else Apply(ApplyAll(t, events[..|events| - 1]), events[|events| - 1])
  }

  // ---------------------------------------------------------------------------------------------
  // What deliveries can leave
  // ---------------------------------------------------------------------------------------------

  lemma BeforeIsTotal(a: Cursor, b: Cursor)
    ensures Before(a, b) || Before(b, a) || a == b
  {
  }

  lemma BeforeIsTransitive(a: Cursor, b: Cursor, c: Cursor)
    ensures (a == b || Before(a, b)) && Before(b, c) ==> Before(a, c)
  {
  }

  /** A delivery of exactly these events, in any order, each any number of times. */
  predicate Delivers(order: seq<Event>, events: seq<Event>) {
    (forall e :: e in order ==> e in events) && (forall e :: e in events ==> e in order)
  }

  predicate Leaves(t: Table, order: seq<Event>, intent: IntentId, p: Payment) {
    intent in ApplyAll(t, order) && ApplyAll(t, order)[intent] == p
  }

  /** Some delivery of the events on top of this table leaves this row. */
  ghost predicate CanLeave(t: Table, events: seq<Event>, intent: IntentId, p: Payment) {
    exists order :: Delivers(order, events) && Leaves(t, order, intent, p)
  }

  /** Every delivery of the events on top of this table leaves this row. */
  ghost predicate EveryDeliveryLeaves(t: Table, events: seq<Event>, intent: IntentId, p: Payment) {
    forall order :: Delivers(order, events) ==> Leaves(t, order, intent, p)
  }

  /** The event whose projection the intent's row already holds; a row without a cursor names none. */
  function Recorded(t: Table, intent: IntentId): seq<Event> {
    if intent in t && t[intent].cursor.Some? then
      [Event(intent, t[intent].cursor.value.id, t[intent].cursor.value.createdAt, t[intent].status, false)]
    else []
  }

  /** The events that compete for the row. */
  function Candidates(t: Table, events: seq<Event>, intent: IntentId): seq<Event> {
    Recorded(t, intent) + events
  }

  predicate HasEvent(events: seq<Event>, intent: IntentId) {
    exists e :: e in events && e.intent == intent
  }

  predicate IsAuthority(events: seq<Event>, intent: IntentId, a: Event) {
    a in events && a.intent == intent && a.authoritative
  }

  predicate HasAuthority(events: seq<Event>, intent: IntentId) {
    exists a | a in events :: IsAuthority(events, intent, a)
  }

  /** No event of this intent in the list is later than this one. */
  predicate NoneLater(e: Event, events: seq<Event>, intent: IntentId) {
    forall other :: other in events && other.intent == intent ==> !Before(CursorOf(e), CursorOf(other))
  }

  /**
   * The candidates whose projection a delivery can leave. With authoritative events among those
   * delivered: these, and whatever is later than one of them. Without: the latest, the recorded event
   * before all others of the same cursor.
   */
  predicate MayWin(t: Table, events: seq<Event>, intent: IntentId, e: Event) {
    && e in Candidates(t, events, intent) && e.intent == intent
    && if HasAuthority(events, intent) then
         e in events
         && (e.authoritative || exists a | a in events :: IsAuthority(events, intent, a) && Before(CursorOf(a), CursorOf(e)))
       else
         NoneLater(e, events, intent)
         && forall r :: r in Recorded(t, intent) ==> r == e || Before(CursorOf(r), CursorOf(e))
  }

  lemma {:induction false} IntentIsUntouched(t: Table, events: seq<Event>, intent: IntentId)
    requires !HasEvent(events, intent)
    ensures intent in ApplyAll(t, events) <==> intent in t
    ensures intent in t ==> ApplyAll(t, events)[intent] == t[intent]
    decreases |events|
  {
    if events != [] {
      assert events[|events| - 1] in events;
      assert forall e :: e in events[..|events| - 1] ==> e in events;
      IntentIsUntouched(t, events[..|events| - 1], intent);
    }
  }

  lemma ApplyLast(t: Table, events: seq<Event>, e: Event)
    ensures ApplyAll(t, events + [e]) == Apply(ApplyAll(t, events), e)
  {
    assert (events + [e])[..|events|] == events;
  }

  lemma NextRow(t: Table, before: seq<Event>, last: Event, intent: IntentId, sofar: Event)
    requires Leaves(t, before, intent, Projected(sofar))
    ensures Leaves(t, before + [last], intent,
                   Projected(if last.intent == intent && MayProject(Projected(sofar), last) then last else sofar))
  {
    ApplyLast(t, before, last);
  }

  lemma AuthorityOfOneMore(before: seq<Event>, last: Event, intent: IntentId)
    ensures HasAuthority(before + [last], intent) <==>
      HasAuthority(before, intent) || (last.intent == intent && last.authoritative)
  {
    if HasAuthority(before, intent) {
      var a :| a in before && IsAuthority(before, intent, a);
      assert IsAuthority(before + [last], intent, a);
    }
    if last.intent == intent && last.authoritative {
      assert IsAuthority(before + [last], intent, last);
    }
  }

  /** The winner so far stays, unless the next event beats it. */
  lemma WinnerStays(t: Table, before: seq<Event>, last: Event, intent: IntentId, sofar: Event)
    requires MayWin(t, before, intent, sofar)
    requires last.intent == intent ==> !MayProject(Projected(sofar), last)
    ensures MayWin(t, before + [last], intent, sofar)
  {
    AuthorityOfOneMore(before, last, intent);
    if HasAuthority(before, intent) && !sofar.authoritative {
      var a :| a in before && IsAuthority(before, intent, a) && Before(CursorOf(a), CursorOf(sofar));
      assert IsAuthority(before + [last], intent, a);
    }
  }

  lemma WinnerIsBeaten(t: Table, before: seq<Event>, last: Event, intent: IntentId, sofar: Event)
    requires MayWin(t, before, intent, sofar)
    requires last.intent == intent && MayProject(Projected(sofar), last)
    ensures MayWin(t, before + [last], intent, last)
  {
    AuthorityOfOneMore(before, last, intent);
    assert last.authoritative || Before(CursorOf(sofar), CursorOf(last));
    if last.authoritative {
    } else if HasAuthority(before, intent) {
      var a :| a in before && IsAuthority(before, intent, a) && (a == sofar || Before(CursorOf(a), CursorOf(sofar)));
      BeforeIsTransitive(CursorOf(a), CursorOf(sofar), CursorOf(last));
      assert IsAuthority(before + [last], intent, a);
    } else {
      forall other | other in before + [last] && other.intent == intent
        ensures !Before(CursorOf(last), CursorOf(other))
      {
        if other in before {
          assert !Before(CursorOf(sofar), CursorOf(other));
        }
      }
    }
  }

  lemma FirstWins(t: Table, before: seq<Event>, last: Event, intent: IntentId)
    requires !HasEvent(Candidates(t, before, intent), intent) && last.intent == intent
    ensures MayWin(t, before + [last], intent, last)
    ensures Leaves(t, before + [last], intent, Projected(last))
  {
    NothingCompetes(t, before, intent);
    IntentIsUntouched(t, before, intent);
    ApplyLast(t, before, last);
    AuthorityOfOneMore(before, last, intent);
    assert forall a :: IsAuthority(before, intent, a) ==> a in before;
  }

  lemma RecordedCompetes(t: Table, events: seq<Event>, intent: IntentId)
    ensures Recorded(t, intent) != [] ==> HasEvent(Candidates(t, events, intent), intent)
  {
    if Recorded(t, intent) != [] {
      assert Recorded(t, intent)[0] in Candidates(t, events, intent);
    }
  }

  lemma NothingCompetes(t: Table, events: seq<Event>, intent: IntentId)
    requires !HasEvent(Candidates(t, events, intent), intent)
    ensures Recorded(t, intent) == [] && !HasEvent(events, intent)
  {
    assert forall e :: e in events ==> e in Candidates(t, events, intent);
    RecordedCompetes(t, events, intent);
  }

  lemma OnlyTheLastCompetes(t: Table, before: seq<Event>, last: Event, intent: IntentId)
    ensures HasEvent(Candidates(t, before + [last], intent), intent) <==>
      HasEvent(Candidates(t, before, intent), intent) || last.intent == intent
  {
    assert Candidates(t, before + [last], intent) == Candidates(t, before, intent) + [last];
  }

  /** Every delivery leaves the projection of a candidate that may win. */
  lemma {:induction false} SomeCandidateWins(t: Table, order: seq<Event>, intent: IntentId) returns (e: Event)
    requires HasEvent(Candidates(t, order, intent), intent)
    ensures MayWin(t, order, intent, e) && Leaves(t, order, intent, Projected(e))
    decreases |order|
  {
    if order == [] {
      e :| e in Recorded(t, intent);
    } else {
      var before, last := order[..|order| - 1], order[|order| - 1];
      assert order == before + [last];
      hide MayWin, Leaves, HasEvent, Candidates, MayProject;
      if HasEvent(Candidates(t, before, intent), intent) {
        var sofar := SomeCandidateWins(t, before, intent);
        NextRow(t, before, last, intent, sofar);
        if last.intent == intent && MayProject(Projected(sofar), last) {
          WinnerIsBeaten(t, before, last, intent, sofar);
          e := last;
        } else {
          WinnerStays(t, before, last, intent, sofar);
          e := sofar;
        }
      } else {
        OnlyTheLastCompetes(t, before, last, intent);
        FirstWins(t, before, last, intent);
        e := last;
      }
    }
  }

  /** Which candidates may win does not depend on the delivery. */
  lemma DeliveriesAgree(t: Table, order: seq<Event>, events: seq<Event>, intent: IntentId, e: Event)
    requires Delivers(order, events)
    ensures MayWin(t, order, intent, e) <==> MayWin(t, events, intent, e)
  {
  }

  lemma DeliveriesCompete(t: Table, order: seq<Event>, events: seq<Event>, intent: IntentId)
    requires Delivers(order, events)
    ensures HasEvent(Candidates(t, order, intent), intent) <==> HasEvent(Candidates(t, events, intent), intent)
  {
  }

  lemma {:induction false} ApplyAllFrom(t: Table, first: Event, events: seq<Event>)
    ensures ApplyAll(t, [first] + events) == ApplyAll(Apply(t, first), events)
    decreases |events|
  {
    var all := [first] + events;
    if events == [] {
      assert all[..0] == [];
    } else {
      assert all[..|all| - 1] == [first] + events[..|events| - 1];
      ApplyAllFrom(t, first, events[..|events| - 1]);
    }
  }

  /** A row stays through events that are neither authoritative nor later. */
  lemma {:induction false} LatestStays(t: Table, e: Event, events: seq<Event>)
    requires e.intent in t && t[e.intent] == Projected(e)
    requires !HasAuthority(events, e.intent) && NoneLater(e, events, e.intent)
    ensures Leaves(t, events, e.intent, Projected(e))
    decreases |events|
  {
    if events != [] {
      var before, last := events[..|events| - 1], events[|events| - 1];
      assert last in events && forall o :: o in before ==> o in events;
      assert last.intent == e.intent && last.authoritative ==> IsAuthority(events, e.intent, last);
      assert forall a :: a in before && IsAuthority(before, e.intent, a) ==> IsAuthority(events, e.intent, a);
      LatestStays(t, e, before);
    }
  }

  /** The delivery that lets this candidate win. */
  lemma CandidateWins(t: Table, events: seq<Event>, intent: IntentId, e: Event) returns (order: seq<Event>)
    requires MayWin(t, events, intent, e)
    ensures Delivers(order, events) && Leaves(t, order, intent, Projected(e))
  {
    if HasAuthority(events, intent) {
      if e.authoritative {
        order := events + [e];
        ApplyLast(t, events, e);
      } else {
        var a :| a in events && IsAuthority(events, intent, a) && Before(CursorOf(a), CursorOf(e));
        order := (events + [a]) + [e];
        ApplyLast(t, events, a);
        ApplyLast(t, events + [a], e);
      }
    } else if e in Recorded(t, intent) {
      order := events;
      LatestStays(t, e, events);
    } else {
      order := [e] + events;
      assert |Recorded(t, intent)| > 0 ==> Recorded(t, intent)[0] in Recorded(t, intent);
      ApplyAllFrom(t, e, events);
      LatestStays(Apply(t, e), e, events);
    }
  }

  /**
   * What deliveries can leave, for every table and list of events: exactly the projections of the
   * candidates that may win, or, with no candidate, the row as it was.
   */
  lemma DeliveriesLeaveExactly(t: Table, events: seq<Event>, intent: IntentId, p: Payment)
    ensures CanLeave(t, events, intent, p) <==>
      if HasEvent(Candidates(t, events, intent), intent) then exists e :: MayWin(t, events, intent, e) && Projected(e) == p
      else intent in t && t[intent] == p
  {
    hide MayWin;
    if HasEvent(Candidates(t, events, intent), intent) {
      if order :| Delivers(order, events) && Leaves(t, order, intent, p) {
        DeliveriesCompete(t, order, events, intent);
        var e := SomeCandidateWins(t, order, intent);
        DeliveriesAgree(t, order, events, intent, e);
      }
      if e :| MayWin(t, events, intent, e) && Projected(e) == p {
        var order := CandidateWins(t, events, intent, e);
      }
    } else {
      forall order | Delivers(order, events)
        ensures Leaves(t, order, intent, p) <==> intent in t && t[intent] == p
      {
        DeliveriesCompete(t, order, events, intent);
        NothingCompetes(t, order, intent);
        IntentIsUntouched(t, order, intent);
      }
      assert Delivers(events, events);
    }
  }

  // ---------------------------------------------------------------------------------------------
  // When order does not matter
  // ---------------------------------------------------------------------------------------------

  predicate SameRow(a: Table, b: Table, intent: IntentId) {
    (intent in a <==> intent in b) && (intent in a ==> a[intent] == b[intent])
  }

  ghost predicate OrderIsIrrelevant(t: Table, events: seq<Event>, intent: IntentId) {
    forall a, b :: Delivers(a, events) && Delivers(b, events) ==> SameRow(ApplyAll(t, a), ApplyAll(t, b), intent)
  }

  /**
   * Authoritative events of the intent, where there are any, all project the same row and nothing is
   * later; where there are none, the latest candidates have one status.
   */
  ghost predicate Settled(t: Table, events: seq<Event>, intent: IntentId) {
    if HasAuthority(events, intent) then
      forall a, e :: IsAuthority(events, intent, a) && e in events && e.intent == intent ==>
        !Before(CursorOf(a), CursorOf(e)) && (e.authoritative ==> Projected(e) == Projected(a))
    else
      forall d, e :: MayWin(t, events, intent, d) && MayWin(t, events, intent, e) ==> d.status == e.status
  }

  /** Without authoritative events, candidates that may win have one cursor. */
  lemma LatestShareCursor(t: Table, events: seq<Event>, intent: IntentId, d: Event, e: Event)
    requires !HasAuthority(events, intent) && MayWin(t, events, intent, d) && MayWin(t, events, intent, e)
    ensures CursorOf(d) == CursorOf(e)
  {
    BeforeIsTotal(CursorOf(d), CursorOf(e));
  }

  lemma SettledMeansOneWinner(t: Table, events: seq<Event>, intent: IntentId, d: Event, e: Event)
    requires Settled(t, events, intent) && MayWin(t, events, intent, d) && MayWin(t, events, intent, e)
    ensures Projected(d) == Projected(e)
  {
    if HasAuthority(events, intent) {
      assert IsAuthority(events, intent, d) && IsAuthority(events, intent, e);
    } else {
      LatestShareCursor(t, events, intent, d, e);
    }
  }

  lemma OneWinnerMeansSettled(t: Table, events: seq<Event>, intent: IntentId)
    requires forall d, e :: MayWin(t, events, intent, d) && MayWin(t, events, intent, e) ==> Projected(d) == Projected(e)
    ensures Settled(t, events, intent)
  {
    if HasAuthority(events, intent) {
      forall a, e | IsAuthority(events, intent, a) && e in events && e.intent == intent
        ensures !Before(CursorOf(a), CursorOf(e)) && (e.authoritative ==> Projected(e) == Projected(a))
      {
        assert MayWin(t, events, intent, a);
        if e.authoritative || Before(CursorOf(a), CursorOf(e)) {
          assert MayWin(t, events, intent, e);
        }
      }
    }
  }

  /**
   * Exactly when order does not matter, for every table and list of events: all deliveries, reordered
   * or repeated, leave the same row if and only if the events are settled.
   */
  lemma DeliveryOrderDoesNotMatter(t: Table, events: seq<Event>, intent: IntentId)
    ensures OrderIsIrrelevant(t, events, intent) <==> Settled(t, events, intent)
  {
    hide MayWin, Settled, Delivers;
    if OrderIsIrrelevant(t, events, intent) {
      forall d, e | MayWin(t, events, intent, d) && MayWin(t, events, intent, e)
        ensures Projected(d) == Projected(e)
      {
        var a := CandidateWins(t, events, intent, d);
        var b := CandidateWins(t, events, intent, e);
        assert SameRow(ApplyAll(t, a), ApplyAll(t, b), intent);
      }
      OneWinnerMeansSettled(t, events, intent);
    }
    if Settled(t, events, intent) {
      forall a, b | Delivers(a, events) && Delivers(b, events)
        ensures SameRow(ApplyAll(t, a), ApplyAll(t, b), intent)
      {
        DeliveriesCompete(t, a, events, intent);
        DeliveriesCompete(t, b, events, intent);
        if HasEvent(Candidates(t, events, intent), intent) {
          var d := SomeCandidateWins(t, a, intent);
          var e := SomeCandidateWins(t, b, intent);
          DeliveriesAgree(t, a, events, intent, d);
          DeliveriesAgree(t, b, events, intent, e);
          SettledMeansOneWinner(t, events, intent, d, e);
        } else {
          NothingCompetes(t, a, intent);
          NothingCompetes(t, b, intent);
          IntentIsUntouched(t, a, intent);
          IntentIsUntouched(t, b, intent);
        }
      }
    }
  }

  /** A candidate none is later than. */
  predicate Greatest(t: Table, events: seq<Event>, intent: IntentId, g: Event) {
    g in Candidates(t, events, intent) && g.intent == intent && NoneLater(g, Candidates(t, events, intent), intent)
  }

  /** What was not read from the provider is the payload of its event: one cursor, one status. */
  predicate PayloadsAgree(events: seq<Event>, intent: IntentId) {
    forall d, e :: d in events && e in events && d.intent == e.intent == intent && !d.authoritative && !e.authoritative
      && CursorOf(d) == CursorOf(e)
      ==> d.status == e.status
  }

  /** Every authoritative event of the intent projects this row. */
  predicate AuthoritiesProject(events: seq<Event>, intent: IntentId, p: Payment) {
    forall a :: a in events && IsAuthority(events, intent, a) ==> Projected(a) == p
  }

  lemma GreatestAlone(t: Table, events: seq<Event>, intent: IntentId, g: Event, e: Event)
    requires Greatest(t, events, intent, g) && PayloadsAgree(Candidates(t, events, intent), intent)
    requires AuthoritiesProject(events, intent, Projected(g)) && MayWin(t, events, intent, e)
    ensures Projected(e) == Projected(g)
  {
    if HasAuthority(events, intent) {
      assert IsAuthority(events, intent, e);
    } else {
      assert g in events ==> !IsAuthority(events, intent, g);
      assert e in events ==> !IsAuthority(events, intent, e);
      BeforeIsTotal(CursorOf(g), CursorOf(e));
    }
  }

  /**
   * Exactly when delivery is harmless, whatever row the intent starts with: every order and every
   * repetition leaves the row of a greatest candidate if and only if no candidate that may win projects
   * another; with payloads that agree, if and only if every authoritative event projects that row.
   */
  lemma DeliveryIsHarmlessExactly(t: Table, events: seq<Event>, intent: IntentId, g: Event)
    requires Greatest(t, events, intent, g)
    ensures EveryDeliveryLeaves(t, events, intent, Projected(g)) <==>
      forall e :: MayWin(t, events, intent, e) ==> Projected(e) == Projected(g)
    ensures PayloadsAgree(Candidates(t, events, intent), intent) ==>
      (EveryDeliveryLeaves(t, events, intent, Projected(g)) <==> AuthoritiesProject(events, intent, Projected(g)))
  {
    EveryWinnerIsLeft(t, events, intent, Projected(g));
    if PayloadsAgree(Candidates(t, events, intent), intent) && AuthoritiesProject(events, intent, Projected(g)) {
      forall e | MayWin(t, events, intent, e)
        ensures Projected(e) == Projected(g)
      {
        GreatestAlone(t, events, intent, g, e);
      }
    }
    forall a | a in events && IsAuthority(events, intent, a)
      ensures MayWin(t, events, intent, a)
    {
    }
  }

  lemma EveryWinnerIsLeft(t: Table, events: seq<Event>, intent: IntentId, p: Payment)
    requires HasEvent(Candidates(t, events, intent), intent)
    ensures EveryDeliveryLeaves(t, events, intent, p) <==> forall e :: MayWin(t, events, intent, e) ==> Projected(e) == p
  {
    hide MayWin, Delivers;
    forall order | Delivers(order, events)
      ensures exists e :: MayWin(t, events, intent, e) && Leaves(t, order, intent, Projected(e))
    {
      DeliveriesCompete(t, order, events, intent);
      var e := SomeCandidateWins(t, order, intent);
      DeliveriesAgree(t, order, events, intent, e);
    }
    forall e | MayWin(t, events, intent, e)
      ensures exists order :: Delivers(order, events) && Leaves(t, order, intent, Projected(e))
    {
      var order := CandidateWins(t, events, intent, e);
    }
  }

  /**
   * Whatever row an intent starts with, if any, it ends with the status and cursor of the greatest
   * (createdAt, id) among the event it holds and those delivered, as long as authoritative events, if
   * there are any, project that very row.
   */
  lemma GreatestEventWins(t: Table, events: seq<Event>, intent: IntentId, g: Event)
    requires Greatest(t, events, intent, g) && PayloadsAgree(Candidates(t, events, intent), intent)
    requires AuthoritiesProject(events, intent, Projected(g))
    ensures Leaves(t, events, intent, Projected(g))
  {
    DeliveryIsHarmlessExactly(t, events, intent, g);
    assert Delivers(events, events);
  }

  predicate NoneAuthoritative(events: seq<Event>) {
    forall i :: 0 <= i < |events| ==> !events[i].authoritative
  }

  /**
   * With authoritative events that are not greatest, order matters only so far: the row is that of the
   * last authoritative event or of the greatest event delivered after it, whichever is later.
   */
  lemma {:induction false} LastAuthoritativeAndAfter(t: Table, e: Event, after: seq<Event>) returns (winner: Event)
    requires e.authoritative && NoneAuthoritative(after)
    ensures winner == e || (winner in after && winner.intent == e.intent && Before(CursorOf(e), CursorOf(winner)))
    ensures forall other :: other in after && other.intent == e.intent ==> !Before(CursorOf(winner), CursorOf(other))
    ensures e.intent in ApplyAll(Apply(t, e), after) && ApplyAll(Apply(t, e), after)[e.intent] == Projected(winner)
    decreases |after|
  {
    if after == [] {
      winner := e;
    } else {
      var last := |after| - 1;
      var sofar := LastAuthoritativeAndAfter(t, e, after[..last]);
      var next := after[last];
      winner := if next.intent == e.intent && Before(CursorOf(sofar), CursorOf(next)) then next else sofar;
      assert after == after[..last] + [next];
    }
  }

  /** An instance: two authoritative reads of one intent, of which only the second is greatest. */
  lemma AuthoritativeOrderMatters()
    ensures var stale, recent := Event(1, 1, 10, "processing", true), Event(1, 2, 20, "succeeded", true);
      !OrderIsIrrelevant(map[], [stale, recent], 1) && !EveryDeliveryLeaves(map[], [stale, recent], 1, Projected(recent))
  {
    var stale, recent := Event(1, 1, 10, "processing", true), Event(1, 2, 20, "succeeded", true);
    TwoReadsOfDifferentRows(stale, recent);
  }

  /** An instance: one event processed twice, each time with what the provider said then. */
  lemma ReprocessingOrderMatters()
    ensures var first, again := Event(1, 1, 10, "processing", true), Event(1, 1, 10, "succeeded", true);
      !OrderIsIrrelevant(map[], [first, again], 1) && !EveryDeliveryLeaves(map[], [first, again], 1, Projected(again))
  {
    var first, again := Event(1, 1, 10, "processing", true), Event(1, 1, 10, "succeeded", true);
    TwoReadsOfDifferentRows(first, again);
  }

  lemma TwoReadsOfDifferentRows(a: Event, b: Event)
    requires a.intent == b.intent && a.authoritative && b.authoritative && Projected(a) != Projected(b)
    ensures !OrderIsIrrelevant(map[], [a, b], a.intent) && !EveryDeliveryLeaves(map[], [a, b], a.intent, Projected(b))
  {
    var events := [a, b];
    assert IsAuthority(events, a.intent, a) && IsAuthority(events, a.intent, b);
    DeliveryOrderDoesNotMatter(map[], events, a.intent);
    assert MayWin(map[], events, a.intent, a);
    EveryWinnerIsLeft(map[], events, a.intent, Projected(b));
  }

  // ---------------------------------------------------------------------------------------------
  // The table
  // ---------------------------------------------------------------------------------------------

  /**
   * What the other statements of a transaction come to: they go through, having found somebody to
   * attribute the payment to or not, or violate another unique column, or fail otherwise.
   */
  datatype Luck = Unhindered(attributed: bool) | HitsAnotherColumn | Breaks

  datatype Outcome = Processed | Collided | Failed

  function IdsOf(events: seq<Event>): set<EventId> {
    set e | e in events :: e.id
  }

  /** One transaction for `e`, with `others` committed between its lookup and its insert. */
  function Attempt(t: Table, e: Event, others: seq<Event>, luck: Luck): (Outcome, Table) {
    var u := ApplyAll(t, others);
    if luck.Breaks? then (Failed, u)
    else if luck.HitsAnotherColumn? then (Collided, u)
    else if !luck.attributed then (Processed, u)
    else if e.intent !in t && e.intent in u then (Collided, u)
    else (Processed, Apply(u, e))
  }

  function Processing(t: Table, e: Event, meanwhile: seq<seq<Event>>, luck: seq<Luck>): (Outcome, Table)
    requires |meanwhile| == |luck| == 2
  {
    var (outcome, u) := Attempt(t, e, meanwhile[0], luck[0]);
    if outcome.Collided? then Attempt(u, e, meanwhile[1], luck[1]) else (outcome, u)
  }

  /** The first attempt collides, with another unique column or with the row itself. */
  predicate Retries(t: Table, e: Event, others: seq<Event>, luck: Luck) {
    luck.HitsAnotherColumn? || (luck == Unhindered(true) && e.intent in ApplyAll(t, others).Keys - t.Keys)
  }

  /**
   * Two attempts are enough against other projections of the same intent: an event is processed, and
   * projected once on top of everything that committed before if it can be attributed; a collision or
   * failure reaches the caller only through another statement.
   */
  lemma TwoAttemptsAreEnough(t: Table, e: Event, meanwhile: seq<seq<Event>>, luck: seq<Luck>)
    requires |meanwhile| == |luck| == 2
    ensures var (outcome, u) := Processing(t, e, meanwhile, luck);
      var first := ApplyAll(t, meanwhile[0]); var second := ApplyAll(first, meanwhile[1]);
      var retries := Retries(t, e, meanwhile[0], luck[0]);
      var last, below := if retries then luck[1] else luck[0], if retries then second else first;
      && (luck[0].Unhindered? && luck[1].Unhindered? ==> outcome.Processed?)
      && (outcome.Collided? ==> HitsAnotherColumn in luck)
      && (outcome.Failed? ==> Breaks in luck)
      && (outcome.Processed? ==> last.Unhindered?)
      && u == if last == Unhindered(true) && outcome.Processed? then Apply(below, e) else below
  {
  }

  class PaymentTable {
    var rows: Table
    var processed: set<EventId>

    constructor ()
      ensures rows == map[] && processed == {}
    {
      rows, processed := map[], {};
    }

    /** `upsertPayment`: create or find the row, then overwrite it under the guard. */
    method UpsertPayment(e: Event)
      modifies this`rows
      ensures rows == Apply(old(rows), e)
    {
      if e.intent !in rows {
        rows := rows[e.intent := Payment(e.status, Some(Cursor(e.createdAt, e.id)))];
      }
      var cursor := rows[e.intent].cursor;
      if e.authoritative
         || cursor.None?
         || cursor.value.createdAt < e.createdAt
         || (cursor.value.createdAt == e.createdAt && cursor.value.id < e.id)
      {
        rows := rows[e.intent := Payment(e.status, Some(Cursor(e.createdAt, e.id)))];
      }
    }

    /** Other events are projected meanwhile, and marked. */
    method OthersCommit(others: seq<Event>)
      modifies this
      ensures rows == ApplyAll(old(rows), others) && processed == old(processed) + IdsOf(others)
    {
      rows := ApplyAll(rows, others);
      processed := processed + IdsOf(others);
    }

    /**
     * One transaction that projects `e`, if it can be attributed, and marks it processed, while `others`
     * commit between its lookup and its insert. An insert that meets a row which was not there at the lookup violates the unique
     * intent id; whenever the transaction fails, it leaves nothing behind.
     */
    method TryUpsert(e: Event, others: seq<Event>, luck: Luck) returns (outcome: Outcome)
      modifies this
      ensures (outcome, rows) == Attempt(old(rows), e, others, luck)
      ensures processed == old(processed) + IdsOf(others) + if outcome.Processed? then {e.id} else {}
    {
      var found := e.intent in rows;
      OthersCommit(others);
      if luck.Breaks? {
        return Failed;
      }
      if luck.HitsAnotherColumn? || (luck.attributed && !found && e.intent in rows) {
        return Collided;
      }
      if luck.attributed {
        UpsertPayment(e);
      }
      processed := processed + {e.id};
      return Processed;
    }

    /**
     * The loop of `processStoredStripeEvent` on the payment row: a collision is retried once, and
     * whatever else fails is the caller's. The event is marked exactly when its transaction commits.
     */
    method ProcessStoredEvent(e: Event, meanwhile: seq<seq<Event>>, luck: seq<Luck>) returns (outcome: Outcome)
      requires |meanwhile| == |luck| == 2
      modifies this
      ensures (outcome, rows) == Processing(old(rows), e, meanwhile, luck)
      ensures processed == old(processed) + IdsOf(meanwhile[0])
                           + (if Retries(old(rows), e, meanwhile[0], luck[0]) then IdsOf(meanwhile[1]) else {})
                           + (if outcome.Processed? then {e.id} else {})
    {
      var attempt := 0;
      while attempt < 2
        invariant attempt <= 1
        invariant attempt == 0 ==> rows == old(rows) && processed == old(processed)
        invariant attempt == 1 ==>
                    (Collided, rows) == Attempt(old(rows), e, meanwhile[0], luck[0])
                    && processed == old(processed) + IdsOf(meanwhile[0])
      {
        outcome := TryUpsert(e, meanwhile[attempt], luck[attempt]);
        if !outcome.Collided? || attempt == 1 {
          return;
        }
        attempt := attempt + 1;
      }
    }
  }
}
