/**
 * Conversations with dense sequence numbers: idempotent sends, tombstones, read positions and the
 * catch-up reads that rely on density. Each step is one database statement; a step whose guard fails
 * leaves the state alone.
 */
module Chat {
  import opened Wrappers

  type ConversationId = nat
  type UserId = nat
  type ClientId = nat
  type CallId = nat
  type Body = nat

  const MESSAGE_PAGE_SIZE := 50
  const MAX_SAFE_INTEGER := 0x1F_FFFF_FFFF_FFFF

  datatype Conversation = Conversation(lastSeq: nat, deleted: bool)

  datatype Message = Message(sender: UserId, clientMessageId: ClientId, body: Option<Body>, deleted: bool)

  datatype Participant = Participant(lastReadSeq: nat, left: bool)

  /** `messages` is keyed by (conversation, seq), which the schema makes unique. */
  type Messages = map<(ConversationId, nat), Message>

  datatype SendInput = SendInput(conversation: ConversationId, user: UserId, clientMessageId: ClientId, body: Body)

  /** Where a call stands. A send finds its original again when its insert hits the unique constraint. */
  datatype Call =
    | Inserting(input: SendInput)
    | LookingUp(input: SendInput)
    | Sent(input: SendInput, number: nat, duplicate: bool)
    | Marking(conversation: ConversationId, user: UserId, requested: nat)
    | Finished
    | Refused

  datatype State = State(
    conversations: map<ConversationId, Conversation>,
    messages: Messages,
    participants: map<(ConversationId, UserId), Participant>,
    calls: map<CallId, Call>)

  datatype Step =
    | CreateConversation(conversation: ConversationId, members: set<UserId>)
    | DeleteConversation(conversation: ConversationId)
    | Leave(conversation: ConversationId, user: UserId)
    | BeginSend(call: CallId, input: SendInput)
    | InsertMessage(call: CallId)
    | FindDuplicate(call: CallId)
    | BeginMarkRead(call: CallId, conversation: ConversationId, user: UserId, number: nat)
    | WriteReadPosition(call: CallId)
    | DeleteMessage(conversation: ConversationId, number: nat, user: UserId)

  function Init(): State {
    State(map[], map[], map[], map[])
  }

  /** `requireParticipant`. */
  predicate Participates(s: State, conversation: ConversationId, user: UserId) {
    && (conversation, user) in s.participants && !s.participants[(conversation, user)].left
    && conversation in s.conversations && !s.conversations[conversation].deleted
  }

  predicate HasClientId(messages: Messages, conversation: ConversationId, number: nat, id: ClientId) {
    (conversation, number) in messages && messages[(conversation, number)].clientMessageId == id
  }

  predicate Taken(messages: Messages, conversation: ConversationId, id: ClientId) {
    exists k | k in messages :: k.0 == conversation && HasClientId(messages, conversation, k.1, id)
  }

  /** The statement of `sendMessage`: raise the counter, insert under it, or neither. */
  function InsertStep(s: State, call: CallId, input: SendInput): State {
    var c := input.conversation;
    if c !in s.conversations || s.conversations[c].deleted then
      s.(calls := s.calls[call := Refused])
    else
      var number := s.conversations[c].lastSeq + 1;
      if (c, number) in s.messages || Taken(s.messages, c, input.clientMessageId) then
        s.(calls := s.calls[call := LookingUp(input)])
      else
        s.(conversations := s.conversations[c := s.conversations[c].(lastSeq := number)],
           messages := s.messages[(c, number) := Message(input.user, input.clientMessageId, Some(input.body), false)],
           calls := s.calls[call := Sent(input, number, false)])
  }

  ghost function FindStep(s: State, call: CallId, input: SendInput): State {
    if Taken(s.messages, input.conversation, input.clientMessageId) then
      var k :| k in s.messages && k.0 == input.conversation
        && HasClientId(s.messages, input.conversation, k.1, input.clientMessageId);
      s.(calls := s.calls[call := Sent(input, k.1, true)])
    else
      s.(calls := s.calls[call := Refused])
  }

  /** `markRead` up to its write: refused ahead of the conversation, done already behind the position. */
  function BeginMarkStep(s: State, call: CallId, c: ConversationId, user: UserId, number: nat): State {
    if !Participates(s, c, user) || number > s.conversations[c].lastSeq then s.(calls := s.calls[call := Refused])
    else if number <= s.participants[(c, user)].lastReadSeq then s.(calls := s.calls[call := Finished])
    else s.(calls := s.calls[call := Marking(c, user, number)])
  }

  ghost function Next(s: State, step: Step): State {
    match step
    case CreateConversation(c, members) =>
      if c in s.conversations then s
      else s.(conversations := s.conversations[c := Conversation(0, false)],
              participants := s.participants + map u | u in members :: (c, u) := Participant(0, false))
    case DeleteConversation(c) =>
      if c in s.conversations then s.(conversations := s.conversations[c := s.conversations[c].(deleted := true)]) else s
    case Leave(c, u) =>
      if (c, u) in s.participants then
        s.(participants := s.participants[(c, u) := s.participants[(c, u)].(left := true)])
      else s
    case BeginSend(call, input) =>
      if call in s.calls then s
      else if Participates(s, input.conversation, input.user) then s.(calls := s.calls[call := Inserting(input)])
      else s.(calls := s.calls[call := Refused])
    case InsertMessage(call) =>
      if call in s.calls && s.calls[call].Inserting? then InsertStep(s, call, s.calls[call].input) else s
    case FindDuplicate(call) =>
      if call in s.calls && s.calls[call].LookingUp? then FindStep(s, call, s.calls[call].input) else s
    case BeginMarkRead(call, c, u, number) =>
      if call in s.calls then s else BeginMarkStep(s, call, c, u, number)
    case WriteReadPosition(call) =>
      if call in s.calls && s.calls[call].Marking? then
        var m := s.calls[call];
        var key := (m.conversation, m.user);
        if key in s.participants then
          s.(participants := s.participants[key := s.participants[key].(lastReadSeq := m.requested)],
             calls := s.calls[call := Finished])
        else s.(calls := s.calls[call := Refused])
      else s
    case DeleteMessage(c, number, u) =>
      if (c, number) in s.messages && !s.messages[(c, number)].deleted && s.messages[(c, number)].sender == u then
        s.(messages := s.messages[(c, number) := s.messages[(c, number)].(deleted := true, body := None)])
      else s
  }

  ghost function Run(s: State, steps: seq<Step>): State
    decreases |steps|
  {
    if steps == [] then s else Run(Next(s, steps[0]), steps[1..])
  }

  // ---------------------------------------------------------------------------------------------
  // The invariant
  // ---------------------------------------------------------------------------------------------

  function LastSeq(s: State, c: ConversationId): nat {
    if c in s.conversations then s.conversations[c].lastSeq else 0
  }

  /** The sequence numbers of every conversation are exactly 1 up to its counter. */
  ghost predicate Dense(s: State) {
    forall c: ConversationId, number: nat :: (c, number) in s.messages <==> 1 <= number <= LastSeq(s, c)
  }

  ghost predicate ClientIdsAreUnique(s: State) {
    forall c, i, j, id :: HasClientId(s.messages, c, i, id) && HasClientId(s.messages, c, j, id) ==> i == j
  }

  ghost predicate PositionsAgree(s: State) {
    forall p :: p in s.participants ==> s.participants[p].lastReadSeq <= LastSeq(s, p.0)
  }

  ghost predicate CallAgrees(s: State, call: Call) {
    && (call.LookingUp? ==> Taken(s.messages, call.input.conversation, call.input.clientMessageId))
    && (call.Sent? ==> HasClientId(s.messages, call.input.conversation, call.number, call.input.clientMessageId))
    && (call.Marking? ==> call.requested <= LastSeq(s, call.conversation))
  }

  ghost predicate CallsAgree(s: State) {
    && (forall k :: k in s.calls ==> CallAgrees(s, s.calls[k]))
    && (forall k, l :: k in s.calls && l in s.calls && FreshOn(s.calls[k], s.calls[l]) ==> k == l)
  }

  /** Two first sends of the same message. */
  predicate FreshOn(a: Call, b: Call) {
    && a.Sent? && b.Sent? && !a.duplicate && !b.duplicate
    && a.input.conversation == b.input.conversation && a.input.clientMessageId == b.input.clientMessageId
  }

  ghost predicate Inv(s: State) {
    Dense(s) && ClientIdsAreUnique(s) && PositionsAgree(s) && CallsAgree(s)
  }

  ghost predicate Kept(s: State, t: State, k: (ConversationId, nat))
    requires k in s.messages
  {
    && k in t.messages
    && t.messages[k].sender == s.messages[k].sender
    && t.messages[k].clientMessageId == s.messages[k].clientMessageId
  }

  /** What no step undoes: rows keep their place, counters only rise. */
  ghost predicate Grows(s: State, t: State) {
    && (forall k :: k in s.messages ==> Kept(s, t, k))
    && (forall c :: LastSeq(s, c) <= LastSeq(t, c))
  }

  lemma TakenStays(s: State, t: State, c: ConversationId, id: ClientId)
    requires Grows(s, t) && Taken(s.messages, c, id)
    ensures Taken(t.messages, c, id)
  {
    var k :| k in s.messages && k.0 == c && HasClientId(s.messages, c, k.1, id);
    assert HasClientId(t.messages, c, k.1, id);
  }

  lemma StepGrows(s: State, step: Step)
    requires Dense(s)
    ensures Grows(s, Next(s, step))
  {
    if step.InsertMessage? && step.call in s.calls && s.calls[step.call].Inserting? {
      var c := s.calls[step.call].input.conversation;
      assert LastSeq(s, c) <= LastSeq(Next(s, step), c);
    }
  }

  /** Calls keep agreeing while the tables grow; `moved` is the one call the step moved, if any. */
  lemma GrowthKeepsCalls(s: State, t: State, moved: Option<CallId>)
    requires CallsAgree(s) && Grows(s, t)
    requires forall k :: k in t.calls && moved != Some(k) ==> k in s.calls && t.calls[k] == s.calls[k]
    requires moved.Some? && moved.value in t.calls ==>
               CallAgrees(t, t.calls[moved.value])
               && forall k :: k in s.calls && k != moved.value ==>
                    !FreshOn(t.calls[moved.value], s.calls[k])
    ensures CallsAgree(t)
  {
    forall k | k in t.calls
      ensures CallAgrees(t, t.calls[k])
    {
      if moved != Some(k) {
        var call := s.calls[k];
        assert CallAgrees(s, call);
        if call.LookingUp? {
          TakenStays(s, t, call.input.conversation, call.input.clientMessageId);
        }
      }
    }
  }

  /** The numbers stay dense, the client ids unique: each step either appends one message or none. */
  lemma StepKeepsTables(s: State, step: Step)
    requires Inv(s)
    ensures Dense(Next(s, step)) && ClientIdsAreUnique(Next(s, step))
  {
    hide CallsAgree, PositionsAgree, FindStep;
    var t := Next(s, step);
    if step.InsertMessage? && step.call in s.calls && s.calls[step.call].Inserting? {
      InsertKeepsTables(s, step.call);
    } else if step.DeleteMessage? {
      assert forall c, i, id :: HasClientId(t.messages, c, i, id) <==> HasClientId(s.messages, c, i, id);
      assert forall c :: LastSeq(t, c) == LastSeq(s, c);
    } else {
      FindLeavesTables(s, step);
      assert forall c :: LastSeq(t, c) == LastSeq(s, c);
    }
  }

  lemma FindLeavesTables(s: State, step: Step)
    ensures step.FindDuplicate? ==>
              Next(s, step).messages == s.messages && Next(s, step).conversations == s.conversations
              && Next(s, step).participants == s.participants
  {
  }

  lemma InsertKeepsTables(s: State, call: CallId)
    requires Inv(s) && call in s.calls && s.calls[call].Inserting?
    ensures Dense(Next(s, InsertMessage(call))) && ClientIdsAreUnique(Next(s, InsertMessage(call)))
  {
    hide CallsAgree, PositionsAgree;
    var t := Next(s, InsertMessage(call));
    var input := s.calls[call].input;
    var c := input.conversation;
    if t.messages != s.messages {
      forall d, i, j, id | HasClientId(t.messages, d, i, id) && HasClientId(t.messages, d, j, id)
        ensures i == j
      {
        if d == c && id == input.clientMessageId {
          forall n | (c, n) in s.messages
            ensures !HasClientId(s.messages, c, n, id)
          {
            assert (c, n) in s.messages && (c, n).0 == c;
          }
          assert HasClientId(s.messages, d, i, id) || i == LastSeq(t, c);
          assert HasClientId(s.messages, d, j, id) || j == LastSeq(t, c);
        } else {
          assert HasClientId(s.messages, d, i, id) && HasClientId(s.messages, d, j, id);
        }
      }
      assert forall d :: LastSeq(t, d) == if d == c then LastSeq(s, c) + 1 else LastSeq(s, d);
    } else {
      assert forall d :: LastSeq(t, d) == LastSeq(s, d);
    }
  }

  /** A position is moved by the write of a pending call, and by nothing else. */
  lemma PositionsMove(s: State, step: Step, p: (ConversationId, UserId))
    requires CallsAgree(s) && PositionsAgree(s) && p in Next(s, step).participants
    ensures Next(s, step).participants[p].lastReadSeq <= LastSeq(s, p.0)
  {
    hide FindStep;
    FindLeavesTables(s, step);
    if step.WriteReadPosition? && step.call in s.calls {
      assert CallAgrees(s, s.calls[step.call]);
    }
  }

  lemma StepKeepsPositions(s: State, step: Step)
    requires Inv(s)
    ensures PositionsAgree(Next(s, step))
  {
    StepGrows(s, step);
    var t := Next(s, step);
    hide Next;
    forall p | p in t.participants
      ensures t.participants[p].lastReadSeq <= LastSeq(t, p.0)
    {
      PositionsMove(s, step, p);
      assert LastSeq(s, p.0) <= LastSeq(t, p.0);
    }
  }

  lemma InsertKeepsCalls(s: State, k: CallId)
    requires Inv(s) && k in s.calls && s.calls[k].Inserting?
    ensures CallsAgree(Next(s, InsertMessage(k)))
  {
    var t := Next(s, InsertMessage(k));
    var input := s.calls[k].input;
    StepGrows(s, InsertMessage(k));
    if t.calls[k].Sent? {
      forall l | l in s.calls && l != k
        ensures !FreshOn(t.calls[k], s.calls[l])
      {
        assert CallAgrees(s, s.calls[l]);
        assert s.calls[l].Sent? ==> (s.calls[l].input.conversation, s.calls[l].number) in s.messages;
      }
    }
    GrowthKeepsCalls(s, t, Some(k));
  }

  lemma FindKeepsCalls(s: State, k: CallId)
    requires Inv(s)
    ensures CallsAgree(Next(s, FindDuplicate(k)))
  {
    StepGrows(s, FindDuplicate(k));
    GrowthKeepsCalls(s, Next(s, FindDuplicate(k)), Some(k));
  }

  lemma BeginKeepsCalls(s: State, step: Step)
    requires Inv(s) && (step.BeginSend? || step.BeginMarkRead?)
    ensures CallsAgree(Next(s, step))
  {
    StepGrows(s, step);
    hide Dense, ClientIdsAreUnique, PositionsAgree, CallsAgree, Grows, Taken, HasClientId;
    var t := Next(s, step);
    if step.call !in s.calls {
      GrowthKeepsCalls(s, t, Some(step.call));
    }
  }

  lemma WriteKeepsCalls(s: State, k: CallId)
    requires Inv(s)
    ensures CallsAgree(Next(s, WriteReadPosition(k)))
  {
    StepGrows(s, WriteReadPosition(k));
    hide Dense, ClientIdsAreUnique, PositionsAgree, Grows, Taken, HasClientId;
    var t := Next(s, WriteReadPosition(k));
    if t != s {
      hide CallsAgree;
      GrowthKeepsCalls(s, t, Some(k));
    }
  }

  lemma StepKeepsCalls(s: State, step: Step)
    requires Inv(s)
    ensures CallsAgree(Next(s, step))
  {
    match step
    case InsertMessage(k) => if k in s.calls && s.calls[k].Inserting? { InsertKeepsCalls(s, k); }
    case FindDuplicate(k) => FindKeepsCalls(s, k);
    case BeginSend(_, _) => BeginKeepsCalls(s, step);
    case BeginMarkRead(_, _, _, _) => BeginKeepsCalls(s, step);
    case WriteReadPosition(k) => WriteKeepsCalls(s, k);
    case _ =>
      StepGrows(s, step);
      hide Dense, ClientIdsAreUnique, CallsAgree, Grows, Taken;
      GrowthKeepsCalls(s, Next(s, step), None);
  }

  lemma NextKeepsInv(s: State, step: Step)
    requires Inv(s)
    ensures Inv(Next(s, step))
  {
    StepKeepsTables(s, step);
    StepKeepsPositions(s, step);
    StepKeepsCalls(s, step);
  }

  lemma {:induction false} RunKeepsInv(s: State, steps: seq<Step>)
    requires Inv(s)
    ensures Inv(Run(s, steps))
    decreases |steps|
  {
    if steps != [] {
      NextKeepsInv(s, steps[0]);
      RunKeepsInv(Next(s, steps[0]), steps[1..]);
    }
  }

  lemma {:induction false} RunGrows(s: State, steps: seq<Step>)
    requires Inv(s)
    ensures Grows(s, Run(s, steps))
    decreases |steps|
  {
    if steps != [] {
      NextKeepsInv(s, steps[0]);
      StepGrows(s, steps[0]);
      RunGrows(Next(s, steps[0]), steps[1..]);
    }
  }

  /** In every run: the numbers of a conversation are 1..lastSeq, tombstones keeping theirs. */
  lemma NumbersAreDense(steps: seq<Step>, c: ConversationId, number: nat)
    ensures var s := Run(Init(), steps); (c, number) in s.messages <==> 1 <= number <= LastSeq(s, c)
  {
    RunKeepsInv(Init(), steps);
  }

  /** Every send of one client id, first or retried, by however many calls, names the same message. */
  lemma SendsAreIdempotent(steps: seq<Step>, k: CallId, l: CallId)
    requires var s := Run(Init(), steps);
      && k in s.calls && l in s.calls && s.calls[k].Sent? && s.calls[l].Sent?
      && s.calls[k].input.conversation == s.calls[l].input.conversation
      && s.calls[k].input.clientMessageId == s.calls[l].input.clientMessageId
    ensures var s := Run(Init(), steps);
      && s.calls[k].number == s.calls[l].number
      && (!s.calls[k].duplicate && !s.calls[l].duplicate ==> k == l)
  {
    RunKeepsInv(Init(), steps);
    var s := Run(Init(), steps);
    assert CallAgrees(s, s.calls[k]) && CallAgrees(s, s.calls[l]);
    assert FreshOn(s.calls[k], s.calls[l]) ==> k == l;
  }

  /** A send whose insert found its client id taken always finds the original message. */
  lemma DuplicatesAreFound(steps: seq<Step>, k: CallId)
    requires k in Run(Init(), steps).calls && Run(Init(), steps).calls[k].LookingUp?
    ensures Next(Run(Init(), steps), FindDuplicate(k)).calls[k].Sent?
  {
    RunKeepsInv(Init(), steps);
    var s := Run(Init(), steps);
    assert CallAgrees(s, s.calls[k]);
  }

  // ---------------------------------------------------------------------------------------------
  // Reading
  // ---------------------------------------------------------------------------------------------

  lemma {:induction false} MinimumBelow(s: set<nat>, m: nat)
    requires m in s
    ensures exists n :: n in s && forall x :: x in s ==> n <= x
  {
    if y :| y in s && y < m {
      MinimumBelow(s, y);
    }
  }

  lemma HasMinimum(s: set<nat>)
    requires s != {}
    ensures exists n :: n in s && forall x :: x in s ==> n <= x
  {
    var m :| m in s;
    MinimumBelow(s, m);
  }

  function Minimum(s: set<nat>): (m: nat)
    requires s != {}
    ensures m in s && forall x :: x in s ==> m <= x
  {
    HasMinimum(s);
    var m :| m in s && forall x :: x in s ==> m <= x;
    m
  }

  /** `orderBy seq asc`. */
  function Ascending(s: set<nat>): seq<nat>
    decreases |s|
  {
    if s == {} then [] else [Minimum(s)] + Ascending(s - {Minimum(s)})
  }

  /** `orderBy seq desc`. */
  function NewestFirst(s: set<nat>): seq<nat> {
    var numbers := Ascending(s);
    seq(|numbers|, i requires 0 <= i < |numbers| => numbers[|numbers| - 1 - i])
  }

  function Take(s: seq<nat>, n: nat): seq<nat> {
    if n < |s| then s[..n] else s
  }

  /**
   * The condition on `seq`. Both bounds are spread into one object under the same key, so a bound from
   * below is lost as soon as there is one from above.
   */
  predicate Selected(number: nat, after: Option<nat>, before: Option<nat>) {
    if before.Some? then number < before.value else after.Some? ==> number > after.value
  }

  datatype ListError = NotAParticipant | UnsafeSequence

  function PageSize(limit: Option<nat>): nat {
    if limit.None? then MESSAGE_PAGE_SIZE else if limit.value < MESSAGE_PAGE_SIZE then limit.value else MESSAGE_PAGE_SIZE
  }

  /** The rows `listMessages` selects, named by their numbers: oldest first whenever `afterSeq` is given. */
  function Page(s: State, c: ConversationId, after: Option<nat>, before: Option<nat>, limit: Option<nat>): seq<nat> {
    var matching := set k | k in s.messages && k.0 == c && Selected(k.1, after, before) :: k.1;
    Take(if after.None? then NewestFirst(matching) else Ascending(matching), PageSize(limit))
  }

  function ListMessages(s: State, c: ConversationId, user: UserId,
                        after: Option<nat>, before: Option<nat>, limit: Option<nat>): Result<seq<nat>, ListError> {
    if !Participates(s, c, user) then Err(NotAParticipant)
    else
      var page := Page(s, c, after, before, limit);
      if exists i :: 0 <= i < |page| && page[i] > MAX_SAFE_INTEGER then Err(UnsafeSequence) else Ok(page)
  }

  /** low+1, low+2, ..., high. */
  function Upto(low: nat, high: nat): seq<nat>
  {
    if low >= high then [] else seq(high - low, i requires 0 <= i => low + 1 + i)
  }

  lemma {:induction false} AscendingInterval(s: set<nat>, low: nat, high: nat)
    requires forall x: nat :: x in s <==> low < x <= high
    ensures Ascending(s) == Upto(low, high)
    decreases high - low
  {
    if low < high {
      assert low + 1 in s;
      assert Minimum(s) == low + 1;
      var rest := s - {low + 1};
      assert Ascending(s) == [low + 1] + Ascending(rest);
      hide Ascending;
      AscendingInterval(rest, low + 1, high);
      assert Upto(low, high) == [low + 1] + Upto(low + 1, high);
    } else {
      assert s == {};
    }
  }

  /** The last number a bound from above admits. */
  function High(s: State, c: ConversationId, before: Option<nat>): nat {
    if before.None? || LastSeq(s, c) < before.value then LastSeq(s, c)
    else if before.value == 0 then 0
    else before.value - 1
  }

  /** The bound from below that is in effect. */
  function Low(after: Option<nat>, before: Option<nat>): nat {
    if after.Some? && before.None? then after.value else 0
  }

  lemma SelectedStretch(s: State, c: ConversationId, after: Option<nat>, before: Option<nat>)
    requires Dense(s)
    ensures Ascending((set k | k in s.messages && k.0 == c && Selected(k.1, after, before) :: k.1))
            == Upto(Low(after, before), High(s, c, before))
  {
    var matching := set k | k in s.messages && k.0 == c && Selected(k.1, after, before) :: k.1;
    forall x: nat
      ensures x in matching <==> Low(after, before) < x <= High(s, c, before)
    {
      if Low(after, before) < x <= High(s, c, before) {
        assert (c, x) in s.messages;
      }
    }
    AscendingInterval(matching, Low(after, before), High(s, c, before));
  }

  lemma TakeOfStretch(low: nat, high: nat, n: nat)
    ensures Take(Upto(low, high), n) == Upto(low, Min(low + n, high))
  {
  }

  /** With `afterSeq` a page is the stretch above the bound in effect, oldest first. */
  lemma ForwardPage(s: State, c: ConversationId, after: nat, before: Option<nat>, limit: Option<nat>)
    requires Inv(s)
    ensures var low := Low(Some(after), before);
      Page(s, c, Some(after), before, limit) == Upto(low, Min(low + PageSize(limit), High(s, c, before)))
  {
    SelectedStretch(s, c, Some(after), before);
    TakeOfStretch(Low(Some(after), before), High(s, c, before), PageSize(limit));
  }

  /** A catch-up page is the next stretch of numbers, nothing skipped, at most a page of it. */
  lemma CatchUpPage(s: State, c: ConversationId, after: nat, limit: Option<nat>)
    requires Inv(s)
    ensures Page(s, c, Some(after), None, limit) == Upto(after, Min(after + PageSize(limit), LastSeq(s, c)))
  {
    ForwardPage(s, c, after, None, limit);
  }

  /**
   * A read that also gives `beforeSeq` is still the catch-up page exactly when nothing had been seen
   * and the bound cuts nothing off the page, or when both are empty: otherwise it starts over at the
   * conversation's first message.
   */
  lemma BeforeSeqLosesCatchUpExactly(s: State, c: ConversationId, after: nat, before: nat, limit: Option<nat>)
    requires Inv(s)
    ensures var n := PageSize(limit); var high := High(s, c, Some(before));
      Page(s, c, Some(after), Some(before), limit) == Page(s, c, Some(after), None, limit) <==>
        || (after == 0 && Min(n, high) == Min(n, LastSeq(s, c)))
        || (Min(n, high) == 0 && (n == 0 || LastSeq(s, c) <= after))
  {
    ForwardPage(s, c, after, Some(before), limit);
    CatchUpPage(s, c, after, limit);
    hide Page, LastSeq, High, PageSize, Inv;
    StretchesAgree(0, Min(PageSize(limit), High(s, c, Some(before))), after, Min(after + PageSize(limit), LastSeq(s, c)));
  }

  const START := State(map[0 := Conversation(0, false)], map[], map[(0, 0) := Participant(0, false)], map[])
  const FIRST := SendInput(0, 0, 0, 0)
  const SECOND := SendInput(0, 0, 1, 0)
  const ONE_MESSAGE := State(
    map[0 := Conversation(1, false)],
    map[(0, 1) := Message(0, 0, Some(0), false)],
    map[(0, 0) := Participant(0, false)],
    map[0 := Sent(FIRST, 1, false)])
  const TWO_MESSAGES := State(
    map[0 := Conversation(2, false)],
    map[(0, 1) := Message(0, 0, Some(0), false), (0, 2) := Message(0, 1, Some(0), false)],
    map[(0, 0) := Participant(0, false)],
    map[0 := Sent(FIRST, 1, false), 1 := Sent(SECOND, 2, false)])

  /** A conversation with two messages. */
  const TWO_SENDS := [CreateConversation(0, {0}), BeginSend(0, FIRST), InsertMessage(0), BeginSend(1, SECOND), InsertMessage(1)]

  lemma FirstSend()
    ensures Next(Next(START, BeginSend(0, FIRST)), InsertMessage(0)) == ONE_MESSAGE
  {
    var begun := Next(START, BeginSend(0, FIRST));
    assert begun == START.(calls := map[0 := Inserting(FIRST)]);
    assert !Taken(begun.messages, 0, 0);
  }

  lemma SecondSend()
    ensures Next(Next(ONE_MESSAGE, BeginSend(1, SECOND)), InsertMessage(1)) == TWO_MESSAGES
  {
    var begun := Next(ONE_MESSAGE, BeginSend(1, SECOND));
    assert begun == ONE_MESSAGE.(calls := map[0 := Sent(FIRST, 1, false), 1 := Inserting(SECOND)]);
    assert !Taken(begun.messages, 0, 1);
  }

  lemma TwoSendsRun()
    ensures Run(Init(), TWO_SENDS) == TWO_MESSAGES
  {
    assert Next(Init(), TWO_SENDS[0]) == START;
    FirstSend();
    SecondSend();
    hide Next;
    assert TWO_SENDS[1..][1..] == TWO_SENDS[2..] && TWO_SENDS[2..][1..] == TWO_SENDS[3..]
        && TWO_SENDS[3..][1..] == TWO_SENDS[4..] && TWO_SENDS[4..][1..] == [];
    var begun := Next(START, BeginSend(0, FIRST));
    assert Run(START, TWO_SENDS[1..]) == Run(begun, TWO_SENDS[2..]);
    assert Run(begun, TWO_SENDS[2..]) == Run(ONE_MESSAGE, TWO_SENDS[3..]);
    assert Run(ONE_MESSAGE, TWO_SENDS[3..]) == Run(Next(ONE_MESSAGE, BeginSend(1, SECOND)), TWO_SENDS[4..]);
  }

  lemma TwoMessagesAgree()
    ensures Inv(TWO_MESSAGES)
  {
    TwoSendsRun();
    hide Run;
    RunKeepsInv(Init(), TWO_SENDS);
  }

  /** An instance: a client that saw message 1 and also gives a bound is shown it again. */
  lemma BeforeSeqStartsOver()
    ensures var s := Run(Init(), TWO_SENDS);
      Page(s, 0, Some(1), Some(3), None) == [1, 2] && Page(s, 0, Some(1), None, None) == [2]
  {
    TwoSendsRun();
    TwoMessagesAgree();
    hide Page, Inv, Run;
    ForwardPage(TWO_MESSAGES, 0, 1, Some(3), None);
    CatchUpPage(TWO_MESSAGES, 0, 1, None);
  }

  lemma StretchesAgree(a: nat, b: nat, c: nat, d: nat)
    ensures Upto(a, b) == Upto(c, d) <==> (a >= b && c >= d) || (a < b && a == c && b == d)
  {
    if Upto(a, b) == Upto(c, d) && a < b {
      assert Upto(a, b)[0] == a + 1;
      assert |Upto(a, b)| == b - a;
    }
  }

  /** Scrolling back shows the newest numbers below the given one, newest first. */
  lemma HistoryPage(s: State, c: ConversationId, before: Option<nat>, limit: Option<nat>)
    requires Inv(s)
    ensures var page := Page(s, c, None, before, limit); var high := High(s, c, before);
      |page| == Min(PageSize(limit), high) && forall i :: 0 <= i < |page| ==> page[i] == high - i
  {
    SelectedStretch(s, c, None, before);
    hide Ascending, LastSeq, Inv, High, PageSize;
  }

  /**
   * A client catching up while others write: before each page the segment's steps happen, then it
   * asks for what follows the last number it saw. The result is all it received, in order.
   */
  ghost function CatchUp(s: State, segments: seq<seq<Step>>, c: ConversationId, seen: nat, limit: Option<nat>): seq<nat>
    decreases |segments|
  {
    if segments == [] then []
    else
      var t := Run(s, segments[0]);
      var page := Page(t, c, Some(seen), None, limit);
      page + CatchUp(t, segments[1..], c, LastSeen(page, seen), limit)
  }

  ghost function After(s: State, segments: seq<seq<Step>>): State
    decreases |segments|
  {
    if segments == [] then s else After(Run(s, segments[0]), segments[1..])
  }

  /** What a client remembers: the number of the last message it was given. */
  function LastSeen(page: seq<nat>, seen: nat): nat {
    if page == [] then seen else page[|page| - 1]
  }

  predicate IsStretch(got: seq<nat>, seen: nat) {
    got == Upto(seen, seen + |got|)
  }

  lemma MinIsLess(a: nat, b: nat)
    ensures Min(a, b) <= b
  {
  }

  lemma CatchUpStep(s: State, c: ConversationId, seen: nat, limit: Option<nat>)
    requires Inv(s) && seen <= LastSeq(s, c)
    ensures var page := Page(s, c, Some(seen), None, limit);
      && LastSeen(page, seen) == seen + |page| == Min(seen + PageSize(limit), LastSeq(s, c))
      && IsStretch(page, seen)
  {
    CatchUpPage(s, c, seen, limit);
  }

  lemma JoinStretches(a: nat, b: nat, c: nat)
    requires a <= b <= c
    ensures Upto(a, b) + Upto(b, c) == Upto(a, c)
  {
  }

  lemma StretchesJoin(page: seq<nat>, more: seq<nat>, seen: nat)
    requires IsStretch(page, seen) && IsStretch(more, seen + |page|)
    ensures IsStretch(page + more, seen)
  {
    JoinStretches(seen, seen + |page|, seen + |page| + |more|);
  }

  /** What it received is one unbroken stretch after what it had; no number twice, none skipped. */
  lemma {:induction false} CatchUpIsUnbroken(s: State, segments: seq<seq<Step>>, c: ConversationId, seen: nat, limit: Option<nat>)
    requires Inv(s) && seen <= LastSeq(s, c)
    ensures var got := CatchUp(s, segments, c, seen, limit);
      IsStretch(got, seen) && seen + |got| <= LastSeq(After(s, segments), c)
    decreases |segments|
  {
    hide Page, Run, Inv, LastSeq, Upto, IsStretch, Min, PageSize, LastSeen;
    if segments != [] {
      var t, later := Run(s, segments[0]), segments[1..];
      RunRaises(s, segments[0], c);
      CatchUpStep(t, c, seen, limit);
      MinIsLess(seen + PageSize(limit), LastSeq(t, c));
      var page := Page(t, c, Some(seen), None, limit);
      var more := CatchUp(t, later, c, seen + |page|, limit);
      CatchUpIsUnbroken(t, later, c, seen + |page|, limit);
      StretchesJoin(page, more, seen);
    } else {
      EmptyStretch(seen);
    }
  }

  lemma RunRaises(s: State, steps: seq<Step>, c: ConversationId)
    requires Inv(s)
    ensures Inv(Run(s, steps)) && LastSeq(s, c) <= LastSeq(Run(s, steps), c)
  {
    RunKeepsInv(s, steps);
    RunGrows(s, steps);
    hide Run, Inv;
  }

  lemma EmptyStretch(seen: nat)
    ensures IsStretch([], seen)
  {
  }

  /** Reading on while nobody writes. */
  function QuietCatchUp(s: State, pages: nat, c: ConversationId, seen: nat, limit: Option<nat>): seq<nat> {
    if pages == 0 then []
    else
      var page := Page(s, c, Some(seen), None, limit);
      page + QuietCatchUp(s, pages - 1, c, LastSeen(page, seen), limit)
  }

  /**
   * The loop ends: one page per full page of missed messages brings the client exactly everything up
   * to the conversation's last number, and the page after that is empty.
   */
  lemma {:induction false} CatchUpFinishes(s: State, pages: nat, c: ConversationId, seen: nat, limit: Option<nat>)
    requires Inv(s) && seen <= LastSeq(s, c) && PageSize(limit) >= 1
    requires pages * PageSize(limit) >= LastSeq(s, c) - seen
    ensures QuietCatchUp(s, pages, c, seen, limit) == Upto(seen, LastSeq(s, c))
    ensures Page(s, c, Some(LastSeq(s, c)), None, limit) == []
    decreases pages
  {
    hide Page, LastSeq, PageSize, Upto, LastSeen, Inv;
    CatchUpStep(s, c, LastSeq(s, c), limit);
    EmptyStretch(seen);
    if pages > 0 {
      CatchUpStep(s, c, seen, limit);
      var last := Min(seen + PageSize(limit), LastSeq(s, c));
      assert pages * PageSize(limit) == (pages - 1) * PageSize(limit) + PageSize(limit);
      CatchUpFinishes(s, pages - 1, c, last, limit);
      JoinStretches(seen, last, LastSeq(s, c));
    }
  }

  /** The greatest number on a page, in each of the ways to ask for one; zero if the page is empty. */
  function Top(s: State, c: ConversationId, after: Option<nat>, before: Option<nat>, limit: Option<nat>): nat {
    var low, high, n := Low(after, before), High(s, c, before), PageSize(limit);
    if n == 0 || high <= low then 0 else if after.Some? then Min(low + n, high) else high
  }

  lemma TopIsGreatest(s: State, c: ConversationId, after: Option<nat>, before: Option<nat>, limit: Option<nat>)
    requires Inv(s)
    ensures var page := Page(s, c, after, before, limit); var top := Top(s, c, after, before, limit);
      && (forall i :: 0 <= i < |page| ==> page[i] <= top)
      && (page == [] <==> top == 0)
      && (page != [] ==> page[0] == top || page[|page| - 1] == top)
  {
    match after
    case Some(a) => ForwardPage(s, c, a, before, limit);
    case None => HistoryPage(s, c, before, limit);
    hide Page, LastSeq, Inv, PageSize, High;
  }

  /** However it is asked for, a page is refused to non-participants and past the JSON-safe range, and only then. */
  lemma ListingSucceeds(s: State, c: ConversationId, user: UserId, after: Option<nat>, before: Option<nat>, limit: Option<nat>)
    requires Inv(s)
    ensures ListMessages(s, c, user, after, before, limit).Ok? <==>
      Participates(s, c, user) && Top(s, c, after, before, limit) <= MAX_SAFE_INTEGER
  {
    TopIsGreatest(s, c, after, before, limit);
    hide Page, Top, Participates, Inv;
  }

  // ---------------------------------------------------------------------------------------------
  // Unread counts
  // ---------------------------------------------------------------------------------------------

  /** The arithmetic of `listConversations`. */
  function UnreadCount(s: State, c: ConversationId, user: UserId): nat
    requires (c, user) in s.participants
  {
    var read := s.participants[(c, user)].lastReadSeq;
    if LastSeq(s, c) > read then LastSeq(s, c) - read else 0
  }

  function UnreadMessages(s: State, c: ConversationId, user: UserId): set<nat>
    requires (c, user) in s.participants
  {
    set k | k in s.messages && k.0 == c && k.1 > s.participants[(c, user)].lastReadSeq :: k.1
  }

  lemma {:induction false} IntervalSize(s: set<nat>, low: nat, high: nat)
    requires low <= high && forall x :: x in s <==> low < x <= high
    ensures |s| == high - low
    decreases high
  {
    if low < high {
      assert high in s;
      IntervalSize(s - {high}, low, high - 1);
    } else {
      assert s == {};
    }
  }

  /** In every run the subtraction counts the messages above the reader's position, exactly. */
  lemma UnreadCountIsExact(steps: seq<Step>, c: ConversationId, user: UserId)
    requires (c, user) in Run(Init(), steps).participants
    ensures var s := Run(Init(), steps); UnreadCount(s, c, user) == |UnreadMessages(s, c, user)|
  {
    RunKeepsInv(Init(), steps);
    var s := Run(Init(), steps);
    var read := s.participants[(c, user)].lastReadSeq;
    var unread := UnreadMessages(s, c, user);
    forall x
      ensures x in unread <==> read < x <= LastSeq(s, c)
    {
      if read < x <= LastSeq(s, c) {
        assert (c, x) in s.messages;
      }
    }
    IntervalSize(unread, read, LastSeq(s, c));
  }
}
