/**
 * The chat service on its tables, one call at a time: each method runs its statements in order, with
 * the rollback its database statement gives it.
 */
module ChatStore {
  import opened Wrappers
  import opened Chat

  datatype ChatError = NotFound | ReadAhead | NotTheSender

  datatype Receipt = Receipt(number: nat, duplicate: bool)

  class Store {
    var conversations: map<ConversationId, Conversation>
    var messages: Messages
    var participants: map<(ConversationId, UserId), Participant>

    constructor ()
      ensures View() == Init()
    {
      conversations, messages, participants := map[], map[], map[];
    }

    /** The tables as the protocol sees them, with no call in flight. */
    function View(): State
      reads this
    {
      State(conversations, messages, participants, map[])
    }

    /** A fresh message takes the next number; a known client id gets its original back and changes nothing. */
    method SendMessage(input: SendInput) returns (r: Result<Receipt, ChatError>)
      requires Inv(View())
      modifies this
      ensures r.Ok? <==> Participates(old(View()), input.conversation, input.user)
      ensures r.Err? ==> View() == old(View())
      ensures r.Ok? && r.value.duplicate ==>
                && View() == old(View())
                && HasClientId(messages, input.conversation, r.value.number, input.clientMessageId)
      ensures r.Ok? && !r.value.duplicate ==>
                && !Taken(old(messages), input.conversation, input.clientMessageId)
                && r.value.number == LastSeq(old(View()), input.conversation) + 1
                && conversations == old(conversations)[input.conversation := Conversation(r.value.number, false)]
                && messages == old(messages)[(input.conversation, r.value.number) :=
                                 Message(input.user, input.clientMessageId, Some(input.body), false)]
                && participants == old(participants)
      ensures Inv(View())
    {
      var c := input.conversation;
      if !((c, input.user) in participants && !participants[(c, input.user)].left
           && c in conversations && !conversations[c].deleted) {
        return Err(NotFound);
      }
      ghost var before := View();
      ghost var call := Inserting(input);
      ghost var begun := before.(calls := map[0 := call]);
      BegunKeepsInv(before, begun);
      var counted := conversations[c].(lastSeq := conversations[c].lastSeq + 1);
      var unique := (c, counted.lastSeq) !in messages
        && !exists k | k in messages :: k.0 == c && HasClientId(messages, c, k.1, input.clientMessageId);
      if !unique {
        // The insert fails and takes the counter's increment back with it.
        FindsOriginal(before, input);
        var k :| k in messages && k.0 == c && HasClientId(messages, c, k.1, input.clientMessageId);
        return Ok(Receipt(k.1, true));
      }
      conversations := conversations[c := counted];
      messages := messages[(c, counted.lastSeq) := Message(input.user, input.clientMessageId, Some(input.body), false)];
      SentKeepsInv(begun, View());
      return Ok(Receipt(counted.lastSeq, false));
    }

    /** Alone, the read position only rises, and never passes the conversation's last number. */
    method MarkRead(c: ConversationId, user: UserId, number: nat) returns (r: Result<nat, ChatError>)
      requires PositionsAgree(View())
      modifies this`participants
      ensures r.Ok? <==> Participates(old(View()), c, user) && number <= LastSeq(old(View()), c)
      ensures r.Err? ==> participants == old(participants)
      ensures r.Ok? ==>
                var position := old(participants)[(c, user)].lastReadSeq;
                && r.value == (if number > position then number else position)
                && participants == old(participants)[(c, user) := old(participants)[(c, user)].(lastReadSeq := r.value)]
      ensures PositionsAgree(View())
    {
      if !((c, user) in participants && !participants[(c, user)].left
           && c in conversations && !conversations[c].deleted) {
        return Err(NotFound);
      }
      if number > conversations[c].lastSeq {
        return Err(ReadAhead);
      }
      if number <= participants[(c, user)].lastReadSeq {
        return Ok(participants[(c, user)].lastReadSeq);
      }
      participants := participants[(c, user) := participants[(c, user)].(lastReadSeq := number)];
      return Ok(number);
    }

    /** The sender's tombstone: the row and its number stay, the body goes. */
    method DeleteMessage(c: ConversationId, number: nat, user: UserId) returns (r: Result<(), ChatError>)
      modifies this`messages
      ensures r.Ok? <==>
                && (c, number) in old(messages) && !old(messages)[(c, number)].deleted
                && Participates(old(View()), c, user) && old(messages)[(c, number)].sender == user
      ensures r.Err? ==> messages == old(messages)
      ensures r.Ok? ==> messages == old(messages)[(c, number) :=
                                      old(messages)[(c, number)].(deleted := true, body := None)]
      ensures r == Err(NotTheSender) ==> Participates(old(View()), c, user)
    {
      if (c, number) !in messages || messages[(c, number)].deleted {
        return Err(NotFound);
      }
      if !((c, user) in participants && !participants[(c, user)].left
           && c in conversations && !conversations[c].deleted) {
        return Err(NotFound);
      }
      if messages[(c, number)].sender != user {
        return Err(NotTheSender);
      }
      messages := messages[(c, number) := messages[(c, number)].(deleted := true, body := None)];
      return Ok(());
    }
  }

  lemma BegunKeepsInv(before: State, begun: State)
    requires Inv(before) && before.calls == map[] && begun.calls.Keys == {0} && begun.calls[0].Inserting?
    requires begun == before.(calls := begun.calls)
    ensures Inv(begun)
  {
    assert forall c :: LastSeq(begun, c) == LastSeq(before, c);
  }

  /** When the insert hits a unique constraint, it is the client id that is taken: the next number never is. */
  lemma FindsOriginal(s: State, input: SendInput)
    requires Inv(s) && input.conversation in s.conversations
    requires (input.conversation, s.conversations[input.conversation].lastSeq + 1) in s.messages
             || Taken(s.messages, input.conversation, input.clientMessageId)
    ensures Taken(s.messages, input.conversation, input.clientMessageId)
  {
  }

  lemma SentKeepsInv(begun: State, after: State)
    requires Inv(begun) && begun.calls.Keys == {0} && begun.calls[0].Inserting? && after.calls == map[]
    requires var t := Next(begun, InsertMessage(0));
      after == t.(calls := map[])
    ensures Inv(after)
  {
    NextKeepsInv(begun, InsertMessage(0));
    var t := Next(begun, InsertMessage(0));
    assert forall c :: LastSeq(t, c) == LastSeq(after, c);
  }
}
