/**
 * Refresh-token families: sessions, their chains of one-time tokens, reuse detection and every way a
 * session is revoked. Each step is one transaction. A token row is identified by its hash, which is
 * unique and, hashes being injective, by the raw token a client presents.
 */
module RefreshTokens {
  import opened Wrappers

  type UserId = nat
  type SessionId = nat
  type Raw = nat
  type Time = nat

  datatype Status = PENDING | ACTIVE | SUSPENDED | DISABLED

  datatype User = User(status: Status, deleted: bool)

  datatype Session = Session(user: UserId, expiresAt: Time, revokedAt: Option<Time>)

  datatype Token = Token(
    session: SessionId,
    user: UserId,
    expiresAt: Time,
    consumedAt: Option<Time>,
    replacedBy: Option<Raw>,
    revokedAt: Option<Time>)

  datatype Db = Db(users: map<UserId, User>, sessions: map<SessionId, Session>, tokens: map<Raw, Token>)

  /** `Aborted`: the new token's hash was taken, so the transaction rolled back. */
  datatype RotateResult = Invalid | Reuse | Rotated | Aborted

  // ---------------------------------------------------------------------------------------------
  // The statements
  // ---------------------------------------------------------------------------------------------

  /** `session.updateMany` over the unrevoked rows among `which`. */
  function RevokeSessions(sessions: map<SessionId, Session>, which: set<SessionId>, now: Time): map<SessionId, Session> {
    map id | id in sessions ::
      if id in which && sessions[id].revokedAt.None? then sessions[id].(revokedAt := Some(now)) else sessions[id]
  }

  /** `refreshToken.updateMany` over the unrevoked rows among `which`. */
  function RevokeTokens(tokens: map<Raw, Token>, which: set<Raw>, now: Time): map<Raw, Token> {
    map raw | raw in tokens ::
      if raw in which && tokens[raw].revokedAt.None? then tokens[raw].(revokedAt := Some(now)) else tokens[raw]
  }

  function SessionsOf(db: Db, user: UserId): set<SessionId> {
    set id | id in db.sessions && db.sessions[id].user == user
  }

  function TokensOf(db: Db, user: UserId): set<Raw> {
    set raw | raw in db.tokens && db.tokens[raw].user == user
  }

  function TokensIn(db: Db, session: SessionId): set<Raw> {
    set raw | raw in db.tokens && db.tokens[raw].session == session
  }

  predicate ActiveUser(db: Db, user: UserId) {
    user in db.users && db.users[user].status == ACTIVE && !db.users[user].deleted
  }

  // ---------------------------------------------------------------------------------------------
  // The operations
  // ---------------------------------------------------------------------------------------------

  function CreateSession(db: Db, id: SessionId, user: UserId, raw: Raw, expiresAt: Time): Db {
    db.(sessions := db.sessions[id := Session(user, expiresAt, None)],
        tokens := db.tokens[raw := Token(id, user, expiresAt, None, None, None)])
  }

  /** The token may be exchanged: it is the unused end of a chain in force, for an active user. */
  predicate Usable(db: Db, raw: Raw, now: Time) {
    && raw in db.tokens
    && var t := db.tokens[raw];
    && t.consumedAt.None? && t.replacedBy.None? && t.revokedAt.None? && now < t.expiresAt
    && t.session in db.sessions
    && db.sessions[t.session].revokedAt.None? && now < db.sessions[t.session].expiresAt
    && ActiveUser(db, t.user)
  }

  /** What a presented token that cannot rotate does to the tables. */
  function AfterReuse(db: Db, id: SessionId, now: Time): Db {
    db.(sessions := RevokeSessions(db.sessions, {id}, now), tokens := RevokeTokens(db.tokens, TokensIn(db, id), now))
  }

  function Rotate(db: Db, raw: Raw, next: Raw, now: Time): (Db, RotateResult) {
    if raw !in db.tokens then (db, Invalid)
    else
      var t := db.tokens[raw];
      if !Usable(db, raw, now) then
        (AfterReuse(db, t.session, now), Reuse)
      else if next in db.tokens then (db, Aborted)
      else
        var expiresAt := db.sessions[t.session].expiresAt;
        (db.(tokens := db.tokens[next := Token(t.session, t.user, expiresAt, None, None, None)]
                                [raw := t.(consumedAt := Some(now), replacedBy := Some(next))]),
         Rotated)
  }

  /** Logging out one session: both filters name the user as well as the session. */
  function RevokeSession(db: Db, id: SessionId, user: UserId, now: Time): Db {
    db.(sessions := RevokeSessions(db.sessions, {id} * SessionsOf(db, user), now),
        tokens := RevokeTokens(db.tokens, TokensIn(db, id) * TokensOf(db, user), now))
  }

  /** Every session of the user but possibly one: logout everywhere, password or email change, suspension. */
  function RevokeAll(db: Db, user: UserId, keep: Option<SessionId>, now: Time): Db {
    var keptTokens := if keep.Some? then TokensIn(db, keep.value) else {};
    var kept := if keep.Some? then {keep.value} else {};
    db.(sessions := RevokeSessions(db.sessions, SessionsOf(db, user) - kept, now),
        tokens := RevokeTokens(db.tokens, TokensOf(db, user) - keptTokens, now))
  }

  function SetStatus(db: Db, user: UserId, status: Status, now: Time): Db
    requires user in db.users
  {
    var changed := db.(users := db.users[user := db.users[user].(status := status)]);
    if status == SUSPENDED || status == DISABLED then RevokeAll(changed, user, None, now) else changed
  }

  function DeleteAccount(db: Db, user: UserId, now: Time): Db
    requires user in db.users
  {
    RevokeAll(db.(users := db.users[user := User(DISABLED, true)]), user, None, now)
  }

  /** Retention removes long-expired or long-revoked sessions; their tokens go with them. */
  function Purge(db: Db, id: SessionId): Db {
    db.(sessions := db.sessions - {id}, tokens := db.tokens - TokensIn(db, id))
  }

  // ---------------------------------------------------------------------------------------------
  // Runs
  // ---------------------------------------------------------------------------------------------

  /**
   * The database, with two history variables: the session identifiers ever used, and for every
   * session its tokens in order of issue.
   */
  datatype State = State(db: Db, used: set<SessionId>, chains: map<SessionId, seq<Raw>>)

  datatype Step =
    | AddUser(user: UserId)
    | Login(session: SessionId, user: UserId, raw: Raw, expiresAt: Time)
    | Present(raw: Raw, next: Raw, now: Time)
    | Logout(session: SessionId, user: UserId, now: Time)
    | LogoutAll(user: UserId, keep: Option<SessionId>, now: Time)
    | UpdateStatus(user: UserId, status: Status, now: Time)
    | Erase(user: UserId, now: Time)
    | Retain(session: SessionId, cutoff: Time)

  function Init(): State {
    State(Db(map[], map[], map[]), {}, map[])
  }

  predicate Live(db: Db, user: UserId) {
    user in db.users && !db.users[user].deleted
  }

  /** What the step answers when it presents a token. */
  function Outcome(s: State, step: Step): RotateResult
    requires step.Present?
  {
    Rotate(s.db, step.raw, step.next, step.now).1
  }

  function Next(s: State, step: Step): State {
    match step
    case AddUser(u) => if u in s.db.users then s else s.(db := s.db.(users := s.db.users[u := User(ACTIVE, false)]))
    case Login(id, u, raw, expiresAt) =>
      if id in s.used || raw in s.db.tokens || !Live(s.db, u) then s
      else s.(db := CreateSession(s.db, id, u, raw, expiresAt), used := s.used + {id}, chains := s.chains[id := [raw]])
    case Present(raw, next, now) =>
      var (db, result) := Rotate(s.db, raw, next, now);
      if result.Rotated? then
        var id := s.db.tokens[raw].session;
        s.(db := db, chains := if id in s.chains then s.chains[id := s.chains[id] + [next]] else s.chains)
      else s.(db := db)
    case Logout(id, u, now) => s.(db := RevokeSession(s.db, id, u, now))
    case LogoutAll(u, keep, now) => s.(db := RevokeAll(s.db, u, keep, now))
    case UpdateStatus(u, status, now) => if Live(s.db, u) then s.(db := SetStatus(s.db, u, status, now)) else s
    case Erase(u, now) => if Live(s.db, u) then s.(db := DeleteAccount(s.db, u, now)) else s
    case Retain(id, cutoff) =>
      if id in s.db.sessions
         && (s.db.sessions[id].expiresAt < cutoff
             || (s.db.sessions[id].revokedAt.Some? && s.db.sessions[id].revokedAt.value < cutoff))
      then s.(db := Purge(s.db, id), chains := s.chains - {id})
      else s
  }

  function Run(s: State, steps: seq<Step>): State
    decreases |steps|
  {
    if steps == [] then s else Run(Next(s, steps[0]), steps[1..])
  }

  // ---------------------------------------------------------------------------------------------
  // The invariant
  // ---------------------------------------------------------------------------------------------

  ghost predicate Links(tokens: map<Raw, Token>, chain: seq<Raw>, i: nat)
    requires i < |chain| && chain[i] in tokens
  {
    var t := tokens[chain[i]];
    if i + 1 < |chain| then t.replacedBy == Some(chain[i + 1]) && t.consumedAt.Some?
    else t.replacedBy.None? && t.consumedAt.None?
  }

  /** The tokens of a session, each once, each replaced by the following one; the last one is unused. */
  ghost predicate IsChain(db: Db, id: SessionId, chain: seq<Raw>) {
    && chain != []
    && (forall i, j :: 0 <= i < j < |chain| ==> chain[i] != chain[j])
    && (forall raw :: raw in chain <==> raw in TokensIn(db, id))
    && (forall i :: 0 <= i < |chain| ==> chain[i] in db.tokens && Links(db.tokens, chain, i))
  }

  /** A token shares its session's owner and its session's revocation. */
  ghost predicate TokenAgrees(db: Db, raw: Raw)
    requires raw in db.tokens
  {
    var t := db.tokens[raw];
    && t.session in db.sessions
    && t.user == db.sessions[t.session].user
    && (t.revokedAt.Some? <==> db.sessions[t.session].revokedAt.Some?)
  }

  ghost predicate TokensAgree(db: Db) {
    forall raw :: raw in db.tokens ==> TokenAgrees(db, raw)
  }

  ghost predicate ChainsAgree(s: State) {
    && s.chains.Keys == s.db.sessions.Keys
    && (forall id :: id in s.chains ==> IsChain(s.db, id, s.chains[id]))
  }

  ghost predicate Inv(s: State) {
    && TokensAgree(s.db)
    && ChainsAgree(s)
    && s.db.sessions.Keys <= s.used
  }

  /** Nothing about chains changed: only revocations and users did. */
  predicate SameChains(before: Db, after: Db) {
    && after.tokens.Keys == before.tokens.Keys
    && after.sessions.Keys == before.sessions.Keys
    && (forall raw :: raw in before.tokens ==>
          after.tokens[raw] == before.tokens[raw].(revokedAt := after.tokens[raw].revokedAt))
    && (forall id :: id in before.sessions ==>
          after.sessions[id] == before.sessions[id].(revokedAt := after.sessions[id].revokedAt))
  }

  lemma SameChainsKeepInv(s: State, after: Db)
    requires Inv(s) && SameChains(s.db, after) && TokensAgree(after)
    ensures Inv(s.(db := after))
  {
    forall id | id in s.chains
      ensures IsChain(after, id, s.chains[id])
    {
      var chain := s.chains[id];
      assert IsChain(s.db, id, chain);
      assert TokensIn(after, id) == TokensIn(s.db, id);
      forall i | 0 <= i < |chain|
        ensures chain[i] in after.tokens && Links(after.tokens, chain, i)
      {
        assert chain[i] in TokensIn(s.db, id);
        assert Links(s.db.tokens, chain, i);
      }
    }
  }

  /** Revoking a set of sessions and exactly their tokens. */
  lemma RevocationAgrees(db: Db, sessions: set<SessionId>, tokens: set<Raw>, now: Time)
    requires TokensAgree(db)
    requires forall raw :: raw in db.tokens ==> (raw in tokens <==> db.tokens[raw].session in sessions)
    ensures var after := db.(sessions := RevokeSessions(db.sessions, sessions, now),
                             tokens := RevokeTokens(db.tokens, tokens, now));
      TokensAgree(after) && SameChains(db, after)
  {
    var after := db.(sessions := RevokeSessions(db.sessions, sessions, now),
                     tokens := RevokeTokens(db.tokens, tokens, now));
    forall raw | raw in after.tokens
      ensures TokenAgrees(after, raw)
    {
      assert TokenAgrees(db, raw);
    }
  }

  lemma RevokeAllAgrees(db: Db, user: UserId, keep: Option<SessionId>, now: Time)
    requires TokensAgree(db)
    ensures TokensAgree(RevokeAll(db, user, keep, now)) && SameChains(db, RevokeAll(db, user, keep, now))
  {
    var keptTokens := if keep.Some? then TokensIn(db, keep.value) else {};
    var kept := if keep.Some? then {keep.value} else {};
    forall raw | raw in db.tokens
      ensures raw in TokensOf(db, user) - keptTokens <==> db.tokens[raw].session in SessionsOf(db, user) - kept
    {
      assert TokenAgrees(db, raw);
    }
    RevocationAgrees(db, SessionsOf(db, user) - kept, TokensOf(db, user) - keptTokens, now);
  }

  lemma UsersDoNotMatter(db: Db, users: map<UserId, User>)
    requires TokensAgree(db)
    ensures TokensAgree(db.(users := users)) && SameChains(db, db.(users := users))
  {
    forall raw | raw in db.tokens
      ensures TokenAgrees(db.(users := users), raw)
    {
      assert TokenAgrees(db, raw);
    }
  }

  lemma LogoutKeepsInv(s: State, id: SessionId, user: UserId, now: Time)
    requires Inv(s)
    ensures Inv(Next(s, Logout(id, user, now)))
  {
    var db := s.db;
    forall raw | raw in db.tokens
      ensures raw in TokensIn(db, id) * TokensOf(db, user) <==> db.tokens[raw].session in {id} * SessionsOf(db, user)
    {
      assert TokenAgrees(db, raw);
    }
    RevocationAgrees(db, {id} * SessionsOf(db, user), TokensIn(db, id) * TokensOf(db, user), now);
    SameChainsKeepInv(s, RevokeSession(db, id, user, now));
  }

  lemma ReuseKeepsInv(s: State, raw: Raw, next: Raw, now: Time)
    requires Inv(s) && raw in s.db.tokens && !Usable(s.db, raw, now)
    ensures Inv(Next(s, Present(raw, next, now)))
  {
    hide Usable, RevokeSessions, RevokeTokens, SameChains;
    var id := s.db.tokens[raw].session;
    var after := AfterReuse(s.db, id, now);
    assert Next(s, Present(raw, next, now)) == s.(db := after);
    hide Next;
    RevocationAgrees(s.db, {id}, TokensIn(s.db, id), now);
    SameChainsKeepInv(s, after);
  }

  /** A usable token is the end of its chain. */
  lemma UsableIsLast(s: State, raw: Raw)
    requires Inv(s) && raw in s.db.tokens && s.db.tokens[raw].replacedBy.None?
    ensures var id := s.db.tokens[raw].session;
      id in s.chains && s.chains[id] != [] && s.chains[id][|s.chains[id]| - 1] == raw
  {
    var id := s.db.tokens[raw].session;
    assert TokenAgrees(s.db, raw);
    var chain := s.chains[id];
    assert IsChain(s.db, id, chain);
    assert raw in TokensIn(s.db, id);
    var i :| 0 <= i < |chain| && chain[i] == raw;
    assert Links(s.db.tokens, chain, i);
  }

  lemma RotationExtendsChain(s: State, raw: Raw, next: Raw, now: Time)
    requires Inv(s) && Usable(s.db, raw, now) && next !in s.db.tokens
    ensures var id := s.db.tokens[raw].session;
      id in s.chains && IsChain(Rotate(s.db, raw, next, now).0, id, s.chains[id] + [next])
  {
    var id := s.db.tokens[raw].session;
    UsableIsLast(s, raw);
    var chain := s.chains[id];
    assert IsChain(s.db, id, chain);
    var after := Rotate(s.db, raw, next, now).0;
    var longer := chain + [next];
    assert TokensIn(after, id) == TokensIn(s.db, id) + {next};
    forall x
      ensures x in longer <==> x in TokensIn(after, id)
    {
      assert x in longer <==> x in chain || x == next;
    }
    forall i | 0 <= i < |longer|
      ensures longer[i] in after.tokens && Links(after.tokens, longer, i)
    {
      if i < |chain| {
        assert chain[i] in TokensIn(s.db, id);
        assert Links(s.db.tokens, chain, i);
      }
    }
  }

  lemma OtherChainsStay(before: Db, after: Db, id: SessionId, chain: seq<Raw>)
    requires IsChain(before, id, chain)
    requires TokensIn(after, id) == TokensIn(before, id)
    requires forall raw :: raw in TokensIn(before, id) ==> after.tokens[raw] == before.tokens[raw]
    ensures IsChain(after, id, chain)
  {
    forall i | 0 <= i < |chain|
      ensures chain[i] in after.tokens && Links(after.tokens, chain, i)
    {
      assert chain[i] in TokensIn(before, id);
      assert Links(before.tokens, chain, i);
    }
  }

  lemma RotationKeepsInv(s: State, raw: Raw, next: Raw, now: Time)
    requires Inv(s) && Usable(s.db, raw, now) && next !in s.db.tokens
    ensures Inv(Next(s, Present(raw, next, now)))
  {
    var id := s.db.tokens[raw].session;
    RotationExtendsChain(s, raw, next, now);
    assert TokenAgrees(s.db, raw);
    var t := Next(s, Present(raw, next, now));
    forall x | x in t.db.tokens
      ensures TokenAgrees(t.db, x)
    {
      assert x in s.db.tokens ==> TokenAgrees(s.db, x);
    }
    forall other | other in t.chains
      ensures IsChain(t.db, other, t.chains[other])
    {
      if other != id {
        assert TokensIn(t.db, other) == TokensIn(s.db, other);
        OtherChainsStay(s.db, t.db, other, s.chains[other]);
      }
    }
  }

  lemma LoginKeepsInv(s: State, id: SessionId, user: UserId, raw: Raw, expiresAt: Time)
    requires Inv(s)
    ensures Inv(Next(s, Login(id, user, raw, expiresAt)))
  {
    var t := Next(s, Login(id, user, raw, expiresAt));
    if t != s {
      forall x | x in t.db.tokens
        ensures TokenAgrees(t.db, x)
      {
        assert x in s.db.tokens ==> TokenAgrees(s.db, x);
      }
      forall x | x in s.db.tokens
        ensures s.db.tokens[x].session != id
      {
        assert TokenAgrees(s.db, x);
      }
      forall other | other in t.chains
        ensures IsChain(t.db, other, t.chains[other])
      {
        if other == id {
          assert TokensIn(t.db, id) == {raw};
        } else {
          assert TokensIn(t.db, other) == TokensIn(s.db, other);
          OtherChainsStay(s.db, t.db, other, s.chains[other]);
        }
      }
    }
  }

  lemma RetainKeepsInv(s: State, id: SessionId, cutoff: Time)
    requires Inv(s)
    ensures Inv(Next(s, Retain(id, cutoff)))
  {
    var t := Next(s, Retain(id, cutoff));
    if t != s {
      forall x | x in t.db.tokens
        ensures TokenAgrees(t.db, x)
      {
        assert TokenAgrees(s.db, x);
      }
      forall other | other in t.chains
        ensures IsChain(t.db, other, t.chains[other])
      {
        assert TokensIn(t.db, other) == TokensIn(s.db, other);
        OtherChainsStay(s.db, t.db, other, s.chains[other]);
      }
    }
  }

  lemma UserStepKeepsInv(s: State, step: Step)
    requires Inv(s) && (step.AddUser? || step.UpdateStatus? || step.Erase?)
    ensures Inv(Next(s, step))
  {
    var t := Next(s, step);
    var users := t.db.users;
    UsersDoNotMatter(s.db, users);
    var changed := s.db.(users := users);
    SameChainsKeepInv(s, changed);
    if step.UpdateStatus? || step.Erase? {
      RevokeAllAgrees(changed, step.user, None, step.now);
      SameChainsKeepInv(s.(db := changed), RevokeAll(changed, step.user, None, step.now));
    }
  }

  lemma NextKeepsInv(s: State, step: Step)
    requires Inv(s)
    ensures Inv(Next(s, step))
  {
    match step
    case Login(id, u, raw, expiresAt) => LoginKeepsInv(s, id, u, raw, expiresAt);
    case Present(raw, next, now) =>
      if raw in s.db.tokens {
        if !Usable(s.db, raw, now) {
          ReuseKeepsInv(s, raw, next, now);
        } else if next !in s.db.tokens {
          RotationKeepsInv(s, raw, next, now);
        }
      }
    case Logout(id, u, now) => LogoutKeepsInv(s, id, u, now);
    case LogoutAll(u, keep, now) =>
      RevokeAllAgrees(s.db, u, keep, now);
      SameChainsKeepInv(s, RevokeAll(s.db, u, keep, now));
    case Retain(id, cutoff) => RetainKeepsInv(s, id, cutoff);
    case _ => UserStepKeepsInv(s, step);
  }

  lemma {:induction false} RunKeepsInv(s: State, steps: seq<Step>)
    requires Inv(s)
    ensures Inv(Run(s, steps))
    decreases |steps|
  {
    if steps != [] {
      NextKeepsInv(s, steps[0]);
      RunKeepsInv(Next(s, steps[0]), steps[1..]);
    }
  }

  // ---------------------------------------------------------------------------------------------
  // One live token, one chain
  // ---------------------------------------------------------------------------------------------

  /** A token that has been neither used nor revoked. */
  predicate Unspent(db: Db, raw: Raw) {
    raw in db.tokens && db.tokens[raw].consumedAt.None? && db.tokens[raw].replacedBy.None? && db.tokens[raw].revokedAt.None?
  }

  /**
   * In every run, an unrevoked session's tokens form one chain, linked by replacement, and its last
   * token is the session's one and only unspent token.
   */
  lemma OneLiveToken(steps: seq<Step>, id: SessionId)
    requires id in Run(Init(), steps).db.sessions && Run(Init(), steps).db.sessions[id].revokedAt.None?
    ensures var s := Run(Init(), steps);
      && id in s.chains && IsChain(s.db, id, s.chains[id])
      && forall raw :: raw in TokensIn(s.db, id) ==>
           (Unspent(s.db, raw) <==> raw == s.chains[id][|s.chains[id]| - 1])
  {
    RunKeepsInv(Init(), steps);
    var s := Run(Init(), steps);
    var chain := s.chains[id];
    forall raw | raw in TokensIn(s.db, id)
      ensures Unspent(s.db, raw) <==> raw == chain[|chain| - 1]
    {
      assert TokenAgrees(s.db, raw);
      var i :| 0 <= i < |chain| && chain[i] == raw;
      assert Links(s.db.tokens, chain, i);
    }
  }

  // ---------------------------------------------------------------------------------------------
  // Reuse ends the session for good
  // ---------------------------------------------------------------------------------------------

  predicate Revoked(db: Db, id: SessionId) {
    id in db.sessions && db.sessions[id].revokedAt.Some?
  }

  /** Presenting a known token either rotates it or revokes its session with all tokens; no third way. */
  lemma PresentRotatesOrRevokes(s: State, raw: Raw, next: Raw, now: Time)
    requires Inv(s) && raw in s.db.tokens
    ensures var t := Next(s, Present(raw, next, now)); var id := s.db.tokens[raw].session;
      if Usable(s.db, raw, now) && next in s.db.tokens then t == s
      else if Usable(s.db, raw, now) then
        && Outcome(s, Present(raw, next, now)) == Rotated
        && Unspent(t.db, next) && !Unspent(t.db, raw) && t.db.sessions == s.db.sessions
      else
        && Outcome(s, Present(raw, next, now)) == Reuse
        && Revoked(t.db, id) && forall x :: x in TokensIn(t.db, id) ==> t.db.tokens[x].revokedAt.Some?
  {
    assert TokenAgrees(s.db, raw);
  }

  /** In an unrevoked session, every token but the last of the chain gives a reuse alarm. */
  lemma OldTokensRaiseAlarm(s: State, raw: Raw, next: Raw, now: Time)
    requires Inv(s) && raw in s.db.tokens
    requires var id := s.db.tokens[raw].session;
      id in s.chains ==> s.chains[id] != [] && raw != s.chains[id][|s.chains[id]| - 1]
    ensures Outcome(s, Present(raw, next, now)) == Reuse
    ensures Revoked(Next(s, Present(raw, next, now)).db, s.db.tokens[raw].session)
  {
    if Usable(s.db, raw, now) {
      UsableIsLast(s, raw);
      assert false;
    }
    PresentRotatesOrRevokes(s, raw, next, now);
  }

  /** The session is over: revoked, or already purged and its identifier used up. */
  predicate Over(s: State, id: SessionId) {
    Revoked(s.db, id) || (id in s.used && id !in s.db.sessions)
  }

  lemma OverStays(s: State, step: Step, id: SessionId)
    requires Inv(s) && Over(s, id)
    ensures Over(Next(s, step), id)
  {
  }

  /** No token of a session that is over rotates, and the session is never given another token. */
  lemma OverNeverRotates(s: State, step: Step, id: SessionId)
    requires Inv(s) && Over(s, id)
    ensures step.Present? && step.raw in s.db.tokens && s.db.tokens[step.raw].session == id ==>
              Outcome(s, step) == Reuse
    ensures TokensIn(Next(s, step).db, id) <= TokensIn(s.db, id)
  {
    if step.Present? && step.raw in s.db.tokens {
      assert TokenAgrees(s.db, step.raw);
    }
  }

  /** Once revoked, by reuse, logout, password change or deletion, never again: over every later run. */
  lemma {:induction false} RevokedForever(s: State, steps: seq<Step>, id: SessionId, last: Step)
    requires Inv(s) && Over(s, id)
    ensures var t := Run(s, steps);
      && Over(t, id)
      && TokensIn(t.db, id) <= TokensIn(s.db, id)
      && (last.Present? && last.raw in t.db.tokens && t.db.tokens[last.raw].session == id ==> Outcome(t, last) == Reuse)
    decreases |steps|
  {
    if steps != [] {
      NextKeepsInv(s, steps[0]);
      OverStays(s, steps[0], id);
      OverNeverRotates(s, steps[0], id);
      RevokedForever(Next(s, steps[0]), steps[1..], id, last);
    } else {
      OverNeverRotates(s, last, id);
    }
  }

  predicate Spent(s: State, id: SessionId, raw: Raw) {
    && id in s.used
    && (id in s.db.sessions ==>
          raw in s.db.tokens && s.db.tokens[raw].session == id && s.db.tokens[raw].consumedAt.Some?)
  }

  lemma SpentStays(s: State, step: Step, id: SessionId, raw: Raw)
    requires Inv(s) && Spent(s, id, raw)
    ensures Spent(Next(s, step), id, raw)
  {
    hide ChainsAgree;
    if id in Next(s, step).db.sessions {
      assert TokenAgrees(s.db, raw);
    }
  }

  /** A token rotates at most once: in whatever happens after it did, presenting it fails. */
  lemma {:induction false} RotatesAtMostOnce(s: State, steps: seq<Step>, id: SessionId, raw: Raw, last: Step)
    requires Inv(s) && Spent(s, id, raw)
    requires last.Present? && last.raw == raw
    ensures var t := Run(s, steps);
      raw in t.db.tokens && t.db.tokens[raw].session == id ==> Outcome(t, last) == Reuse
    decreases |steps|
  {
    if steps != [] {
      NextKeepsInv(s, steps[0]);
      SpentStays(s, steps[0], id, raw);
      RotatesAtMostOnce(Next(s, steps[0]), steps[1..], id, raw, last);
    } else if raw in s.db.tokens {
      assert TokenAgrees(s.db, raw);
    }
  }
}
