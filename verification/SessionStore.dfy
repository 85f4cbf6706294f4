/**
 * The session service on its tables: each method runs the statements of one transaction, in order,
 * and does to the tables what the protocol's step does.
 */
module SessionStore {
  import opened Wrappers
  import opened RefreshTokens

  class Store {
    var users: map<UserId, User>
    var sessions: map<SessionId, Session>
    var tokens: map<Raw, Token>

    constructor ()
      ensures View() == Init().db
    {
      users, sessions, tokens := map[], map[], map[];
    }

    function View(): Db
      reads this
    {
      Db(users, sessions, tokens)
    }

    /** `createSession`; writing the login time fails, and undoes the rest, when the account is gone. */
    method CreateSessionFor(user: UserId, id: SessionId, raw: Raw, expiresAt: Time) returns (ok: bool)
      requires id !in sessions && raw !in tokens
      modifies this
      ensures ok <==> Live(old(View()), user)
      ensures View() == if ok then CreateSession(old(View()), id, user, raw, expiresAt) else old(View())
    {
      var sessionsBefore, tokensBefore := sessions, tokens;
      sessions := sessions[id := Session(user, expiresAt, None)];
      tokens := tokens[raw := Token(id, user, expiresAt, None, None, None)];
      if !(user in users && !users[user].deleted) {
        sessions, tokens := sessionsBefore, tokensBefore;
        return false;
      }
      return true;
    }

    method RotateRefreshToken(raw: Raw, next: Raw, now: Time) returns (r: RotateResult)
      requires TokensAgree(View())
      modifies this
      ensures (View(), r) == Rotate(old(View()), raw, next, now)
      ensures users == old(users)
    {
      if raw !in tokens {
        return Invalid;
      }
      var current := tokens[raw];
      assert TokenAgrees(View(), raw);
      var session := sessions[current.session];
      var unusable :=
        || current.consumedAt.Some? || current.replacedBy.Some? || current.revokedAt.Some?
        || current.expiresAt <= now
        || session.revokedAt.Some? || session.expiresAt <= now
        || !(current.user in users && users[current.user].status == ACTIVE && !users[current.user].deleted);
      if unusable {
        sessions := RevokeSessions(sessions, {current.session}, now);
        tokens := RevokeTokens(tokens, (set t | t in tokens && tokens[t].session == current.session), now);
        return Reuse;
      }
      if next in tokens {
        return Aborted;
      }
      tokens := tokens[next := Token(current.session, current.user, session.expiresAt, None, None, None)];
      if tokens[raw].consumedAt.None? && tokens[raw].revokedAt.None? && tokens[raw].replacedBy.None? {
        tokens := tokens[raw := tokens[raw].(consumedAt := Some(now), replacedBy := Some(next))];
      } else {
        // The race branch: a serializable transaction reads the row it then updates.
        assert false;
      }
      return Rotated;
    }

    method RevokeOneSession(id: SessionId, user: UserId, now: Time)
      modifies this
      ensures View() == RevokeSession(old(View()), id, user, now)
    {
      ghost var before := View();
      sessions := RevokeSessions(sessions, (set s | s in sessions && s == id && sessions[s].user == user), now);
      assert sessions == RevokeSessions(before.sessions, {id} * SessionsOf(before, user), now);
      tokens := RevokeTokens(tokens, (set t | t in tokens && tokens[t].session == id && tokens[t].user == user), now);
      assert tokens == RevokeTokens(before.tokens, TokensIn(before, id) * TokensOf(before, user), now);
    }

    /** The two statements every mass revocation runs; `keep` is the session changing its password. */
    method RevokeAllSessions(user: UserId, keep: Option<SessionId>, now: Time)
      modifies this
      ensures View() == RevokeAll(old(View()), user, keep, now)
    {
      ghost var before := View();
      sessions := RevokeSessions(sessions, (set s | s in sessions && sessions[s].user == user && keep != Some(s)), now);
      assert sessions == RevokeAll(before, user, keep, now).sessions;
      tokens := RevokeTokens(tokens, (set t | t in tokens && tokens[t].user == user && keep != Some(tokens[t].session)), now);
      assert tokens == RevokeAll(before, user, keep, now).tokens;
    }

    /** `updateUser` with a status; updating a deleted account fails. */
    method UpdateUserStatus(user: UserId, status: Status, now: Time) returns (ok: bool)
      modifies this
      ensures ok <==> Live(old(View()), user)
      ensures View() == if ok then SetStatus(old(View()), user, status, now) else old(View())
    {
      if !(user in users && !users[user].deleted) {
        return false;
      }
      users := users[user := users[user].(status := status)];
      if status == SUSPENDED || status == DISABLED {
        RevokeAllSessions(user, None, now);
      }
      return true;
    }
  }
}
