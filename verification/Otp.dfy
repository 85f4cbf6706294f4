/**
 * One-time codes and password reset: attempt counting and locking, consumption, reset tokens. Each
 * step is one statement or one transaction; what a caller read before it is a parameter, so a step may
 * come from any stale reader.
 */
module Otp {
  import opened Wrappers

  type UserId = nat
  type ChallengeId = nat
  type TokenId = nat
  type Time = nat

  const MAX_ATTEMPTS: nat := 5

  datatype Purpose = LOGIN | VERIFY_EMAIL | VERIFY_PHONE | EMAIL_CHANGE | PASSWORD_RESET

  datatype Challenge = Challenge(
    user: UserId,
    purpose: Purpose,
    attempts: nat,
    maxAttempts: nat,
    expiresAt: Time,
    verifiedAt: Option<Time>,
    consumedAt: Option<Time>,
    lockedAt: Option<Time>)

  /** A token row, named by its hash, which is unique. */
  datatype Token = Token(user: UserId, challenge: ChallengeId, expiresAt: Time, usedAt: Option<Time>, deletedAt: Option<Time>)

  datatype Change = Change(user: UserId, token: TokenId, challenge: ChallengeId)

  /** The tables, and what has happened: identifiers handed out, codes consumed, passwords changed. */
  datatype State = State(
    users: map<UserId, bool>,
    challenges: map<ChallengeId, Challenge>,
    tokens: map<TokenId, Token>,
    issued: set<ChallengeId>,
    minted: set<TokenId>,
    consumed: seq<ChallengeId>,
    changes: seq<Change>)

  datatype Step =
    | SetActive(user: UserId, active: bool)
    | Issue(challenge: ChallengeId, user: UserId, purpose: Purpose, expiresAt: Time)
    | WrongCode(challenge: ChallengeId, now: Time)
    | ConsumeOtp(challenge: ChallengeId, now: Time)
    | ConsumeEmailChange(challenge: ChallengeId, now: Time)
    | VerifyReset(challenge: ChallengeId, token: TokenId, now: Time, expiresAt: Time)
    | ConfirmReset(token: TokenId, now: Time)
    | EraseUser(user: UserId)
    | Purge(challenge: ChallengeId)

  function Init(): State {
    State(map[], map[], map[], {}, {}, [], [])
  }

  // ---------------------------------------------------------------------------------------------
  // Row functions
  // ---------------------------------------------------------------------------------------------

  /** The statement of `recordInvalidOtpAttempt`. */
  predicate CountsAttempt(c: Challenge, now: Time) {
    c.attempts < c.maxAttempts && c.consumedAt.None? && c.verifiedAt.None? && c.lockedAt.None? && c.expiresAt > now
  }

  function Attempted(c: Challenge, now: Time): Challenge {
    c.(attempts := c.attempts + 1, lockedAt := if c.attempts + 1 >= c.maxAttempts then Some(now) else c.lockedAt)
  }

  predicate Consumable(c: Challenge) {
    c.consumedAt.None? && c.lockedAt.None?
  }

  predicate Live(t: Token) {
    t.usedAt.None? && t.deletedAt.None?
  }

  /** `passwordResetToken.updateMany` retiring every live token of the user but `keep`. */
  function RetireTokens(tokens: map<TokenId, Token>, user: UserId, keep: Option<TokenId>, now: Time): map<TokenId, Token> {
    map t | t in tokens ::
      if tokens[t].user == user && Live(tokens[t]) && keep != Some(t) then tokens[t].(deletedAt := Some(now)) else tokens[t]
  }

  predicate Verifiable(s: State, id: ChallengeId, now: Time) {
    && id in s.challenges
    && s.challenges[id].purpose == PASSWORD_RESET
    && Consumable(s.challenges[id]) && s.challenges[id].verifiedAt.None? && s.challenges[id].expiresAt > now
  }

  function VerifyStep(s: State, id: ChallengeId, token: TokenId, now: Time, expiresAt: Time): State {
    if !Verifiable(s, id, now) || token in s.minted then s
    else
      var c := s.challenges[id];
      s.(challenges := s.challenges[id := c.(verifiedAt := Some(now))],
         tokens := RetireTokens(s.tokens, c.user, None, now)[token := Token(c.user, id, expiresAt, None, None)],
         minted := s.minted + {token})
  }

  datatype ConfirmResult = NotUsable | Failed | Changed

  /** The transaction of `confirmPasswordReset`: a guard that fails midway undoes all of it. */
  function Confirm(s: State, token: TokenId, now: Time): (State, ConfirmResult) {
    if token !in s.tokens || !Live(s.tokens[token]) || s.tokens[token].expiresAt <= now then (s, NotUsable)
    else
      var t := s.tokens[token];
      if t.challenge !in s.challenges || !Consumable(s.challenges[t.challenge]) then (s, Failed)
      else if t.user !in s.users || !s.users[t.user] then (s, Failed)
      else
        (s.(challenges := s.challenges[t.challenge := s.challenges[t.challenge].(consumedAt := Some(now))],
            tokens := RetireTokens(s.tokens[token := t.(usedAt := Some(now))], t.user, Some(token), now),
            consumed := s.consumed + [t.challenge],
            changes := s.changes + [Change(t.user, token, t.challenge)]),
         Changed)
  }

  function ConsumeStep(s: State, id: ChallengeId, now: Time): State
    requires id in s.challenges
  {
    s.(challenges := s.challenges[id := s.challenges[id].(consumedAt := Some(now))], consumed := s.consumed + [id])
  }

  predicate IsOtpPurpose(p: Purpose) {
    p == LOGIN || p == VERIFY_EMAIL || p == VERIFY_PHONE
  }

  function Next(s: State, step: Step): State {
    match step
    case SetActive(u, active) => s.(users := s.users[u := active])
    case Issue(id, u, purpose, expiresAt) =>
      if id in s.issued then s
      else s.(challenges := s.challenges[id := Challenge(u, purpose, 0, MAX_ATTEMPTS, expiresAt, None, None, None)],
              issued := s.issued + {id})
    case WrongCode(id, now) =>
      if id in s.challenges && CountsAttempt(s.challenges[id], now) then
        s.(challenges := s.challenges[id := Attempted(s.challenges[id], now)])
      else s
    case ConsumeOtp(id, now) =>
      if id in s.challenges && IsOtpPurpose(s.challenges[id].purpose) && Consumable(s.challenges[id]) then ConsumeStep(s, id, now)
      else s
    case ConsumeEmailChange(id, now) =>
      if id in s.challenges && s.challenges[id].purpose == EMAIL_CHANGE
         && Consumable(s.challenges[id]) && s.challenges[id].expiresAt > now
      then ConsumeStep(s, id, now)
      else s
    case VerifyReset(id, token, now, expiresAt) => VerifyStep(s, id, token, now, expiresAt)
    case ConfirmReset(token, now) => Confirm(s, token, now).0
    case EraseUser(u) =>
      s.(users := s.users - {u},
         challenges := map c | c in s.challenges && s.challenges[c].user != u :: s.challenges[c],
         tokens := map t | t in s.tokens && s.tokens[t].user != u :: s.tokens[t])
    case Purge(id) =>
      s.(challenges := s.challenges - {id},
         tokens := map t | t in s.tokens && s.tokens[t].challenge != id :: s.tokens[t])
  }

  function Run(s: State, steps: seq<Step>): State
    decreases |steps|
  {
    if steps == [] then s else Run(Next(s, steps[0]), steps[1..])
  }

  // ---------------------------------------------------------------------------------------------
  // The invariant
  // ---------------------------------------------------------------------------------------------

  /** Attempts never pass the maximum, reaching it is what locks, and a locked code did nothing. */
  ghost predicate ChallengeAgrees(c: Challenge) {
    && c.attempts <= c.maxAttempts && c.maxAttempts >= 1
    && (c.lockedAt.Some? <==> c.attempts == c.maxAttempts)
    && (c.lockedAt.Some? ==> c.verifiedAt.None? && c.consumedAt.None?)
  }

  /** A token belongs to a verified challenge of its user; a live one to an unconsumed, unlocked one. */
  ghost predicate TokenAgrees(s: State, t: Token) {
    && t.challenge in s.challenges
    && var c := s.challenges[t.challenge];
    && c.user == t.user && c.purpose == PASSWORD_RESET && c.verifiedAt.Some?
    && (Live(t) ==> Consumable(c))
  }

  ghost predicate TokensAgree(s: State) {
    && s.tokens.Keys <= s.minted
    && (forall t :: t in s.tokens ==> TokenAgrees(s, s.tokens[t]))
    && (forall t, r :: t in s.tokens && r in s.tokens && s.tokens[t].challenge == s.tokens[r].challenge ==> t == r)
  }

  ghost predicate OneLiveToken(s: State) {
    forall t, r :: t in s.tokens && r in s.tokens && Live(s.tokens[t]) && Live(s.tokens[r])
      && s.tokens[t].user == s.tokens[r].user
      ==> t == r
  }

  ghost predicate ChallengesAgree(s: State) {
    && s.challenges.Keys <= s.issued
    && (forall c :: c in s.challenges ==> ChallengeAgrees(s.challenges[c]))
  }

  /** Every code in the log was issued, is used up, and is there once. */
  ghost predicate LogAgrees(s: State) {
    && (forall i :: 0 <= i < |s.consumed| ==>
          s.consumed[i] in s.issued && (s.consumed[i] in s.challenges ==> s.challenges[s.consumed[i]].consumedAt.Some?))
    && (forall i, j :: 0 <= i < j < |s.consumed| ==> s.consumed[i] != s.consumed[j])
  }

  ghost predicate ChangesAgree(s: State) {
    && (forall i :: 0 <= i < |s.changes| ==>
          && s.changes[i].token in s.minted && s.changes[i].challenge in s.consumed
          && (s.changes[i].token in s.tokens ==> s.tokens[s.changes[i].token].usedAt.Some?))
    && (forall i, j :: 0 <= i < j < |s.changes| ==>
          s.changes[i].token != s.changes[j].token && s.changes[i].challenge != s.changes[j].challenge)
  }

  ghost predicate Inv(s: State) {
    ChallengesAgree(s) && TokensAgree(s) && OneLiveToken(s) && LogAgrees(s) && ChangesAgree(s)
  }

  /** Steps on one challenge that touch neither tokens nor logs. */
  lemma ChallengeStepKeepsInv(s: State, step: Step)
    requires Inv(s) && (step.SetActive? || step.Issue? || step.WrongCode?)
    ensures Inv(Next(s, step))
  {
    var t := Next(s, step);
    forall k | k in t.tokens
      ensures TokenAgrees(t, t.tokens[k])
    {
      assert TokenAgrees(s, s.tokens[k]);
    }
  }

  lemma ConsumeKeepsInv(s: State, id: ChallengeId, now: Time)
    requires Inv(s) && id in s.challenges && s.challenges[id].purpose != PASSWORD_RESET && Consumable(s.challenges[id])
    ensures Inv(ConsumeStep(s, id, now))
  {
    var t := ConsumeStep(s, id, now);
    forall k | k in t.tokens
      ensures TokenAgrees(t, t.tokens[k])
    {
      assert TokenAgrees(s, s.tokens[k]);
    }
    forall i | 0 <= i < |s.consumed|
      ensures s.consumed[i] != id
    {
    }
    forall i | 0 <= i < |s.changes|
      ensures s.changes[i].challenge in t.consumed
    {
      assert s.changes[i].challenge in s.consumed;
    }
  }

  lemma VerifyKeepsTokens(s: State, id: ChallengeId, token: TokenId, now: Time, expiresAt: Time)
    requires Inv(s)
    ensures TokensAgree(VerifyStep(s, id, token, now, expiresAt))
  {
    hide OneLiveToken, LogAgrees, ChangesAgree, ChallengesAgree;
    var t := VerifyStep(s, id, token, now, expiresAt);
    if t != s {
      forall k | k in s.tokens
        ensures s.tokens[k].challenge != id
      {
        assert TokenAgrees(s, s.tokens[k]);
      }
      forall k | k in t.tokens
        ensures TokenAgrees(t, t.tokens[k])
      {
        assert k != token ==> TokenAgrees(s, s.tokens[k]);
      }
    }
  }

  lemma VerifyKeepsOneLive(s: State, id: ChallengeId, token: TokenId, now: Time, expiresAt: Time)
    requires OneLiveToken(s)
    ensures OneLiveToken(VerifyStep(s, id, token, now, expiresAt))
  {
  }

  lemma VerifyKeepsInv(s: State, id: ChallengeId, token: TokenId, now: Time, expiresAt: Time)
    requires Inv(s)
    ensures Inv(VerifyStep(s, id, token, now, expiresAt))
  {
    VerifyKeepsTokens(s, id, token, now, expiresAt);
    VerifyKeepsOneLive(s, id, token, now, expiresAt);
    hide TokensAgree, OneLiveToken;
  }

  lemma ConfirmKeepsTokens(s: State, token: TokenId, now: Time)
    requires Inv(s)
    ensures TokensAgree(Confirm(s, token, now).0) && OneLiveToken(Confirm(s, token, now).0)
  {
    hide LogAgrees, ChangesAgree;
    var (t, r) := Confirm(s, token, now);
    if r.Changed? {
      assert TokenAgrees(s, s.tokens[token]);
      forall k | k in t.tokens
        ensures TokenAgrees(t, t.tokens[k])
      {
        assert TokenAgrees(s, s.tokens[k]);
      }
    }
  }

  lemma ConfirmKeepsLogs(s: State, token: TokenId, now: Time)
    requires Inv(s)
    ensures LogAgrees(Confirm(s, token, now).0) && ChangesAgree(Confirm(s, token, now).0)
  {
    var (t, r) := Confirm(s, token, now);
    if r.Changed? {
      var c := s.tokens[token].challenge;
      forall i | 0 <= i < |s.consumed|
        ensures s.consumed[i] != c
      {
      }
      forall i | 0 <= i < |s.changes|
        ensures s.changes[i].challenge in t.consumed && s.changes[i].challenge != c && s.changes[i].token != token
      {
        assert s.changes[i].challenge in s.consumed;
      }
      assert t.consumed[|s.consumed|] == c;
      hide TokensAgree, OneLiveToken, ChallengesAgree;
    }
  }

  lemma ConfirmKeepsInv(s: State, token: TokenId, now: Time)
    requires Inv(s)
    ensures Inv(Confirm(s, token, now).0)
  {
    ConfirmKeepsTokens(s, token, now);
    ConfirmKeepsLogs(s, token, now);
    hide TokensAgree, OneLiveToken, LogAgrees, ChangesAgree;
  }

  lemma RemovalKeepsInv(s: State, step: Step)
    requires Inv(s) && (step.EraseUser? || step.Purge?)
    ensures Inv(Next(s, step))
  {
    var t := Next(s, step);
    forall k | k in t.tokens
      ensures TokenAgrees(t, t.tokens[k])
    {
      assert TokenAgrees(s, s.tokens[k]);
    }
  }

  lemma NextKeepsInv(s: State, step: Step)
    requires Inv(s)
    ensures Inv(Next(s, step))
  {
    match step
    case ConsumeOtp(id, now) =>
      if id in s.challenges && IsOtpPurpose(s.challenges[id].purpose) && Consumable(s.challenges[id]) {
        ConsumeKeepsInv(s, id, now);
      }
    case ConsumeEmailChange(id, now) =>
      if id in s.challenges && s.challenges[id].purpose == EMAIL_CHANGE && Consumable(s.challenges[id]) {
        ConsumeKeepsInv(s, id, now);
      }
    case VerifyReset(id, token, now, expiresAt) => VerifyKeepsInv(s, id, token, now, expiresAt);
    case ConfirmReset(token, now) => ConfirmKeepsInv(s, token, now);
    case EraseUser(_) => RemovalKeepsInv(s, step);
    case Purge(_) => RemovalKeepsInv(s, step);
    case _ => ChallengeStepKeepsInv(s, step);
  }

  lemma {:induction false} RunKeepsInv(s: State, steps: seq<Step>)
    requires Inv(s)
    ensures Inv(Run(s, steps))
    decreases |steps|
  {
    if steps != [] {
      NextKeepsInv(s, steps[0]);
      RunKeepsInv(Next(s, steps[0]), steps[1..]);
    }
  }

  // ---------------------------------------------------------------------------------------------
  // What follows for every run
  // ---------------------------------------------------------------------------------------------

  /** Attempts stay within the maximum, reaching it locks, and a locked code was never verified or consumed. */
  lemma AttemptsAreBounded(steps: seq<Step>, id: ChallengeId)
    requires id in Run(Init(), steps).challenges
    ensures var c := Run(Init(), steps).challenges[id];
      && c.attempts <= c.maxAttempts
      && (c.attempts == c.maxAttempts <==> c.lockedAt.Some?)
      && !(c.lockedAt.Some? && (c.verifiedAt.Some? || c.consumedAt.Some?))
  {
    RunKeepsInv(Init(), steps);
    var s := Run(Init(), steps);
    assert ChallengeAgrees(s.challenges[id]);
  }

  /** Locked, or gone with its identifier used up. */
  predicate LockedOrGone(s: State, id: ChallengeId) {
    id in s.issued && (id in s.challenges ==> s.challenges[id].lockedAt.Some?)
  }

  lemma LockStays(s: State, step: Step, id: ChallengeId)
    requires Inv(s) && LockedOrGone(s, id)
    ensures LockedOrGone(Next(s, step), id)
    ensures id in Next(s, step).consumed <==> id in s.consumed
  {
    hide OneLiveToken, LogAgrees, ChangesAgree;
    var t := Next(s, step);
    if step.ConfirmReset? && t != s {
      assert TokenAgrees(s, s.tokens[step.token]);
      ConsumedGrows(s.consumed, s.tokens[step.token].challenge, id);
    } else if (step.ConsumeOtp? || step.ConsumeEmailChange?) && t != s {
      ConsumedGrows(s.consumed, step.challenge, id);
    }
  }

  lemma ConsumedGrows(log: seq<ChallengeId>, c: ChallengeId, id: ChallengeId)
    ensures id in log + [c] <==> id in log || id == c
  {
  }

  /** A lock is never lifted, and no run consumes a code once it is locked. */
  lemma {:induction false} LockedForGood(s: State, steps: seq<Step>, id: ChallengeId)
    requires Inv(s) && LockedOrGone(s, id)
    ensures LockedOrGone(Run(s, steps), id) && (id in Run(s, steps).consumed <==> id in s.consumed)
    decreases |steps|
  {
    if steps != [] {
      hide Next, Inv;
      NextKeepsInv(s, steps[0]);
      LockStays(s, steps[0], id);
      LockedForGood(Next(s, steps[0]), steps[1..], id);
    }
  }

  /** No code is consumed twice: one login, one verification, one email change or one reset each. */
  lemma CodesAreConsumedOnce(steps: seq<Step>, i: nat, j: nat)
    requires i < |Run(Init(), steps).consumed| && j < |Run(Init(), steps).consumed|
    requires Run(Init(), steps).consumed[i] == Run(Init(), steps).consumed[j]
    ensures i == j
  {
    RunKeepsInv(Init(), steps);
  }

  /** Each reset token, and each challenge behind one, changes a password at most once. */
  lemma PasswordsChangeOnce(steps: seq<Step>, i: nat, j: nat)
    requires var changes := Run(Init(), steps).changes;
      && i < |changes| && j < |changes|
      && (changes[i].token == changes[j].token || changes[i].challenge == changes[j].challenge)
    ensures i == j
  {
    RunKeepsInv(Init(), steps);
  }

  /** A user never has two reset tokens that could still be used. */
  lemma OneLiveTokenPerUser(steps: seq<Step>, t: TokenId, r: TokenId)
    requires var s := Run(Init(), steps);
      && t in s.tokens && r in s.tokens && Live(s.tokens[t]) && Live(s.tokens[r]) && s.tokens[t].user == s.tokens[r].user
    ensures t == r
  {
    RunKeepsInv(Init(), steps);
  }

  /**
   * A confirmation changes the password exactly when its token is live and unexpired and its user is
   * active: the failure for a challenge consumed meanwhile cannot arise. It leaves the user no token.
   */
  lemma ConfirmSucceedsExactly(s: State, token: TokenId, now: Time)
    requires Inv(s)
    ensures Confirm(s, token, now).1 == Changed <==>
      && token in s.tokens && Live(s.tokens[token]) && now < s.tokens[token].expiresAt
      && s.tokens[token].user in s.users && s.users[s.tokens[token].user]
    ensures Confirm(s, token, now).1 == Changed ==>
      forall t :: t in Confirm(s, token, now).0.tokens && Confirm(s, token, now).0.tokens[t].user == s.tokens[token].user ==>
        !Live(Confirm(s, token, now).0.tokens[t])
  {
    if token in s.tokens {
      assert TokenAgrees(s, s.tokens[token]);
    }
  }

  // ---------------------------------------------------------------------------------------------
  // The tables
  // ---------------------------------------------------------------------------------------------

  class Store {
    var users: map<UserId, bool>
    var challenges: map<ChallengeId, Challenge>
    var tokens: map<TokenId, Token>
    ghost var issued: set<ChallengeId>
    ghost var minted: set<TokenId>
    ghost var consumed: seq<ChallengeId>
    ghost var changes: seq<Change>

    constructor ()
      ensures View() == Init()
    {
      users, challenges, tokens := map[], map[], map[];
      issued, minted, consumed, changes := {}, {}, [], [];
    }

    ghost function View(): State
      reads this
    {
      State(users, challenges, tokens, issued, minted, consumed, changes)
    }

    method RecordInvalidAttempt(id: ChallengeId, now: Time)
      modifies this`challenges
      ensures View() == Next(old(View()), WrongCode(id, now))
    {
      if id in challenges {
        var c := challenges[id];
        if c.attempts < c.maxAttempts && c.consumedAt.None? && c.verifiedAt.None? && c.lockedAt.None? && c.expiresAt > now {
          var lockedAt := if c.attempts + 1 >= c.maxAttempts then Some(now) else c.lockedAt;
          challenges := challenges[id := c.(attempts := c.attempts + 1, lockedAt := lockedAt)];
        }
      }
    }

    /** The consume step of `verifyOtp`. */
    method ConsumeCode(id: ChallengeId, now: Time) returns (ok: bool)
      requires id in challenges ==> IsOtpPurpose(challenges[id].purpose)
      modifies this
      ensures View() == Next(old(View()), ConsumeOtp(id, now))
      ensures ok <==> id in old(challenges) && Consumable(old(challenges)[id])
    {
      if !(id in challenges && challenges[id].consumedAt.None? && challenges[id].lockedAt.None?) {
        return false;
      }
      challenges := challenges[id := challenges[id].(consumedAt := Some(now))];
      consumed := consumed + [id];
      return true;
    }

    /** The transaction of `verifyPasswordResetOtp`, after the code was compared. */
    method IssueResetToken(id: ChallengeId, token: TokenId, now: Time, expiresAt: Time) returns (issuedToken: bool)
      requires id in challenges ==> challenges[id].purpose == PASSWORD_RESET
      requires token !in minted
      modifies this
      ensures View() == VerifyStep(old(View()), id, token, now, expiresAt)
      ensures issuedToken <==> Verifiable(old(View()), id, now)
    {
      if !(id in challenges && challenges[id].consumedAt.None? && challenges[id].verifiedAt.None?
           && challenges[id].lockedAt.None? && challenges[id].expiresAt > now) {
        return false;
      }
      var user := challenges[id].user;
      challenges := challenges[id := challenges[id].(verifiedAt := Some(now))];
      tokens := RetireTokens(tokens, user, None, now);
      tokens := tokens[token := Token(user, id, expiresAt, None, None)];
      minted := minted + {token};
      return true;
    }

    /** `confirmPasswordReset`: three guarded updates, undone together when one of them misses. */
    method ConfirmPasswordReset(token: TokenId, now: Time) returns (r: ConfirmResult)
      modifies this
      ensures (View(), r) == Confirm(old(View()), token, now)
    {
      var challengesBefore, tokensBefore := challenges, tokens;
      if !(token in tokens && tokens[token].usedAt.None? && tokens[token].deletedAt.None? && tokens[token].expiresAt > now) {
        return NotUsable;
      }
      var reset := tokens[token];
      tokens := tokens[token := reset.(usedAt := Some(now))];
      if !(reset.challenge in challenges && challenges[reset.challenge].consumedAt.None?
           && challenges[reset.challenge].lockedAt.None?) {
        tokens := tokensBefore;
        return Failed;
      }
      challenges := challenges[reset.challenge := challenges[reset.challenge].(consumedAt := Some(now))];
      if !(reset.user in users && users[reset.user]) {
        challenges, tokens := challengesBefore, tokensBefore;
        return Failed;
      }
      tokens := RetireTokens(tokens, reset.user, Some(token), now);
      consumed := consumed + [reset.challenge];
      changes := changes + [Change(reset.user, token, reset.challenge)];
      return Changed;
    }
  }
}
