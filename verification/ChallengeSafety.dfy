/** A challenge is answered at most five times and opens at most one thing
    (internal/identity/challenge.go, challengestore.go). */
module ChallengeSafety {
  import opened Base
  import opened Policy
  import opened Rows
  import opened Runs
  import Steps
  import Totp

  /** How many answers to a challenge were checked and found right, or wrong. */
  function Answers(h: History, t: Token, right: bool): nat {
    if h.Nothing? then 0
    else Answers(h.past, t, right)
         + if h.last.Answered? && h.last.token == t && h.last.right == right then 1 else 0
  }

  /** How many sessions a challenge opened. */
  function SessionsFrom(h: History, t: Token): nat {
    if h.Nothing? then 0
    else SessionsFrom(h.past, t)
         + if h.last.Opened? && h.last.how.BySecondStep? && h.last.how.challenge == t then 1 else 0
  }

  ghost predicate Bounded(h: History, t: Token) {
    && Answers(h, t, true) + Answers(h, t, false) <= Steps.CHALLENGE_ATTEMPTS
    && Answers(h, t, true) <= 1
    && SessionsFrom(h, t) <= Answers(h, t, true)
    && (!TokenSeen(h, t) ==> Answers(h, t, true) == 0 && Answers(h, t, false) == 0)
  }

  /** An unused row has counted every answer to its challenge. */
  ghost predicate RowCounts(h: History, t: Token, row: ChallengeRow) {
    && TokenSeen(h, t)
    && (row.used.None? ==> Answers(h, t, true) == 0 && Answers(h, t, false) == row.attempts < Steps.CHALLENGE_ATTEMPTS)
  }

  ghost predicate Inv(s: Account) {
    && (forall t: Token :: Bounded(s.history, t))
    && (forall t :: t in s.challenges ==> RowCounts(s.history, t, s.challenges[t]))
  }

  lemma CreatedIsSafe(kind: Kind, secret: Secret)
    ensures Inv(Created(kind, secret))
  {
    forall t: Token ensures Bounded(Created(kind, secret).history, t) {
      assert Answers(Nothing, t, true) == Answers(Nothing, t, false) == SessionsFrom(Nothing, t) == 0;
    }
  }

  /** The history functions read no other event. */
  lemma {:induction false} OnlyKeeps(later: History, h: History, part: Part)
    requires Only(later, h, part) && part != Answering
    ensures forall t: Token, right: bool :: Answers(later, t, right) == Answers(h, t, right)
    ensures forall t: Token :: SessionsFrom(later, t) == SessionsFrom(h, t) && TokenSeen(later, t) == TokenSeen(h, t)
  {
    if later != h {
      OnlyKeeps(later.past, h, part);
    }
  }

  /** One more event that is no answer, opens no challenge and no session. */
  lemma LogKeeps(s: Account, later: Account)
    requires Inv(s) && later.challenges == s.challenges
    requires later.history == s.history
          || (later.history.Then? && later.history.past == s.history && !later.history.last.Answered?
              && !(later.history.last.Opened? && later.history.last.how.BySecondStep?))
    ensures Inv(later)
  {
    forall t: Token ensures Bounded(later.history, t) {
      assert Bounded(s.history, t);
    }
    forall t | t in later.challenges ensures RowCounts(later.history, t, later.challenges[t]) {
      assert RowCounts(s.history, t, s.challenges[t]);
    }
  }

  lemma OnlyKeepsInv(s: Account, later: Account, part: Part)
    requires Inv(s) && later.challenges == s.challenges
    requires Only(later.history, s.history, part) && part != Answering
    ensures Inv(later)
  {
    OnlyKeeps(later.history, s.history, part);
    forall t: Token ensures Bounded(later.history, t) {
      assert Bounded(s.history, t);
    }
    forall t | t in later.challenges ensures RowCounts(later.history, t, later.challenges[t]) {
      assert RowCounts(s.history, t, s.challenges[t]);
    }
  }

  lemma InsertKeeps(s: Account, token: Token, session: Option<Token>, action: Option<Action>, now: Time)
    requires Inv(s) && !TokenSeen(s.history, token)
    ensures Inv(Steps.InsertChallenge(s, token, session, action, now))
  {
    var later := Steps.InsertChallenge(s, token, session, action, now);
    forall t: Token ensures Bounded(later.history, t) {
      assert Bounded(s.history, t);
    }
    forall t | t in later.challenges ensures RowCounts(later.history, t, later.challenges[t]) {
      assert Bounded(s.history, t);
      assert t != token ==> RowCounts(s.history, t, s.challenges[t]);
    }
  }

  /** An answer to a challenge that could be answered: the row keeps counting,
      and a right one is the only one. */
  lemma AnswerKeeps(apps: Totp.AppCodes, s: Account, token: Token, owner: Option<Token>, a: Steps.Answer, now: Time)
    requires Inv(s) && token in s.challenges && Steps.Answerable(s.challenges[token], now)
    ensures var after := Steps.AnswerChallenge(apps, s, token, owner, a, now);
            && Inv(after.0)
            && (after.1 ==> SessionsFrom(after.0.history, token) == 0 && Answers(after.0.history, token, true) == 1)
  {
    var o := Steps.Offers(s, s.challenges[token].action);
    var checked := Steps.Check(apps, s, owner, o, a, now).0.history;
    var after := Steps.AnswerChallenge(apps, s, token, owner, a, now);
    AnswerEffects(apps, s, token, owner, a, now);
    CheckEffects(apps, s, owner, o, a, now);
    OnlyKeeps(checked, s.history, Checking);
    OnlyKeeps(after.0.history, Then(checked, Answered(token, a.m, after.1, Steps.IsSecondFactor(o, a.m), now)),
              Notifying);
    assert RowCounts(s.history, token, s.challenges[token]);
    forall t: Token ensures Bounded(after.0.history, t) {
      assert Bounded(s.history, t);
    }
    assert Bounded(s.history, token);
    forall t | t in after.0.challenges ensures RowCounts(after.0.history, t, after.0.challenges[t]) {
      assert RowCounts(s.history, t, s.challenges[t]);
    }
  }

  lemma OpenFromChallengeKeeps(s: Account, challenge: Token, m: Method, next: Token, now: Time)
    requires Inv(s) && SessionsFrom(s.history, challenge) == 0 && Answers(s.history, challenge, true) == 1
    ensures Inv(Steps.InsertSession(s, next, BySecondStep(challenge, m), now))
  {
    var later := Steps.InsertSession(s, next, BySecondStep(challenge, m), now);
    forall t: Token ensures Bounded(later.history, t) {
      assert Bounded(s.history, t);
    }
    forall t | t in later.challenges ensures RowCounts(later.history, t, later.challenges[t]) {
      assert RowCounts(s.history, t, s.challenges[t]);
    }
  }

  lemma CompleteSignInKeeps(apps: Totp.AppCodes, s: Account, token: Token, a: Steps.Answer, next: Token, now: Time)
    requires Inv(s)
    ensures Inv(Steps.CompleteSignIn(apps, s, token, a, next, now).0)
  {
    if Steps.Find(s, token, None, now).Some? {
      AnswerKeeps(apps, s, token, None, a, now);
      var answered := Steps.AnswerChallenge(apps, s, token, None, a, now);
      if answered.1 {
        OpenFromChallengeKeeps(answered.0, token, a.m, next, now);
        LogKeeps(Steps.InsertSession(answered.0, next, BySecondStep(token, a.m), now),
                 Steps.CompleteSignIn(apps, s, token, a, next, now).0);
      }
    }
  }

  lemma StepUpKeeps(apps: Totp.AppCodes, s: Account, session: Session, token: Token, a: Steps.Answer, now: Time)
    requires Inv(s)
    ensures Inv(Steps.StepUp(apps, s, session, token, a, now).0)
  {
    if Steps.Find(s, token, Some(session.id), now).Some? {
      AnswerKeeps(apps, s, token, Some(session.id), a, now);
      var answered := Steps.AnswerChallenge(apps, s, token, Some(session.id), a, now);
      if answered.1 {
        StepUpEffects(apps, s, session, token, a, now);
        LogKeeps(answered.0, Steps.StepUp(apps, s, session, token, a, now).0);
      }
    }
  }

  lemma SignInKeeps(s: Account, read: Secret, rehash: Option<Secret>, next: Token, now: Time)
    requires Inv(s) && !TokenSeen(s.history, next)
    ensures Inv(Steps.FinishSignIn(s, read, rehash, next, now).0)
  {
    if s.secret == read {
      var kept := if rehash.Some? then Log(s.(secret := rehash.value), Stored(rehash.value, false)) else s;
      LogKeeps(s, kept);
      if s.factors != [] {
        InsertKeeps(kept, next, None, None, now);
      } else {
        LogKeeps(kept, Steps.InsertSession(kept, next, ByPassword(read), now));
      }
    }
  }

  lemma FinishChangeKeeps(s: Account, session: Session, read: Secret, secret: Secret, next: Token, now: Time)
    requires Inv(s)
    ensures Inv(Steps.FinishChange(s, session, read, secret, next, now).0)
  {
    if s.secret == read {
      var ended := Steps.EndSignIns(s);
      assert Inv(ended);
      var changed := Log(ended, Stored(secret, true));
      LogKeeps(ended, changed);
      LogKeeps(changed, Steps.FinishChange(s, session, read, secret, next, now).0);
    }
  }

  lemma Kept(apps: Totp.AppCodes, s: Account, step: Step)
    requires Inv(s) && Enabled(s, step)
    ensures Inv(Apply(apps, s, step))
  {
    if IsFactorStep(step) {
      FactorStepEffects(apps, s, step);
      OnlyKeepsInv(s, Apply(apps, s, step), Changing);
    } else if IsSendStep(step) {
      SendStepEffects(apps, s, step);
      LogKeeps(s, Apply(apps, s, step));
    } else {
      match step
      case SignIn(read, rehash, next, now) => SignInKeeps(s, read, rehash, next, now);
      case FinishChange(session, read, secret, next, now) => FinishChangeKeeps(s, session, read, secret, next, now);
      case CompleteSignIn(token, a, next, now) => CompleteSignInKeeps(apps, s, token, a, next, now);
      case StepUp(session, token, a, now) => StepUpKeeps(apps, s, session, token, a, now);
      case BeginStepUp(session, action, next, now) => InsertKeeps(s, next, Some(session.id), Some(action), now);
      case _ => LogKeeps(s, Apply(apps, s, step));
    }
  }

  /** A challenge that was answered right, or five times wrong, is answered no
      more: whatever is tried, nothing is checked and nothing changes. */
  lemma NeverAgain(apps: Totp.AppCodes, s: Account, token: Token, a: Steps.Answer, next: Token, now: Time)
    requires Inv(s)
    requires Answers(s.history, token, true) == 1 || Answers(s.history, token, false) == Steps.CHALLENGE_ATTEMPTS
    ensures Steps.CompleteSignIn(apps, s, token, a, next, now) == (s, Steps.ChallengeInvalid)
    ensures forall session: Session :: Steps.StepUp(apps, s, session, token, a, now) == (s, Steps.ChallengeInvalid)
  {
    assert token in s.challenges ==> RowCounts(s.history, token, s.challenges[token]);
  }

  /** Opening a challenge clears those that can no longer be answered: every row
      the account then has can be. */
  lemma OnlyAnswerableRemain(s: Account, token: Token, session: Option<Token>, action: Option<Action>, now: Time)
    requires Inv(s)
    ensures forall t :: t in Steps.InsertChallenge(s, token, session, action, now).challenges
                        ==> Steps.Answerable(Steps.InsertChallenge(s, token, session, action, now).challenges[t], now)
  {
    var later := Steps.InsertChallenge(s, token, session, action, now);
    forall t | t in later.challenges ensures Steps.Answerable(later.challenges[t], now) {
      if t != token {
        assert RowCounts(s.history, t, s.challenges[t]);
      }
    }
  }
}
