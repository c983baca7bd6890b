/** The run of failed second factors: counted exactly, announced once at ten and
    once at a hundred, and from there on no typed code is accepted or sent for a
    challenge (internal/identity/failures.go). The cap is the one section 5.2.2
    of NIST SP 800-63B sets. */
module FailureSafety {
  import opened Base
  import opened Policy
  import opened Rows
  import opened Runs
  import Steps
  import Totp

  /** What ends a run: a right second factor, or a new password. */
  predicate Resets(e: Event) { (e.Answered? && e.right && e.counts) || (e.Stored? && e.change) }

  predicate Fails(e: Event) { e.Answered? && !e.right && e.counts }

  /** The wrong second-factor answers since the run last ended. */
  function Run(h: History): nat {
    if h.Nothing? || Resets(h.last) then 0 else Run(h.past) + if Fails(h.last) then 1 else 0
  }

  /** The notices sent since the run last ended: the first one, or the lock's. */
  function Sent(h: History, lock: bool): nat {
    if h.Nothing? || Resets(h.last) then 0
    else Sent(h.past, lock) + if h.last == (if lock then LockNoticed else Noticed) then 1 else 0
  }

  /** A right answer with a code a person types, or a code sent for a challenge. */
  predicate TypedCodeServed(e: Event) {
    (e.Answered? && e.right && (e.m == App || e.m == Email)) || (e.CodeSent? && e.purpose != EnrolCode)
  }

  /** No typed code was ever served while the run stood at a hundred. */
  predicate LockKept(h: History) {
    h.Then? ==> LockKept(h.past) && (TypedCodeServed(h.last) ==> Run(h.past) < Steps.FAILURES_LOCKED)
  }

  ghost predicate Told(h: History) {
    && Sent(h, false) == (if Run(h) >= Steps.FAILURES_NOTIFIED then 1 else 0)
    && Sent(h, true) == (if Run(h) >= Steps.FAILURES_LOCKED then 1 else 0)
  }

  ghost predicate Inv(s: Account) {
    s.failures == Run(s.history) && Told(s.history) && LockKept(s.history)
  }

  lemma CreatedIsSafe(kind: Kind, secret: Secret)
    ensures Inv(Created(kind, secret))
  {
    assert Run(Nothing) == 0 && Sent(Nothing, false) == 0 && Sent(Nothing, true) == 0;
  }

  /** An event that the run does not look at. */
  predicate Beside(e: Event) {
    !Resets(e) && !Fails(e) && !e.Noticed? && !e.LockNoticed?
  }

  lemma LogKeeps(s: Account, later: Account)
    requires Inv(s) && later.failures == s.failures
    requires later.history == s.history
          || (later.history.Then? && later.history.past == s.history && Beside(later.history.last)
              && (TypedCodeServed(later.history.last) ==> s.failures < Steps.FAILURES_LOCKED))
    ensures Inv(later)
  {
  }

  lemma {:induction false} FactorEventsAreBeside(later: History, h: History)
    requires Only(later, h, Changing) && LockKept(h)
    ensures Run(later) == Run(h) && (forall lock: bool :: Sent(later, lock) == Sent(h, lock)) && LockKept(later)
  {
    if later != h {
      FactorEventsAreBeside(later.past, h);
    }
  }

  lemma {:induction false} CheckIsBeside(later: History, h: History)
    requires Only(later, h, Checking) && LockKept(h)
    ensures Run(later) == Run(h) && (forall lock: bool :: Sent(later, lock) == Sent(h, lock)) && LockKept(later)
  {
    if later != h {
      CheckIsBeside(later.past, h);
    }
  }

  /** While the codes are locked, no typed code is offered, so none is right. */
  lemma LockedCodesAreNeverRight(apps: Totp.AppCodes, s: Account, action: Option<Action>, owner: Option<Token>,
                                 a: Steps.Answer, now: Time)
    requires s.failures >= Steps.FAILURES_LOCKED && (a.m == App || a.m == Email)
    ensures a.m !in Steps.Offers(s, action).methods
    ensures Steps.Check(apps, s, owner, Steps.Offers(s, action), a, now) == (s, false)
  {
  }

  lemma FailedKeeps(s: Account)
    requires s.failures + 1 == Run(s.history) && LockKept(s.history)
    requires Sent(s.history, false) == (if s.failures >= Steps.FAILURES_NOTIFIED then 1 else 0)
    requires Sent(s.history, true) == (if s.failures >= Steps.FAILURES_LOCKED then 1 else 0)
    ensures Inv(Steps.Failed(s))
  {
  }

  /** A wrong answer, whatever its check changed beside the run. */
  lemma WrongKeeps(s: Account, token: Token, o: Steps.Offer, m: Method, now: Time)
    requires Inv(s) && token in s.challenges
    ensures Inv(Steps.Wrong(s, token, o, m, now))
  {
    var counts := Steps.IsSecondFactor(o, m);
    var logged := Log(s.(challenges := s.challenges[token := Steps.Attempted(s.challenges[token], now)]),
                      Answered(token, m, false, counts, now));
    if counts {
      FailedKeeps(logged);
    }
  }

  lemma RightKeeps(s: Account, token: Token, o: Steps.Offer, m: Method, now: Time)
    requires Inv(s) && token in s.challenges
    requires m == App || m == Email ==> s.failures < Steps.FAILURES_LOCKED
    ensures Inv(Steps.EndRun(Steps.Right(s, token, o, m, now), o, m))
  {
  }

  /** After a wrong answer the row still holds the run; after a right one it will
      once the run is ended. */
  lemma AnswerKeeps(apps: Totp.AppCodes, s: Account, token: Token, owner: Option<Token>, a: Steps.Answer, now: Time)
    requires Inv(s) && token in s.challenges
    ensures var after := Steps.AnswerChallenge(apps, s, token, owner, a, now);
            Inv(if after.1 then Steps.EndRun(after.0, Steps.Offers(s, s.challenges[token].action), a.m) else after.0)
  {
    var o := Steps.Offers(s, s.challenges[token].action);
    var checked := Steps.Check(apps, s, owner, o, a, now);
    CheckEffects(apps, s, owner, o, a, now);
    CheckIsBeside(checked.0.history, s.history);
    if checked.1 {
      if s.failures >= Steps.FAILURES_LOCKED && (a.m == App || a.m == Email) {
        LockedCodesAreNeverRight(apps, s, s.challenges[token].action, owner, a, now);
      }
      RightKeeps(checked.0, token, o, a.m, now);
    } else {
      WrongKeeps(checked.0, token, o, a.m, now);
    }
  }

  lemma CompleteSignInKeeps(apps: Totp.AppCodes, s: Account, token: Token, a: Steps.Answer, next: Token, now: Time)
    requires Inv(s)
    ensures Inv(Steps.CompleteSignIn(apps, s, token, a, next, now).0)
  {
    if Steps.Find(s, token, None, now).Some? {
      AnswerKeeps(apps, s, token, None, a, now);
      var answered := Steps.AnswerChallenge(apps, s, token, None, a, now);
      if answered.1 {
        LogKeeps(Steps.EndRun(answered.0, Steps.Offers(s, s.challenges[token].action), a.m),
                 Steps.CompleteSignIn(apps, s, token, a, next, now).0);
      }
    }
  }

  lemma StepUpKeeps(apps: Totp.AppCodes, s: Account, session: Session, token: Token, a: Steps.Answer, now: Time)
    requires Inv(s)
    ensures Inv(Steps.StepUp(apps, s, session, token, a, now).0)
  {
    if Steps.Find(s, token, Some(session.id), now).Some? {
      AnswerKeeps(apps, s, token, Some(session.id), a, now);
      var answered := Steps.AnswerChallenge(apps, s, token, Some(session.id), a, now);
      if answered.1 {
        StepUpEffects(apps, s, session, token, a, now);
        LogKeeps(Steps.EndRun(answered.0, Steps.Offers(s, s.challenges[token].action), a.m),
                 Steps.StepUp(apps, s, session, token, a, now).0);
      }
    }
  }

  lemma FinishChangeKeeps(s: Account, session: Session, read: Secret, secret: Secret, next: Token, now: Time)
    requires Inv(s)
    ensures Inv(Steps.FinishChange(s, session, read, secret, next, now).0)
  {
  }

  lemma SignInKeeps(s: Account, read: Secret, rehash: Option<Secret>, next: Token, now: Time)
    requires Inv(s)
    ensures Inv(Steps.FinishSignIn(s, read, rehash, next, now).0)
  {
    if s.secret == read {
      var kept := if rehash.Some? then Log(s.(secret := rehash.value), Stored(rehash.value, false)) else s;
      LogKeeps(s, kept);
      LogKeeps(kept, Steps.FinishSignIn(s, read, rehash, next, now).0);
    }
  }

  lemma FactorStepKeeps(apps: Totp.AppCodes, s: Account, step: Step)
    requires Inv(s) && IsFactorStep(step)
    ensures Inv(Apply(apps, s, step))
  {
    FactorStepEffects(apps, s, step);
    FactorEventsAreBeside(Apply(apps, s, step).history, s.history);
  }

  lemma SendStepKeeps(apps: Totp.AppCodes, s: Account, step: Step)
    requires Inv(s) && IsSendStep(step)
    ensures Inv(Apply(apps, s, step))
  {
    SendStepEffects(apps, s, step);
    LogKeeps(s, Apply(apps, s, step));
  }

  lemma AuthenticateKeeps(s: Account, token: Token, now: Time)
    requires Inv(s)
    ensures Inv(Steps.Authenticate(s, token, now).0)
  {
    LogKeeps(s, Steps.Authenticate(s, token, now).0);
  }

  lemma BeginStepUpKeeps(s: Account, session: Session, action: Action, next: Token, now: Time)
    requires Inv(s)
    ensures Inv(Steps.BeginStepUp(s, session, action, next, now).0)
  {
    LogKeeps(s, Steps.BeginStepUp(s, session, action, next, now).0);
  }

  /** Every step keeps them, whatever its caller holds. */
  lemma Kept(apps: Totp.AppCodes, s: Account, step: Step)
    requires Inv(s)
    ensures Inv(Apply(apps, s, step))
  {
    if IsFactorStep(step) {
      FactorStepKeeps(apps, s, step);
    } else if IsSendStep(step) {
      SendStepKeeps(apps, s, step);
    } else {
      match step
      case SignIn(read, rehash, next, now) => SignInKeeps(s, read, rehash, next, now);
      case FinishChange(session, read, secret, next, now) => FinishChangeKeeps(s, session, read, secret, next, now);
      case CompleteSignIn(token, a, next, now) => CompleteSignInKeeps(apps, s, token, a, next, now);
      case StepUp(session, token, a, now) => StepUpKeeps(apps, s, session, token, a, now);
      case Authenticate(token, now) => AuthenticateKeeps(s, token, now);
      case BeginStepUp(session, action, next, now) => BeginStepUpKeeps(s, session, action, next, now);
      case BeginChange(session, now) => LogKeeps(s, Steps.BeginChange(s, session, now).0);
      case End(token, now) => LogKeeps(s, Steps.Revoke(s, token, now));
      case ReadPassword => LogKeeps(s, Steps.ReadPassword(s));
    }
  }

  /** An answer by a method that nothing knows is refused and counted on its
      challenge, and is no failure of a second factor. */
  lemma UnknownMethodsAreNoFailures(apps: Totp.AppCodes, s: Account, token: Token, a: Steps.Answer, next: Token,
                                    now: Time)
    requires a.m == UnknownMethod && Steps.Find(s, token, None, now).Some?
    ensures var after := Steps.CompleteSignIn(apps, s, token, a, next, now);
            && after.1 == (if s.challenges[token].attempts + 1 >= 5 then Steps.ChallengeExhausted else Steps.CodeWrong)
            && after.0 == s.(challenges := s.challenges[token := Steps.Attempted(s.challenges[token], now)],
                             history := Then(s.history, Answered(token, UnknownMethod, false, false, now)))
  {
    var o := Steps.Offers(s, s.challenges[token].action);
    assert UnknownMethod !in o.methods;
  }
}
