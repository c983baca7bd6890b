/** What the gate of the password and the factors looks at: whether the account held
    a second factor when the request was authenticated, and not whether it does when
    the change is committed (internal/identity/stepup.go, identity.go, factors.go). */
module GateSafety {
  import opened Base
  import opened Policy
  import opened Rows
  import opened Runs
  import SessionSafety
  import StepUpSafety
  import Steps
  import Totp

  ghost predicate FactorHeld(h: History) { exists id: nat, m: Method :: SessionSafety.Held(h, id, m) }

  /** Whether a session was handed to a request while the account held a factor. */
  ghost predicate CarriesFactor(h: History, session: Session) {
    h.Then? && ((h.last == HandedOut(session) && FactorHeld(h.past)) || CarriesFactor(h.past, session))
  }

  /** Each session handed out says whether the account held a factor then. */
  ghost predicate AllTell(h: History) {
    h.Then? ==> AllTell(h.past) && (h.last.HandedOut? ==> (h.last.session.secondFactor <==> FactorHeld(h.past)))
  }

  ghost predicate Inv(s: Account) { AllTell(s.history) }

  lemma CreatedIsSafe(kind: Kind, secret: Secret)
    ensures Inv(Created(kind, secret))
  {
    assert AllTell(Nothing);
  }

  /** later continues h and hands nothing out. */
  ghost predicate Continues(later: History, h: History) {
    later == h || (later.Then? && !later.last.HandedOut? && Continues(later.past, h))
  }

  lemma {:induction false} ContinuingKeeps(later: History, h: History)
    requires Continues(later, h) && AllTell(h)
    ensures AllTell(later)
  {
    if later != h {
      ContinuingKeeps(later.past, h);
    }
  }

  lemma {:induction false} PartsContinue(later: History, h: History, part: Part)
    requires Only(later, h, part)
    ensures Continues(later, h)
  {
    if later != h {
      PartsContinue(later.past, h, part);
    }
  }

  lemma TwoEventsContinue(h: History, e: Event, f: Event)
    requires !e.HandedOut? && !f.HandedOut?
    ensures Continues(h, h) && Continues(Then(h, e), h) && Continues(Then(Then(h, e), f), h)
  {
    assert Continues(Then(h, e), h);
  }

  lemma SignInContinues(s: Account, read: Secret, rehash: Option<Secret>, next: Token, now: Time)
    ensures Continues(Steps.FinishSignIn(s, read, rehash, next, now).0.history, s.history)
  {
    var begins := if s.factors != [] then ChallengeOpened(next, false) else Opened(next, ByPassword(read));
    TwoEventsContinue(s.history, begins, begins);
    if rehash.Some? {
      TwoEventsContinue(s.history, Stored(rehash.value, false), begins);
    }
  }

  lemma FinishChangeContinues(s: Account, session: Session, read: Secret, secret: Secret, next: Token, now: Time)
    ensures Continues(Steps.FinishChange(s, session, read, secret, next, now).0.history, s.history)
  {
    TwoEventsContinue(s.history, Stored(secret, true), Opened(next, ByChange(session)));
  }

  lemma AnswerContinues(apps: Totp.AppCodes, s: Account, token: Token, owner: Option<Token>, a: Steps.Answer, now: Time)
    requires token in s.challenges
    ensures Continues(Steps.AnswerChallenge(apps, s, token, owner, a, now).0.history, s.history)
  {
    AnswerEffects(apps, s, token, owner, a, now);
    PartsContinue(Steps.AnswerChallenge(apps, s, token, owner, a, now).0.history, s.history, Answering);
  }

  lemma CompleteSignInContinues(apps: Totp.AppCodes, s: Account, token: Token, a: Steps.Answer, next: Token, now: Time)
    ensures Continues(Steps.CompleteSignIn(apps, s, token, a, next, now).0.history, s.history)
  {
    TwoEventsContinue(s.history, Noticed, Noticed);
    if Steps.Find(s, token, None, now).Some? {
      AnswerContinues(apps, s, token, None, a, now);
    }
  }

  lemma StepUpContinues(apps: Totp.AppCodes, s: Account, session: Session, token: Token, a: Steps.Answer, now: Time)
    ensures Continues(Steps.StepUp(apps, s, session, token, a, now).0.history, s.history)
  {
    TwoEventsContinue(s.history, Noticed, Noticed);
    if Steps.Find(s, token, Some(session.id), now).Some? {
      AnswerContinues(apps, s, token, Some(session.id), a, now);
      if Steps.AnswerChallenge(apps, s, token, Some(session.id), a, now).1 {
        StepUpEffects(apps, s, session, token, a, now);
      }
    }
  }

  /** Only authenticating a request hands a session out. */
  lemma OthersContinue(apps: Totp.AppCodes, s: Account, step: Step)
    requires !step.Authenticate?
    ensures Continues(Apply(apps, s, step).history, s.history)
  {
    if IsFactorStep(step) {
      FactorStepEffects(apps, s, step);
      PartsContinue(Apply(apps, s, step).history, s.history, Changing);
    } else if IsSendStep(step) {
      SendStepEffects(apps, s, step);
      TwoEventsContinue(s.history, CodeSent(step.id, PurposeSent(step), step.now), Noticed);
    } else {
      TwoEventsContinue(s.history, Noticed, Noticed);
      match step
      case SignIn(read, rehash, next, now) => SignInContinues(s, read, rehash, next, now);
      case FinishChange(session, read, secret, next, now) =>
        FinishChangeContinues(s, session, read, secret, next, now);
      case CompleteSignIn(token, a, next, now) => CompleteSignInContinues(apps, s, token, a, next, now);
      case StepUp(session, token, a, now) => StepUpContinues(apps, s, session, token, a, now);
      case _ =>
    }
  }

  lemma AuthenticateKeeps(s: Account, token: Token, now: Time)
    requires Inv(s) && SessionSafety.Inv(s)
    ensures Inv(Steps.Authenticate(s, token, now).0)
  {
    if s.factors != [] {
      assert SessionSafety.HasFactor(s.factors, s.factors[0].id, MethodOf(s.factors[0]));
      assert SessionSafety.Held(s.history, s.factors[0].id, MethodOf(s.factors[0]));
    } else {
      assert forall id: nat, m: Method :: !SessionSafety.HasFactor(s.factors, id, m);
    }
  }

  lemma Kept(apps: Totp.AppCodes, s: Account, step: Step)
    requires Inv(s) && SessionSafety.Inv(s)
    ensures Inv(Apply(apps, s, step))
  {
    match step
    case Authenticate(token, now) => AuthenticateKeeps(s, token, now);
    case _ =>
      OthersContinue(apps, s, step);
      ContinuingKeeps(Apply(apps, s, step).history, s.history);
  }

  // What the gate lets through.

  lemma {:induction false} HandedOutTells(h: History, session: Session)
    requires AllTell(h)
    ensures CarriesFactor(h, session) ==> session.secondFactor
    ensures Happened(h, HandedOut(session)) ==> (session.secondFactor <==> CarriesFactor(h, session))
  {
    if h.Then? {
      HandedOutTells(h.past, session);
    }
  }

  /** The gate of the password and of the factors lets a request through exactly when
      its session was stepped up under ten minutes ago, or, of a kind the policy
      knows, it was authenticated while the account held no factor; and a step-up is
      a proof. */
  lemma GateIsExact(s: Account, session: Session, action: Action, now: Time)
    requires Inv(s) && StepUpSafety.Inv(s) && Happened(s.history, HandedOut(session))
    requires action == Password || action == Factors
    ensures !NeedsStepUp(s.kind, session, action, now)
       <==> Recent(session.steppedUp, now) || (s.kind != UnknownKind && !CarriesFactor(s.history, session))
    ensures Recent(session.steppedUp, now) ==> StepUpSafety.ProvedRecently(s.history, now)
  {
    HandedOutTells(s.history, session);
    assert StepUpSafety.MarksTell(s.history, session.steppedUp, session.emailConfirmed);
    if Recent(session.steppedUp, now) {
      assert StepUpSafety.ProvedAt(s.history, session.steppedUp.value);
    }
  }

  /** Every change of the factors, and every change of the password begun, followed a
      proof by less than ten minutes, or came of a request that was authenticated
      while no factor was held. */
  ghost predicate Guarded(h: History) {
    h.Then? ==> Guarded(h.past)
                && (h.last.ChangeBegun? || h.last.FactorsChanged?
                    ==> StepUpSafety.ProvedRecently(h.past, h.last.at) || !CarriesFactor(h.past, h.last.session))
  }

  lemma {:induction false} ChangesAreGuarded(h: History)
    requires AllTell(h) && StepUpSafety.Gatekept(h)
    ensures Guarded(h)
  {
    if h.Then? {
      ChangesAreGuarded(h.past);
      if h.last.ChangeBegun? || h.last.FactorsChanged? {
        HandedOutTells(h.past, h.last.session);
      }
    }
  }
}
