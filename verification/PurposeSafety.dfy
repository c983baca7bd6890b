/** A code mailed for one purpose is never accepted for another: one sent for a
    sign-in answers a sign-in, one sent for a step-up a step-up, and one sent to
    add e-mail adds e-mail (internal/identity/emailcode.go, challenge.go). */
module PurposeSafety {
  import opened Base
  import opened Bytes
  import opened Policy
  import opened Rows
  import opened Runs
  import Steps
  import Totp

  /** What the codes of a challenge are for, by how it was opened. */
  function OpenedFor(h: History, t: Token): Option<Purpose> {
    if h.Nothing? then None
    else if h.last.ChallengeOpened? && h.last.token == t then Some(if h.last.stepUp then StepUpCode else SignInCode)
    else OpenedFor(h.past, t)
  }

  /** A code of a purpose was just accepted. */
  predicate JustAccepted(h: History, purpose: Purpose) {
    h.Then? && h.last.Compared? && h.last.right && h.last.purpose == purpose
  }

  /** What an event needs that a mailed code brought about. */
  predicate Matches(past: History, e: Event) {
    && (e.Answered? && e.right && e.m == Email
        ==> OpenedFor(past, e.token).Some? && JustAccepted(past, OpenedFor(past, e.token).value))
    && (e.FactorAdded? && e.m == Email
        ==> past.Then? && past.last.FactorsChanged? && JustAccepted(past.past, EnrolCode))
  }

  predicate AllMatch(h: History) { h.Then? ==> AllMatch(h.past) && Matches(h.past, h.last) }

  ghost predicate RowsTell(h: History, challenges: map<Token, ChallengeRow>) {
    forall t :: t in challenges ==> OpenedFor(h, t) == Some(Steps.PurposeOf(challenges[t].session))
  }

  ghost predicate Inv(s: Account) { AllMatch(s.history) && RowsTell(s.history, s.challenges) }

  lemma CreatedIsSafe(kind: Kind, secret: Secret)
    ensures Inv(Created(kind, secret))
  {
    assert AllMatch(Nothing);
  }

  predicate Beside(e: Event) { !e.Answered? && !e.ChallengeOpened? && !e.FactorAdded? }

  lemma {:induction false} OnlyKeeps(later: History, h: History, part: Part)
    requires Only(later, h, part) && (part == Checking || part == Notifying)
    ensures AllMatch(h) ==> AllMatch(later)
    ensures forall t: Token :: OpenedFor(later, t) == OpenedFor(h, t)
  {
    if later != h {
      OnlyKeeps(later.past, h, part);
    }
  }

  lemma LogKeeps(s: Account, later: Account)
    requires Inv(s) && later.challenges == s.challenges
    requires later.history == s.history
          || (later.history.Then? && later.history.past == s.history && Beside(later.history.last))
    ensures Inv(later)
  {
  }

  lemma LogsKeep(s: Account, e: Event, f: Event, later: Account)
    requires Inv(s) && later.challenges == s.challenges && Beside(e) && Beside(f)
    requires later.history == s.history || later.history == Then(s.history, e)
             || later.history == Then(Then(s.history, e), f)
    ensures Inv(later)
  {
    LogKeeps(s, Log(s, e));
    if later.history == Then(Then(s.history, e), f) {
      LogKeeps(Log(s, e), later);
    } else {
      LogKeeps(s, later);
    }
  }

  lemma InsertKeeps(s: Account, token: Token, session: Option<Token>, action: Option<Action>, now: Time)
    requires Inv(s)
    ensures Inv(Steps.InsertChallenge(s, token, session, action, now))
  {
  }

  /** A right answer with a code accepted the challenge's own. */
  lemma CheckAccepts(apps: Totp.AppCodes, s: Account, owner: Option<Token>, o: Steps.Offer, a: Steps.Answer, now: Time)
    requires a.m == Email && Steps.Check(apps, s, owner, o, a, now).1
    ensures JustAccepted(Steps.Check(apps, s, owner, o, a, now).0.history, Steps.PurposeOf(owner))
  {
  }

  lemma AnswerKeeps(apps: Totp.AppCodes, s: Account, token: Token, owner: Option<Token>, a: Steps.Answer, now: Time)
    requires Inv(s) && token in s.challenges && s.challenges[token].session == owner
    ensures Inv(Steps.AnswerChallenge(apps, s, token, owner, a, now).0)
  {
    var o := Steps.Offers(s, s.challenges[token].action);
    var checked := Steps.Check(apps, s, owner, o, a, now);
    var after := Steps.AnswerChallenge(apps, s, token, owner, a, now);
    CheckEffects(apps, s, owner, o, a, now);
    OnlyKeeps(checked.0.history, s.history, Checking);
    AnswerEffects(apps, s, token, owner, a, now);
    if after.1 && a.m == Email {
      CheckAccepts(apps, s, owner, o, a, now);
    }
    AnsweredKeeps(s, checked.0.history, after.0,
                  Answered(token, a.m, after.1, Steps.IsSecondFactor(o, a.m), now));
  }

  /** The answer logged over what its check left, with the notices after it. */
  lemma AnsweredKeeps(s: Account, checked: History, after: Account, e: Event)
    requires Inv(s) && AllMatch(checked) && (forall t: Token :: OpenedFor(checked, t) == OpenedFor(s.history, t))
    requires e.Answered? && Matches(checked, e) && Only(after.history, Then(checked, e), Notifying)
    requires forall t ::
               t in after.challenges ==> t in s.challenges && after.challenges[t].session == s.challenges[t].session
    ensures Inv(after)
  {
    OnlyKeeps(after.history, Then(checked, e), Notifying);
    forall t | t in after.challenges
      ensures OpenedFor(after.history, t) == Some(Steps.PurposeOf(after.challenges[t].session))
    {
      assert OpenedFor(s.history, t) == Some(Steps.PurposeOf(s.challenges[t].session));
    }
  }

  lemma CompleteSignInKeeps(apps: Totp.AppCodes, s: Account, token: Token, a: Steps.Answer, next: Token, now: Time)
    requires Inv(s)
    ensures Inv(Steps.CompleteSignIn(apps, s, token, a, next, now).0)
  {
    if Steps.Find(s, token, None, now).Some? {
      AnswerKeeps(apps, s, token, None, a, now);
      LogKeeps(Steps.AnswerChallenge(apps, s, token, None, a, now).0,
               Steps.CompleteSignIn(apps, s, token, a, next, now).0);
    }
  }

  lemma StepUpKeeps(apps: Totp.AppCodes, s: Account, session: Session, token: Token, a: Steps.Answer, now: Time)
    requires Inv(s)
    ensures Inv(Steps.StepUp(apps, s, session, token, a, now).0)
  {
    if Steps.Find(s, token, Some(session.id), now).Some? {
      AnswerKeeps(apps, s, token, Some(session.id), a, now);
      if Steps.AnswerChallenge(apps, s, token, Some(session.id), a, now).1 {
        StepUpEffects(apps, s, session, token, a, now);
      }
      LogKeeps(Steps.AnswerChallenge(apps, s, token, Some(session.id), a, now).0,
               Steps.StepUp(apps, s, session, token, a, now).0);
    }
  }

  lemma SignInKeeps(s: Account, read: Secret, rehash: Option<Secret>, next: Token, now: Time)
    requires Inv(s)
    ensures Inv(Steps.FinishSignIn(s, read, rehash, next, now).0)
  {
    if s.secret == read {
      var kept := if rehash.Some? then Log(s.(secret := rehash.value), Stored(rehash.value, false)) else s;
      LogKeeps(s, kept);
      if s.factors != [] {
        InsertKeeps(kept, next, None, None, now);
      } else {
        LogKeeps(kept, Steps.InsertSession(kept, next, ByPassword(read), now));
      }
    }
  }

  lemma FinishChangeKeeps(s: Account, session: Session, read: Secret, secret: Secret, next: Token, now: Time)
    requires Inv(s)
    ensures Inv(Steps.FinishChange(s, session, read, secret, next, now).0)
  {
    if s.secret == read {
      var ended := Steps.EndSignIns(s);
      assert Inv(ended);
      LogsKeep(ended, Stored(secret, true), Opened(next, ByChange(session)),
               Steps.FinishChange(s, session, read, secret, next, now).0);
    }
  }

  /** A factor added other than e-mail needs no code. */
  lemma AddKeeps(s: Account, f: Factor)
    requires Inv(s) && Matches(s.history, FactorAdded(f.id, MethodOf(f)))
    ensures Inv(Steps.AddFactor(s, f))
  {
  }

  lemma ConfirmAppKeeps(apps: Totp.AppCodes, s: Account, session: Session, typed: string, id: nat, codes: set<string>,
                        now: Time)
    requires Inv(s)
    ensures Inv(Steps.ConfirmApp(apps, s, session, typed, id, codes, now).0)
  {
    var after := Steps.ConfirmApp(apps, s, session, typed, id, codes, now).0;
    if after.history != s.history {
      var secret := s.enrolments[session.id].secret;
      var step := Totp.Match(apps, secret, typed, now, 0).value;
      var changed := Log(s, FactorsChanged(session, now));
      LogKeeps(s, changed);
      AddKeeps(changed, AppFactor(id, secret, step));
      var added := Steps.AddFactor(changed, AppFactor(id, secret, step));
      LogsKeep(added, AppAccepted(id, step, now), RecoveryIssued(codes), after);
    } else {
      LogKeeps(s, after);
    }
  }

  lemma ConfirmKeyKeeps(s: Account, session: Session, keyProves: bool, id: nat, codes: set<string>, now: Time)
    requires Inv(s)
    ensures Inv(Steps.ConfirmKey(s, session, keyProves, id, codes, now).0)
  {
    var after := Steps.ConfirmKey(s, session, keyProves, id, codes, now).0;
    if after.history != s.history {
      var changed := Log(s, FactorsChanged(session, now));
      LogKeeps(s, changed);
      AddKeeps(changed, KeyFactor(id));
      LogKeeps(Steps.AddFactor(changed, KeyFactor(id)), after);
    } else {
      LogKeeps(s, after);
    }
  }

  lemma ConfirmEmailKeeps(s: Account, session: Session, typed: string, id: nat, now: Time)
    requires Inv(s)
    ensures Inv(Steps.ConfirmEmail(s, session, typed, id, now).0)
  {
    var used := Steps.UseCode(s, EnrolCode, typed, now);
    UseEffects(s, EnrolCode, typed, now);
    LogKeeps(s, used.0);
    if Steps.ConfirmEmail(s, session, typed, id, now).1 == Steps.Done {
      var changed := Log(used.0, FactorsChanged(session, now));
      LogKeeps(used.0, changed);
      AddKeeps(changed, EmailFactor(id));
    }
  }

  lemma RemoveKeeps(s: Account, session: Session, id: nat, now: Time)
    requires Inv(s)
    ensures Inv(Steps.RemoveFactor(s, session, id, now).0)
  {
    LogsKeep(s, FactorsChanged(session, now), FactorRemoved(id), Steps.RemoveFactor(s, session, id, now).0);
  }

  lemma RegenerateKeeps(s: Account, session: Session, codes: set<string>, now: Time)
    requires Inv(s)
    ensures Inv(Steps.Regenerate(s, session, codes, now).0)
  {
    LogsKeep(s, FactorsChanged(session, now), RecoveryIssued(codes), Steps.Regenerate(s, session, codes, now).0);
  }

  lemma BeginAppKeeps(s: Account, session: Session, key: seq<Byte>, now: Time)
    requires Inv(s)
    ensures Inv(Steps.BeginApp(s, session, key, now).0)
  {
    LogKeeps(s, Steps.BeginApp(s, session, key, now).0);
  }

  lemma BeginKeyKeeps(s: Account, session: Session, now: Time)
    requires Inv(s)
    ensures Inv(Steps.BeginKey(s, session, now).0)
  {
    LogKeeps(s, Steps.BeginKey(s, session, now).0);
  }

  lemma FactorStepKeeps(apps: Totp.AppCodes, s: Account, step: Step)
    requires Inv(s) && IsFactorStep(step)
    ensures Inv(Apply(apps, s, step))
  {
    match step
    case ConfirmApp(session, typed, id, codes, now) => ConfirmAppKeeps(apps, s, session, typed, id, codes, now);
    case ConfirmKey(session, keyProves, id, codes, now) => ConfirmKeyKeeps(s, session, keyProves, id, codes, now);
    case ConfirmEmail(session, typed, id, now) => ConfirmEmailKeeps(s, session, typed, id, now);
    case RemoveFactor(session, id, now) => RemoveKeeps(s, session, id, now);
    case Regenerate(session, codes, now) => RegenerateKeeps(s, session, codes, now);
    case BeginApp(session, key, now) => BeginAppKeeps(s, session, key, now);
    case BeginKey(session, now) => BeginKeyKeeps(s, session, now);
  }

  /** Every step keeps both, whatever its caller holds. */
  lemma Kept(apps: Totp.AppCodes, s: Account, step: Step)
    requires Inv(s)
    ensures Inv(Apply(apps, s, step))
  {
    if IsFactorStep(step) {
      FactorStepKeeps(apps, s, step);
    } else if IsSendStep(step) {
      SendStepEffects(apps, s, step);
      LogKeeps(s, Apply(apps, s, step));
    } else {
      match step
      case SignIn(read, rehash, next, now) => SignInKeeps(s, read, rehash, next, now);
      case FinishChange(session, read, secret, next, now) => FinishChangeKeeps(s, session, read, secret, next, now);
      case CompleteSignIn(token, a, next, now) => CompleteSignInKeeps(apps, s, token, a, next, now);
      case StepUp(session, token, a, now) => StepUpKeeps(apps, s, session, token, a, now);
      case BeginStepUp(session, action, next, now) => InsertKeeps(s, next, Some(session.id), Some(action), now);
      case Authenticate(token, now) => LogKeeps(s, Steps.Authenticate(s, token, now).0);
      case BeginChange(session, now) => LogKeeps(s, Steps.BeginChange(s, session, now).0);
      case End(token, now) => LogKeeps(s, Steps.Revoke(s, token, now));
      case ReadPassword => LogKeeps(s, Steps.ReadPassword(s));
    }
  }
}
