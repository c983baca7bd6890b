/** Whether the session that a request carries is still the account's when the
    request commits: a password change reads in one transaction and writes in
    another, and does not ask again (internal/identity/identity.go). */
module LiveSafety {
  import opened Base
  import opened Policy
  import opened Rows
  import opened Runs
  import Steps
  import Totp

  /** What ends the session of a token: ending it, or a password change. */
  predicate Ends(e: Event, t: Token) { (e.SessionEnded? && e.token == t) || (e.Stored? && e.change) }

  /** Nothing ended the session since it was handed out. */
  predicate Undisturbed(h: History, session: Session) {
    h.Then? && (h.last == HandedOut(session) || (!Ends(h.last, session.id) && Undisturbed(h.past, session)))
  }

  /** A session that was handed out has its row, unrevoked exactly while nothing
      ended it. */
  ghost predicate HandedTells(h: History, sessions: map<Token, SessionRow>, session: Session) {
    Happened(h, HandedOut(session)) ==>
      session.id in sessions && (sessions[session.id].revoked.None? <==> Undisturbed(h, session))
  }

  ghost predicate Inv(s: Account) {
    && (forall t :: t in s.sessions ==> TokenSeen(s.history, t))
    && (forall session: Session :: HandedTells(s.history, s.sessions, session))
  }

  lemma CreatedIsSafe(kind: Kind, secret: Secret)
    ensures Inv(Created(kind, secret))
  {
    assert forall e :: !Happened(Nothing, e);
    assert forall session: Session :: !Happened(Created(kind, secret).history, HandedOut(session));
  }

  predicate Beside(e: Event) { !e.HandedOut? && !e.SessionEnded? && !(e.Stored? && e.change) }

  lemma {:induction false} OnlyKeeps(later: History, h: History, part: Part)
    requires Only(later, h, part)
    ensures forall t: Token :: TokenSeen(later, t) == TokenSeen(h, t)
    ensures forall session: Session :: Happened(later, HandedOut(session)) == Happened(h, HandedOut(session))
    ensures forall session: Session ::
              Happened(h, HandedOut(session)) ==> Undisturbed(later, session) == Undisturbed(h, session)
  {
    if later != h {
      OnlyKeeps(later.past, h, part);
    }
  }

  /** Rows that stay as revoked as they were, with a history that tells the same. */
  lemma SameKeeps(s: Account, later: Account)
    requires Inv(s)
    requires forall t ::
               t in s.sessions ==>
                 t in later.sessions && (later.sessions[t].revoked.None? <==> s.sessions[t].revoked.None?)
    requires forall t :: t in later.sessions ==> t in s.sessions || TokenSeen(later.history, t)
    requires forall t: Token :: TokenSeen(s.history, t) ==> TokenSeen(later.history, t)
    requires forall session: Session ::
               Happened(later.history, HandedOut(session)) ==> Happened(s.history, HandedOut(session))
    requires forall session: Session :: Happened(s.history, HandedOut(session))
               ==> Undisturbed(later.history, session) == Undisturbed(s.history, session)
    ensures Inv(later)
  {
    forall session: Session ensures HandedTells(later.history, later.sessions, session) {
      assert HandedTells(s.history, s.sessions, session);
    }
  }

  lemma LogKeeps(s: Account, later: Account)
    requires Inv(s)
    requires forall t ::
               t in s.sessions ==>
                 t in later.sessions && (later.sessions[t].revoked.None? <==> s.sessions[t].revoked.None?)
    requires later.sessions.Keys == s.sessions.Keys
    requires later.history == s.history
          || (later.history.Then? && later.history.past == s.history && Beside(later.history.last))
    ensures Inv(later)
  {
    SameKeeps(s, later);
  }

  lemma OpenKeeps(s: Account, token: Token, how: How, now: Time)
    requires Inv(s) && !TokenSeen(s.history, token)
    ensures Inv(Steps.InsertSession(s, token, how, now))
  {
    SameKeeps(s, Steps.InsertSession(s, token, how, now));
  }

  lemma AuthenticateKeeps(s: Account, token: Token, now: Time)
    requires Inv(s)
    ensures Inv(Steps.Authenticate(s, token, now).0)
  {
    var later := Steps.Authenticate(s, token, now).0;
    if later != s {
      forall session: Session ensures HandedTells(later.history, later.sessions, session) {
        assert HandedTells(s.history, s.sessions, session);
      }
    }
  }

  lemma EndKeeps(s: Account, token: Token, now: Time)
    requires Inv(s)
    ensures Inv(Steps.Revoke(s, token, now))
  {
    var later := Steps.Revoke(s, token, now);
    forall session: Session ensures HandedTells(later.history, later.sessions, session) {
      assert HandedTells(s.history, s.sessions, session);
    }
  }

  /** Storing the new password and revoking every session end all of them. */
  lemma ChangedKeeps(s: Account, secret: Secret, now: Time)
    requires Inv(s)
    ensures Inv(Steps.RevokeAll(Log(Steps.EndSignIns(s).(secret := secret), Stored(secret, true)), now))
  {
    var later := Steps.RevokeAll(Log(Steps.EndSignIns(s).(secret := secret), Stored(secret, true)), now);
    forall session: Session ensures HandedTells(later.history, later.sessions, session) {
      assert HandedTells(s.history, s.sessions, session);
    }
  }

  lemma FinishChangeKeeps(s: Account, session: Session, read: Secret, secret: Secret, next: Token, now: Time)
    requires Inv(s) && !TokenSeen(s.history, next)
    ensures Inv(Steps.FinishChange(s, session, read, secret, next, now).0)
  {
    if s.secret == read {
      ChangedKeeps(s, secret, now);
      var changed := Steps.RevokeAll(Log(Steps.EndSignIns(s).(secret := secret), Stored(secret, true)), now);
      OpenKeeps(changed, next, ByChange(session), now);
      LogKeeps(Steps.InsertSession(changed, next, ByChange(session), now),
               Steps.FinishChange(s, session, read, secret, next, now).0);
    }
  }

  lemma SignInKeeps(s: Account, read: Secret, rehash: Option<Secret>, next: Token, now: Time)
    requires Inv(s) && !TokenSeen(s.history, next)
    ensures Inv(Steps.FinishSignIn(s, read, rehash, next, now).0)
  {
    if s.secret == read {
      var kept := if rehash.Some? then Log(s.(secret := rehash.value), Stored(rehash.value, false)) else s;
      LogKeeps(s, kept);
      if s.factors == [] {
        OpenKeeps(kept, next, ByPassword(read), now);
      } else {
        LogKeeps(kept, Steps.InsertChallenge(kept, next, None, None, now));
      }
    }
  }

  lemma AnswerKeeps(apps: Totp.AppCodes, s: Account, token: Token, owner: Option<Token>, a: Steps.Answer, now: Time)
    requires Inv(s) && token in s.challenges
    ensures var after := Steps.AnswerChallenge(apps, s, token, owner, a, now).0;
            Inv(after) && forall t: Token :: TokenSeen(after.history, t) == TokenSeen(s.history, t)
  {
    var after := Steps.AnswerChallenge(apps, s, token, owner, a, now).0;
    AnswerEffects(apps, s, token, owner, a, now);
    OnlyKeeps(after.history, s.history, Answering);
    SameKeeps(s, after);
  }

  lemma CompleteSignInKeeps(apps: Totp.AppCodes, s: Account, token: Token, a: Steps.Answer, next: Token, now: Time)
    requires Inv(s) && !TokenSeen(s.history, next)
    ensures Inv(Steps.CompleteSignIn(apps, s, token, a, next, now).0)
  {
    if Steps.Find(s, token, None, now).Some? {
      AnswerKeeps(apps, s, token, None, a, now);
      var answered := Steps.AnswerChallenge(apps, s, token, None, a, now);
      if answered.1 {
        OpenKeeps(answered.0, next, BySecondStep(token, a.m), now);
        LogKeeps(Steps.InsertSession(answered.0, next, BySecondStep(token, a.m), now),
                 Steps.CompleteSignIn(apps, s, token, a, next, now).0);
      }
    }
  }

  lemma StepUpKeeps(apps: Totp.AppCodes, s: Account, session: Session, token: Token, a: Steps.Answer, now: Time)
    requires Inv(s)
    ensures Inv(Steps.StepUp(apps, s, session, token, a, now).0)
  {
    if Steps.Find(s, token, Some(session.id), now).Some? {
      AnswerKeeps(apps, s, token, Some(session.id), a, now);
      if Steps.AnswerChallenge(apps, s, token, Some(session.id), a, now).1 {
        StepUpEffects(apps, s, session, token, a, now);
        AnswerEffects(apps, s, token, Some(session.id), a, now);
        LogKeeps(Steps.AnswerChallenge(apps, s, token, Some(session.id), a, now).0,
                 Steps.StepUp(apps, s, session, token, a, now).0);
      }
    }
  }

  lemma FactorStepKeeps(apps: Totp.AppCodes, s: Account, step: Step)
    requires Inv(s) && IsFactorStep(step)
    ensures Inv(Apply(apps, s, step))
  {
    FactorStepEffects(apps, s, step);
    OnlyKeeps(Apply(apps, s, step).history, s.history, Changing);
    SameKeeps(s, Apply(apps, s, step));
  }

  lemma SendStepKeeps(apps: Totp.AppCodes, s: Account, step: Step)
    requires Inv(s) && IsSendStep(step)
    ensures Inv(Apply(apps, s, step))
  {
    SendStepEffects(apps, s, step);
    LogKeeps(s, Apply(apps, s, step));
  }

  lemma Kept(apps: Totp.AppCodes, s: Account, step: Step)
    requires Inv(s) && Enabled(s, step)
    ensures Inv(Apply(apps, s, step))
  {
    match step
    case SignIn(read, rehash, next, now) => SignInKeeps(s, read, rehash, next, now);
    case FinishChange(session, read, secret, next, now) => FinishChangeKeeps(s, session, read, secret, next, now);
    case CompleteSignIn(token, a, next, now) => CompleteSignInKeeps(apps, s, token, a, next, now);
    case _ => OtherKeeps(apps, s, step);
  }

  /** The steps that open no session, whatever their caller holds. */
  lemma OtherKeeps(apps: Totp.AppCodes, s: Account, step: Step)
    requires Inv(s) && !step.SignIn? && !step.FinishChange? && !step.CompleteSignIn?
    ensures Inv(Apply(apps, s, step))
  {
    if IsFactorStep(step) {
      FactorStepKeeps(apps, s, step);
    } else if IsSendStep(step) {
      SendStepKeeps(apps, s, step);
    } else {
      match step
      case StepUp(session, token, a, now) => StepUpKeeps(apps, s, session, token, a, now);
      case BeginStepUp(session, action, next, now) => LogKeeps(s, Steps.BeginStepUp(s, session, action, next, now).0);
      case Authenticate(token, now) => AuthenticateKeeps(s, token, now);
      case BeginChange(session, now) => LogKeeps(s, Steps.BeginChange(s, session, now).0);
      case End(token, now) => EndKeeps(s, token, now);
      case ReadPassword => LogKeeps(s, Steps.ReadPassword(s));
    }
  }

  /** A session that a request carries would still authenticate exactly while
      nothing ended it since it was handed out, and it is neither idle nor too
      old. */
  lemma LiveExactlyWhileUndisturbed(s: Account, session: Session, now: Time)
    requires Inv(s) && Happened(s.history, HandedOut(session))
    ensures session.id in s.sessions
    ensures Steps.SessionOf(s, session.id, now).Some?
       <==> Undisturbed(s.history, session)
            && now <= s.sessions[session.id].seen + Steps.SESSION_IDLE
            && now <= s.sessions[session.id].created + Steps.SESSION_LIFETIME
  {
    assert HandedTells(s.history, s.sessions, session);
  }
}
