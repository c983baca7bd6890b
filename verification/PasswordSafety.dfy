/** A password change ends everything the old password opened, in every
    interleaving of the flows that read a password in one transaction and write
    in another (internal/identity/identity.go, store.go, challengestore.go). */
module PasswordSafety {
  import opened Base
  import opened Policy
  import opened Rows
  import opened Runs
  import Steps
  import Totp

  /** Whether a password hash was seen, and another stored after that. */
  predicate Superseded(h: History, x: Secret) {
    h.Then? && ((h.last.Stored? && SecretSeen(h.past, x)) || Superseded(h.past, x))
  }

  /** Whether what a token opened was opened after the last password change,
      reading the history back from its end. */
  predicate OpenedSinceChange(h: History, t: Token) {
    h.Then? && !(h.last.Stored? && h.last.change)
    && ((h.last.Opened? && h.last.token == t) || (h.last.ChallengeOpened? && h.last.token == t)
        || OpenedSinceChange(h.past, t))
  }

  /** Of all the hashes ever seen, the stored one is the one nothing followed. */
  ghost predicate OneCurrent(s: Account) {
    forall x: Secret :: SecretSeen(s.history, x) && !Superseded(s.history, x) <==> x == s.secret
  }

  ghost predicate NothingOutlives(s: Account) {
    && (forall t :: t in s.sessions && s.sessions[t].revoked.None? ==> OpenedSinceChange(s.history, t))
    && (forall t :: t in s.challenges && s.challenges[t].session.None? ==> OpenedSinceChange(s.history, t))
  }

  ghost predicate Inv(s: Account) { OneCurrent(s) && NothingOutlives(s) }

  lemma CreatedIsSafe(kind: Kind, secret: Secret)
    ensures Inv(Created(kind, secret))
  {
    var h := Created(kind, secret).history;
    assert forall x: Secret :: SecretSeen(h, x) == (x == secret);
    assert forall x: Secret :: !Superseded(h, x);
  }

  lemma {:induction false} OnlyKeeps(later: History, h: History, part: Part)
    requires Only(later, h, part)
    ensures forall x: Secret :: SecretSeen(later, x) == SecretSeen(h, x) && Superseded(later, x) == Superseded(h, x)
    ensures forall t: Token :: OpenedSinceChange(later, t) == OpenedSinceChange(h, t)
  {
    if later != h {
      OnlyKeeps(later.past, h, part);
    }
  }

  lemma {:induction false} SupersededWasSeen(h: History, x: Secret)
    requires Superseded(h, x)
    ensures SecretSeen(h, x)
  {
    if !(h.last.Stored? && SecretSeen(h.past, x)) {
      SupersededWasSeen(h.past, x);
    }
  }

  /** Storing a hash nobody held before makes it the only current one. */
  lemma StoreKeeps(s: Account, x: Secret, change: bool)
    requires OneCurrent(s) && !SecretSeen(s.history, x)
    ensures OneCurrent(Log(s.(secret := x), Stored(x, change)))
  {
    var h := s.history;
    var later := Then(h, Stored(x, change));
    forall y: Secret
      ensures SecretSeen(later, y) && !Superseded(later, y) <==> y == x
    {
      if Superseded(h, y) { SupersededWasSeen(h, y); }
    }
  }

  /** One more event that stores no hash and shows no other than the current. */
  lemma LogKeeps(s: Account, later: Account)
    requires Inv(s) && later.secret == s.secret
    requires later.history == s.history
          || (later.history.Then? && later.history.past == s.history && !later.history.last.Stored?
              && forall x: Secret :: MentionsSecret(later.history.last, x) ==> x == s.secret)
    requires forall t :: t in later.sessions && later.sessions[t].revoked.None?
               ==> (t in s.sessions && s.sessions[t].revoked.None?) || OpenedSinceChange(later.history, t)
    requires forall t :: t in later.challenges && later.challenges[t].session.None?
               ==> (t in s.challenges && s.challenges[t].session.None?) || OpenedSinceChange(later.history, t)
    ensures Inv(later)
  {
    forall x: Secret
      ensures SecretSeen(later.history, x) && !Superseded(later.history, x) <==> x == later.secret
    {
      assert SecretSeen(s.history, x) && !Superseded(s.history, x) <==> x == s.secret;
    }
    assert forall t :: OpenedSinceChange(s.history, t) ==> OpenedSinceChange(later.history, t);
  }

  lemma InsertSessionKeeps(s: Account, token: Token, how: How, now: Time)
    requires Inv(s)
    ensures Inv(Steps.InsertSession(s, token, how, now))
  {
    LogKeeps(s, Steps.InsertSession(s, token, how, now));
  }

  lemma MarkKeeps(s: Account, token: Token, at: Time)
    requires Inv(s)
    ensures Inv(Steps.MarkSteppedUp(s, token, at)) && Inv(Steps.MarkEmailConfirmed(s, token, at))
  {
  }

  lemma SignInKeeps(s: Account, read: Secret, rehash: Option<Secret>, next: Token, now: Time)
    requires Inv(s) && (rehash.Some? ==> !SecretSeen(s.history, rehash.value))
    ensures Inv(Steps.FinishSignIn(s, read, rehash, next, now).0)
  {
    if s.secret == read {
      var kept := if rehash.Some? then Log(s.(secret := rehash.value), Stored(rehash.value, false)) else s;
      if rehash.Some? {
        StoreKeeps(s, rehash.value, false);
      }
      LogKeeps(kept, Steps.FinishSignIn(s, read, rehash, next, now).0);
    }
  }

  lemma FinishChangeKeeps(s: Account, session: Session, read: Secret, secret: Secret, next: Token, now: Time)
    requires Inv(s) && !SecretSeen(s.history, secret)
    ensures Inv(Steps.FinishChange(s, session, read, secret, next, now).0)
  {
    if s.secret == read {
      StoreKeeps(s, secret, true);
      var changed := Steps.RevokeAll(Log(Steps.EndSignIns(s).(secret := secret), Stored(secret, true)), now);
      assert Inv(changed);
      InsertSessionKeeps(changed, next, ByChange(session), now);
    }
  }

  lemma AnswerKeeps(apps: Totp.AppCodes, s: Account, token: Token, owner: Option<Token>, a: Steps.Answer, now: Time)
    requires Inv(s) && token in s.challenges
    ensures Inv(Steps.AnswerChallenge(apps, s, token, owner, a, now).0)
  {
    AnswerEffects(apps, s, token, owner, a, now);
    OnlyKeeps(Steps.AnswerChallenge(apps, s, token, owner, a, now).0.history, s.history, Answering);
  }

  lemma CompleteSignInKeeps(apps: Totp.AppCodes, s: Account, token: Token, a: Steps.Answer, next: Token, now: Time)
    requires Inv(s)
    ensures Inv(Steps.CompleteSignIn(apps, s, token, a, next, now).0)
  {
    if Steps.Find(s, token, None, now).Some? {
      AnswerKeeps(apps, s, token, None, a, now);
      var answered := Steps.AnswerChallenge(apps, s, token, None, a, now).0;
      InsertSessionKeeps(answered, next, BySecondStep(token, a.m), now);
      MarkKeeps(Steps.InsertSession(answered, next, BySecondStep(token, a.m), now), next, now);
    }
  }

  lemma StepUpKeeps(apps: Totp.AppCodes, s: Account, session: Session, token: Token, a: Steps.Answer, now: Time)
    requires Inv(s)
    ensures Inv(Steps.StepUp(apps, s, session, token, a, now).0)
  {
    if Steps.Find(s, token, Some(session.id), now).Some? {
      AnswerKeeps(apps, s, token, Some(session.id), a, now);
      if Steps.AnswerChallenge(apps, s, token, Some(session.id), a, now).1 {
        StepUpEffects(apps, s, session, token, a, now);
        AnswerEffects(apps, s, token, Some(session.id), a, now);
        LogKeeps(Steps.AnswerChallenge(apps, s, token, Some(session.id), a, now).0,
                 Steps.StepUp(apps, s, session, token, a, now).0);
      }
    }
  }

  lemma AuthenticateKeeps(s: Account, token: Token, now: Time)
    requires Inv(s)
    ensures Inv(Steps.Authenticate(s, token, now).0)
  {
    LogKeeps(s, Steps.Authenticate(s, token, now).0);
  }

  /** Every step keeps both. */
  lemma Kept(apps: Totp.AppCodes, s: Account, step: Step)
    requires Inv(s) && Enabled(s, step)
    ensures Inv(Apply(apps, s, step))
  {
    match step
    case SignIn(read, rehash, next, now) => SignInKeeps(s, read, rehash, next, now);
    case FinishChange(session, read, secret, next, now) => FinishChangeKeeps(s, session, read, secret, next, now);
    case _ => OtherKeeps(apps, s, step);
  }

  /** The steps that store no password, whatever their caller holds. */
  lemma FactorStepKeeps(apps: Totp.AppCodes, s: Account, step: Step)
    requires Inv(s) && IsFactorStep(step)
    ensures Inv(Apply(apps, s, step))
  {
    FactorStepEffects(apps, s, step);
    OnlyKeeps(Apply(apps, s, step).history, s.history, Changing);
  }

  lemma SendStepKeeps(apps: Totp.AppCodes, s: Account, step: Step)
    requires Inv(s) && IsSendStep(step)
    ensures Inv(Apply(apps, s, step))
  {
    SendStepEffects(apps, s, step);
    LogKeeps(s, Apply(apps, s, step));
  }

  lemma OtherKeeps(apps: Totp.AppCodes, s: Account, step: Step)
    requires Inv(s) && !step.SignIn? && !step.FinishChange?
    ensures Inv(Apply(apps, s, step))
  {
    if IsFactorStep(step) {
      FactorStepKeeps(apps, s, step);
    } else if IsSendStep(step) {
      SendStepKeeps(apps, s, step);
    } else {
      match step
      case CompleteSignIn(token, a, next, now) => CompleteSignInKeeps(apps, s, token, a, next, now);
      case StepUp(session, token, a, now) => StepUpKeeps(apps, s, session, token, a, now);
      case BeginStepUp(session, action, next, now) => LogKeeps(s, Steps.BeginStepUp(s, session, action, next, now).0);
      case Authenticate(token, now) => AuthenticateKeeps(s, token, now);
      case End(token, now) => LogKeeps(s, Steps.Revoke(s, token, now));
      case ReadPassword => LogKeeps(s, Steps.ReadPassword(s));
      case BeginChange(session, now) => LogKeeps(s, Steps.BeginChange(s, session, now).0);
    }
  }

  /** A flow that verified a password against a hash it read earlier is refused
      exactly when another hash was stored in between: by a password change or
      by another sign-in's rehash. A refusal commits nothing. */
  lemma LateSignInRefused(s: Account, read: Secret, rehash: Option<Secret>, next: Token, now: Time)
    requires Inv(s) && SecretSeen(s.history, read)
    ensures Steps.FinishSignIn(s, read, rehash, next, now).1 == Steps.Credentials <==> Superseded(s.history, read)
    ensures Superseded(s.history, read) ==> Steps.FinishSignIn(s, read, rehash, next, now).0 == s
  {
  }

  lemma LateChangeRefused(s: Account, session: Session, read: Secret, secret: Secret, next: Token, now: Time)
    requires Inv(s) && SecretSeen(s.history, read)
    ensures Steps.FinishChange(s, session, read, secret, next, now).1 == Steps.Credentials
            <==> Superseded(s.history, read)
    ensures Superseded(s.history, read) ==> Steps.FinishChange(s, session, read, secret, next, now).0 == s
  {
  }
}
