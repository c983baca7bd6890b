/** A session that ended stays ended: signed out, replaced, ended by a password
    change, unseen for thirty days or ninety days old, no later request is
    authenticated with it, whatever happens in between
    (internal/identity/identity.go, store.go). */
module SessionLife {
  import opened Base
  import opened Policy
  import opened Rows
  import opened Runs
  import Steps
  import Totp

  /** The tokens of the account's sessions were all handed out. */
  ghost predicate Known(s: Account) { forall t :: t in s.sessions ==> TokenSeen(s.history, t) }

  /** Ended, or no longer accepted at a moment. */
  predicate Dead(s: Account, t: Token, at: Time) {
    t in s.sessions
    && (s.sessions[t].revoked.Some? || at > s.sessions[t].created + Steps.SESSION_LIFETIME
        || at > s.sessions[t].seen + Steps.SESSION_IDLE)
  }

  lemma DeadIsRefused(s: Account, t: Token, at: Time, now: Time)
    requires Dead(s, t, at) && at <= now
    ensures Steps.Authenticate(s, t, now) == (s, None)
  {
  }

  lemma {:induction false} OnlyKeeps(later: History, h: History, part: Part)
    requires Only(later, h, part)
    ensures forall t: Token :: TokenSeen(h, t) ==> TokenSeen(later, t)
  {
    if later != h {
      OnlyKeeps(later.past, h, part);
    }
  }

  /** What a step may do to the sessions an account has: end them, mark them, and
      note when they were seen if they are alive. */
  ghost predicate Ages(s: Account, later: Account, at: Time) {
    && (forall t: Token :: TokenSeen(s.history, t) ==> TokenSeen(later.history, t))
    && (forall t :: t in later.sessions ==> t in s.sessions || TokenSeen(later.history, t))
    && (forall t :: t in s.sessions && Dead(s, t, at) ==> Dead(later, t, at))
  }

  lemma AgesKeeps(s: Account, later: Account, at: Time)
    requires Known(s) && Ages(s, later, at)
    ensures Known(later)
  {
  }

  lemma SameAges(s: Account, later: Account, at: Time)
    requires later.sessions == s.sessions
    requires forall t: Token :: TokenSeen(s.history, t) ==> TokenSeen(later.history, t)
    ensures Ages(s, later, at)
  {
  }

  lemma AgesTwice(s: Account, middle: Account, later: Account, at: Time)
    requires Ages(s, middle, at) && Ages(middle, later, at)
    ensures Ages(s, later, at)
  {
    forall t | t in s.sessions && Dead(s, t, at) ensures Dead(later, t, at) {
      assert Dead(middle, t, at);
    }
  }

  lemma InsertAges(s: Account, token: Token, how: How, now: Time, at: Time)
    requires Known(s) && !TokenSeen(s.history, token)
    ensures Ages(s, Steps.InsertSession(s, token, how, now), at)
  {
  }

  lemma MarkAges(s: Account, token: Token, moment: Time, at: Time)
    ensures Ages(s, Steps.MarkSteppedUp(s, token, moment), at)
    ensures Ages(s, Steps.MarkEmailConfirmed(s, token, moment), at)
  {
  }

  lemma RevokeAges(s: Account, token: Token, now: Time, at: Time)
    ensures Ages(s, Steps.Revoke(s, token, now), at)
    ensures Ages(s, Steps.RevokeAll(s, now), at)
  {
  }

  lemma AuthenticateAges(s: Account, token: Token, now: Time, at: Time)
    requires at <= now
    ensures Ages(s, Steps.Authenticate(s, token, now).0, at)
  {
    if Dead(s, token, at) {
      DeadIsRefused(s, token, at, now);
    }
  }

  lemma SignInAges(s: Account, read: Secret, rehash: Option<Secret>, next: Token, now: Time, at: Time)
    requires Known(s) && !TokenSeen(s.history, next)
    ensures Ages(s, Steps.FinishSignIn(s, read, rehash, next, now).0, at)
  {
    if s.secret == read {
      var kept := if rehash.Some? then Log(s.(secret := rehash.value), Stored(rehash.value, false)) else s;
      SameAges(s, kept, at);
      if s.factors != [] {
        SameAges(kept, Steps.InsertChallenge(kept, next, None, None, now), at);
        AgesTwice(s, kept, Steps.InsertChallenge(kept, next, None, None, now), at);
      } else {
        InsertAges(kept, next, ByPassword(read), now, at);
        AgesTwice(s, kept, Steps.InsertSession(kept, next, ByPassword(read), now), at);
      }
    }
  }

  lemma FinishChangeAges(s: Account, session: Session, read: Secret, secret: Secret, next: Token, now: Time, at: Time)
    requires Known(s) && !TokenSeen(s.history, next)
    ensures Ages(s, Steps.FinishChange(s, session, read, secret, next, now).0, at)
  {
    if s.secret == read {
      var stored := Log(Steps.EndSignIns(s).(secret := secret), Stored(secret, true));
      SameAges(s, stored, at);
      var changed := Steps.RevokeAll(stored, now);
      RevokeAges(stored, next, now, at);
      AgesTwice(s, stored, changed, at);
      AgesKeeps(s, changed, at);
      var signedIn := Steps.InsertSession(changed, next, ByChange(session), now);
      InsertAges(changed, next, ByChange(session), now, at);
      AgesTwice(s, changed, signedIn, at);
      var kept :=
        if session.steppedUp.Some? then Steps.MarkSteppedUp(signedIn, next, session.steppedUp.value) else signedIn;
      MarkAges(signedIn, next, if session.steppedUp.Some? then session.steppedUp.value else 0, at);
      SameAges(signedIn, signedIn, at);
      AgesTwice(s, signedIn, kept, at);
      SameAges(kept, kept.(failures := 0), at);
      AgesTwice(s, kept, kept.(failures := 0), at);
    }
  }

  lemma AnswerAges(apps: Totp.AppCodes, s: Account, token: Token, owner: Option<Token>, a: Steps.Answer, now: Time,
                   at: Time)
    requires token in s.challenges
    ensures Ages(s, Steps.AnswerChallenge(apps, s, token, owner, a, now).0, at)
  {
    var after := Steps.AnswerChallenge(apps, s, token, owner, a, now).0;
    AnswerEffects(apps, s, token, owner, a, now);
    OnlyKeeps(after.history, s.history, Answering);
    SameAges(s, after, at);
  }

  lemma {:induction false} NotSeenByAnswers(later: History, h: History, t: Token)
    requires Only(later, h, Answering) && !TokenSeen(h, t)
    ensures !TokenSeen(later, t)
  {
    if later != h {
      NotSeenByAnswers(later.past, h, t);
    }
  }

  lemma CompleteSignInAges(apps: Totp.AppCodes, s: Account, token: Token, a: Steps.Answer, next: Token, now: Time,
                           at: Time)
    requires Known(s) && !TokenSeen(s.history, next)
    ensures Ages(s, Steps.CompleteSignIn(apps, s, token, a, next, now).0, at)
  {
    if Steps.Find(s, token, None, now).Some? {
      AnswerAges(apps, s, token, None, a, now, at);
      AnswerEffects(apps, s, token, None, a, now);
      var answered := Steps.AnswerChallenge(apps, s, token, None, a, now);
      if answered.1 {
        NotSeenByAnswers(answered.0.history, s.history, next);
        AgesKeeps(s, answered.0, at);
        var signedIn := Steps.InsertSession(answered.0, next, BySecondStep(token, a.m), now);
        InsertAges(answered.0, next, BySecondStep(token, a.m), now, at);
        AgesTwice(s, answered.0, signedIn, at);
        var marked := Steps.MarkSteppedUp(signedIn, next, now);
        MarkAges(signedIn, next, now, at);
        AgesTwice(s, signedIn, marked, at);
        var later := Steps.CompleteSignIn(apps, s, token, a, next, now).0;
        SameAges(marked, later, at);
        AgesTwice(s, marked, later, at);
      }
    }
  }

  lemma StepUpAges(apps: Totp.AppCodes, s: Account, session: Session, token: Token, a: Steps.Answer, now: Time,
                   at: Time)
    ensures Ages(s, Steps.StepUp(apps, s, session, token, a, now).0, at)
  {
    if Steps.Find(s, token, Some(session.id), now).Some? {
      AnswerAges(apps, s, token, Some(session.id), a, now, at);
      var answered := Steps.AnswerChallenge(apps, s, token, Some(session.id), a, now);
      if answered.1 {
        var later := Steps.StepUp(apps, s, session, token, a, now).0;
        MarkAges(answered.0, session.id, now, at);
        var marked := answered.0.(sessions := later.sessions);
        AgesTwice(s, answered.0, marked, at);
        SameAges(marked, later, at);
        AgesTwice(s, marked, later, at);
      }
    }
  }

  /** No step revives a session, if the clock does not go back behind the moment
      it was dead at. */
  lemma Kept(apps: Totp.AppCodes, s: Account, step: Step, at: Time)
    requires Known(s) && Enabled(s, step) && (step.Authenticate? ==> at <= step.now)
    ensures Ages(s, Apply(apps, s, step), at)
  {
    if IsFactorStep(step) {
      FactorStepEffects(apps, s, step);
      OnlyKeeps(Apply(apps, s, step).history, s.history, Changing);
    } else if IsSendStep(step) {
      SendStepEffects(apps, s, step);
    } else {
      match step
      case Authenticate(token, now) => AuthenticateAges(s, token, now, at);
      case SignIn(read, rehash, next, now) => SignInAges(s, read, rehash, next, now, at);
      case FinishChange(session, read, secret, next, now) => FinishChangeAges(s, session, read, secret, next, now, at);
      case CompleteSignIn(token, a, next, now) => CompleteSignInAges(apps, s, token, a, next, now, at);
      case StepUp(session, token, a, now) => StepUpAges(apps, s, session, token, a, now, at);
      case BeginStepUp(session, action, next, now) =>
        SameAges(s, Steps.BeginStepUp(s, session, action, next, now).0, at);
      case End(token, now) => RevokeAges(s, token, now, at);
      case ReadPassword => SameAges(s, Steps.ReadPassword(s), at);
      case BeginChange(session, now) => SameAges(s, Steps.BeginChange(s, session, now).0, at);
    }
  }

  lemma {:induction false} RunsKeep(apps: Totp.AppCodes, s: Account, run: seq<Step>, at: Time)
    requires Known(s) && Legal(apps, s, run)
    requires forall i :: 0 <= i < |run| && run[i].Authenticate? ==> at <= run[i].now
    ensures Ages(s, Execute(apps, s, run), at) && Known(Execute(apps, s, run))
  {
    if run == [] {
      SameAges(s, s, at);
    } else {
      var front := run[..|run| - 1];
      var before := Execute(apps, s, front);
      RunsKeep(apps, s, front, at);
      Kept(apps, before, run[|run| - 1], at);
      AgesTwice(s, before, Execute(apps, s, run), at);
      AgesKeeps(before, Execute(apps, s, run), at);
    }
  }

  /** Once ended, for good. */
  lemma EndedForGood(apps: Totp.AppCodes, kind: Kind, secret: Secret, before: seq<Step>, run: seq<Step>, t: Token,
                     at: Time, now: Time)
    requires Legal(apps, Created(kind, secret), before)
    requires var s := Execute(apps, Created(kind, secret), before);
             Legal(apps, s, run) && Dead(s, t, at)
    requires forall i :: 0 <= i < |run| && run[i].Authenticate? ==> at <= run[i].now
    requires at <= now
    ensures var later := Execute(apps, Execute(apps, Created(kind, secret), before), run);
            Steps.Authenticate(later, t, now) == (later, None)
  {
    var start := Created(kind, secret);
    RunsKeep(apps, start, before, 0);
    var s := Execute(apps, start, before);
    RunsKeep(apps, s, run, at);
    DeadIsRefused(Execute(apps, s, run), t, at, now);
  }
}
