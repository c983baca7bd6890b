/** What a session's marks prove, and what they open: a step-up is a second
    factor proved at that moment, a confirmed address is not, and a request
    authenticated with 2FA changes the password and the factors only within ten
    minutes of a proof (internal/identity/stepup.go, challenge.go, identity.go). */
module StepUpSafety {
  import opened Base
  import opened Policy
  import opened Rows
  import opened Runs
  import Steps
  import Totp

  /** Whether the account proved one of its second factors, or a recovery code,
      at a moment. */
  predicate ProvedAt(h: History, at: Time) {
    h.Then? && ((h.last.Answered? && h.last.right && h.last.counts && h.last.at == at) || ProvedAt(h.past, at))
  }

  /** Whether it answered a code to its address, no factor of its own, then. */
  predicate ConfirmedAt(h: History, at: Time) {
    h.Then? && ((h.last.Answered? && h.last.right && !h.last.counts && h.last.m == Email && h.last.at == at)
                || ConfirmedAt(h.past, at))
  }

  ghost predicate ProvedRecently(h: History, now: Time) {
    exists at: Time :: ProvedAt(h, at) && now < at + STEP_UP_LIFETIME
  }

  /** A change of the password begun, or of the factors committed, on an account
      that had 2FA when its request was authenticated. */
  predicate Sensitive(e: Event) {
    (e.ChangeBegun? || e.FactorsChanged?) && e.session.secondFactor
  }

  ghost predicate Gatekept(h: History) {
    h.Then? ==> Gatekept(h.past) && (Sensitive(h.last) ==> ProvedRecently(h.past, h.last.at))
  }

  ghost predicate MarksTell(h: History, steppedUp: Option<Time>, emailConfirmed: Option<Time>) {
    (steppedUp.Some? ==> ProvedAt(h, steppedUp.value))
      && (emailConfirmed.Some? ==> ConfirmedAt(h, emailConfirmed.value))
  }

  ghost predicate Inv(s: Account) {
    && (forall t :: t in s.sessions ==> MarksTell(s.history, s.sessions[t].steppedUp, s.sessions[t].emailConfirmed))
    && (forall session: Session :: Happened(s.history, HandedOut(session))
                                   ==> MarksTell(s.history, session.steppedUp, session.emailConfirmed))
    && (forall t :: t in s.challenges ==> (s.challenges[t].session.None? <==> s.challenges[t].action.None?))
    && Gatekept(s.history)
  }

  lemma CreatedIsSafe(kind: Kind, secret: Secret)
    ensures Inv(Created(kind, secret))
  {
    assert Gatekept(Nothing);
    assert forall e :: !Happened(Nothing, e);
  }

  /** What was proved stays proved. */
  lemma {:induction false} OnlyKeeps(later: History, h: History, part: Part)
    requires Only(later, h, part)
    ensures forall at: Time :: ProvedAt(h, at) ==> ProvedAt(later, at)
    ensures forall at: Time :: ConfirmedAt(h, at) ==> ConfirmedAt(later, at)
    ensures forall session: Session :: Happened(later, HandedOut(session)) == Happened(h, HandedOut(session))
    ensures part != Changing && Gatekept(h) ==> Gatekept(later)
  {
    if later != h {
      OnlyKeeps(later.past, h, part);
    }
  }

  /** Rows whose marks are told by the history they come with. */
  lemma MoreKeeps(s: Account, later: Account)
    requires Inv(s) && later.challenges == s.challenges
    requires forall at: Time :: ProvedAt(s.history, at) ==> ProvedAt(later.history, at)
    requires forall at: Time :: ConfirmedAt(s.history, at) ==> ConfirmedAt(later.history, at)
    requires forall session: Session ::
               Happened(later.history, HandedOut(session)) ==> Happened(s.history, HandedOut(session))
    requires Gatekept(later.history)
    requires forall t :: t in later.sessions ==>
               (t in s.sessions && later.sessions[t].steppedUp == s.sessions[t].steppedUp
                && later.sessions[t].emailConfirmed == s.sessions[t].emailConfirmed)
               || MarksTell(later.history, later.sessions[t].steppedUp, later.sessions[t].emailConfirmed)
    ensures Inv(later)
  {
    forall t | t in later.sessions
      ensures MarksTell(later.history, later.sessions[t].steppedUp, later.sessions[t].emailConfirmed)
    {
      if t in s.sessions {
        assert MarksTell(s.history, s.sessions[t].steppedUp, s.sessions[t].emailConfirmed);
      }
    }
    forall session: Session | Happened(later.history, HandedOut(session))
      ensures MarksTell(later.history, session.steppedUp, session.emailConfirmed)
    {
      assert MarksTell(s.history, session.steppedUp, session.emailConfirmed);
    }
  }

  lemma LogKeeps(s: Account, later: Account)
    requires Inv(s)
    requires later.history == s.history
          || (later.history.Then? && later.history.past == s.history && !later.history.last.HandedOut?
              && (Sensitive(later.history.last) ==> ProvedRecently(s.history, later.history.last.at)))
    requires later.sessions == s.sessions
    requires later.challenges == s.challenges
    ensures Inv(later)
  {
    MoreKeeps(s, later);
  }

  lemma AuthenticateKeeps(s: Account, token: Token, now: Time)
    requires Inv(s)
    ensures Inv(Steps.Authenticate(s, token, now).0)
  {
    var later := Steps.Authenticate(s, token, now).0;
    if later != s {
      var row := s.sessions[token];
      assert MarksTell(s.history, row.steppedUp, row.emailConfirmed);
      forall t | t in later.sessions
        ensures MarksTell(later.history, later.sessions[t].steppedUp, later.sessions[t].emailConfirmed)
      {
        assert MarksTell(s.history, s.sessions[t].steppedUp, s.sessions[t].emailConfirmed);
      }
      forall session: Session | Happened(later.history, HandedOut(session))
        ensures MarksTell(later.history, session.steppedUp, session.emailConfirmed)
      {
        assert HandedOut(session) == later.history.last || Happened(s.history, HandedOut(session));
      }
    }
  }

  lemma RevokeKeeps(s: Account, token: Token, now: Time)
    requires Inv(s)
    ensures Inv(Steps.Revoke(s, token, now))
  {
    MoreKeeps(s, Steps.Revoke(s, token, now));
  }

  lemma InsertChallengeKeeps(s: Account, token: Token, session: Option<Token>, action: Option<Action>, now: Time)
    requires Inv(s) && (session.None? <==> action.None?)
    ensures Inv(Steps.InsertChallenge(s, token, session, action, now))
  {
    var later := Steps.InsertChallenge(s, token, session, action, now);
    LogKeeps(s, later.(challenges := s.challenges));
  }

  /** At sign-in nothing but the account's own factors is offered, so a right
      answer proves one of them, or a recovery code. */
  lemma SignInProvesAFactor(apps: Totp.AppCodes, s: Account, a: Steps.Answer, now: Time)
    requires Steps.Check(apps, s, None, Steps.Offers(s, None), a, now).1
    ensures a.m == Recovery || (Steps.Has(s.factors, a.m) && Permits(s.kind, a.m, Verify))
    ensures Steps.IsSecondFactor(Steps.Offers(s, None), a.m)
  {
    if a.m != Recovery {
      assert a.m in Steps.MethodsOf(s);
    }
  }

  lemma AnswerKeeps(apps: Totp.AppCodes, s: Account, token: Token, owner: Option<Token>, a: Steps.Answer, now: Time)
    requires Inv(s) && token in s.challenges
    ensures var after := Steps.AnswerChallenge(apps, s, token, owner, a, now);
            var counts := Steps.IsSecondFactor(Steps.Offers(s, s.challenges[token].action), a.m);
            && Inv(after.0)
            && (after.1 && counts ==> ProvedAt(after.0.history, now))
            && (after.1 && !counts ==> ConfirmedAt(after.0.history, now))
  {
    var after := Steps.AnswerChallenge(apps, s, token, owner, a, now);
    AnswerEffects(apps, s, token, owner, a, now);
    OnlyKeeps(after.0.history, s.history, Answering);
    MoreKeeps(s, after.0.(challenges := s.challenges));
  }

  lemma CompleteSignInKeeps(apps: Totp.AppCodes, s: Account, token: Token, a: Steps.Answer, next: Token, now: Time)
    requires Inv(s)
    ensures Inv(Steps.CompleteSignIn(apps, s, token, a, next, now).0)
  {
    if Steps.Find(s, token, None, now).Some? {
      AnswerKeeps(apps, s, token, None, a, now);
      var answered := Steps.AnswerChallenge(apps, s, token, None, a, now);
      if answered.1 {
        SignInProvesAFactor(apps, s, a, now);
        MoreKeeps(answered.0, Steps.CompleteSignIn(apps, s, token, a, next, now).0);
      }
    }
  }

  lemma StepUpKeeps(apps: Totp.AppCodes, s: Account, session: Session, token: Token, a: Steps.Answer, now: Time)
    requires Inv(s)
    ensures Inv(Steps.StepUp(apps, s, session, token, a, now).0)
  {
    if Steps.Find(s, token, Some(session.id), now).Some? {
      AnswerKeeps(apps, s, token, Some(session.id), a, now);
      var answered := Steps.AnswerChallenge(apps, s, token, Some(session.id), a, now);
      if answered.1 {
        StepUpEffects(apps, s, session, token, a, now);
        AnswerEffects(apps, s, token, Some(session.id), a, now);
        var later := Steps.StepUp(apps, s, session, token, a, now).0;
        forall t | t in later.sessions
          ensures MarksTell(later.history, later.sessions[t].steppedUp, later.sessions[t].emailConfirmed)
        {
          assert MarksTell(answered.0.history, answered.0.sessions[t].steppedUp, answered.0.sessions[t].emailConfirmed);
        }
        MoreKeeps(answered.0, later);
      }
    }
  }

  /** Passing the gate takes a proof less than ten minutes old. */
  lemma GateProves(s: Account, session: Session, action: Action, now: Time)
    requires Inv(s) && Happened(s.history, HandedOut(session)) && session.secondFactor
    requires action == Password || action == Factors
    requires !NeedsStepUp(s.kind, session, action, now)
    ensures ProvedRecently(s.history, now)
  {
    assert MarksTell(s.history, session.steppedUp, session.emailConfirmed);
    assert ProvedAt(s.history, session.steppedUp.value);
  }

  lemma BeginChangeKeeps(s: Account, session: Session, now: Time)
    requires Inv(s) && Happened(s.history, HandedOut(session))
    ensures Inv(Steps.BeginChange(s, session, now).0)
  {
    if !NeedsStepUp(s.kind, session, Password, now) {
      if session.secondFactor {
        GateProves(s, session, Password, now);
      }
      LogKeeps(s, Steps.BeginChange(s, session, now).0);
    }
  }

  /** The rows once the new password is stored and everything is revoked. */
  function Changed(s: Account, secret: Secret, now: Time): Account {
    Steps.RevokeAll(Log(Steps.EndSignIns(s).(secret := secret), Stored(secret, true)), now)
  }

  lemma ChangedKeeps(s: Account, secret: Secret, now: Time)
    requires Inv(s)
    ensures Inv(Changed(s, secret, now))
  {
    var stored := Log(Steps.EndSignIns(s).(secret := secret), Stored(secret, true));
    LogKeeps(s, stored.(challenges := s.challenges));
    MoreKeeps(stored, Changed(s, secret, now));
  }

  lemma OpenedKeeps(s: Account, session: Session, next: Token, now: Time)
    requires Inv(s) && MarksTell(s.history, session.steppedUp, None)
    ensures var signedIn := Steps.InsertSession(s, next, ByChange(session), now);
            && Inv(signedIn)
            && (session.steppedUp.Some? ==> Inv(Steps.MarkSteppedUp(signedIn, next, session.steppedUp.value)))
  {
    var signedIn := Steps.InsertSession(s, next, ByChange(session), now);
    MoreKeeps(s, signedIn);
    if session.steppedUp.Some? {
      MoreKeeps(signedIn, Steps.MarkSteppedUp(signedIn, next, session.steppedUp.value));
    }
  }

  lemma FinishChangeKeeps(s: Account, session: Session, read: Secret, secret: Secret, next: Token, now: Time)
    requires Inv(s) && Happened(s.history, HandedOut(session))
    ensures Inv(Steps.FinishChange(s, session, read, secret, next, now).0)
  {
    if s.secret == read {
      ChangedKeeps(s, secret, now);
      assert MarksTell(s.history, session.steppedUp, session.emailConfirmed);
      OpenedKeeps(Changed(s, secret, now), session, next, now);
    }
  }

  lemma SignInKeeps(s: Account, read: Secret, rehash: Option<Secret>, next: Token, now: Time)
    requires Inv(s)
    ensures Inv(Steps.FinishSignIn(s, read, rehash, next, now).0)
  {
    if s.secret == read {
      var kept := if rehash.Some? then Log(s.(secret := rehash.value), Stored(rehash.value, false)) else s;
      LogKeeps(s, kept);
      if s.factors != [] {
        InsertChallengeKeeps(kept, next, None, None, now);
      } else {
        MoreKeeps(kept, Steps.FinishSignIn(s, read, rehash, next, now).0);
      }
    }
  }

  lemma FactorStepKeeps(apps: Totp.AppCodes, s: Account, step: Step)
    requires Inv(s) && IsFactorStep(step) && Happened(s.history, HandedOut(step.session))
    ensures Inv(Apply(apps, s, step))
  {
    var later := Apply(apps, s, step);
    FactorStepEffects(apps, s, step);
    OnlyKeeps(later.history, s.history, Changing);
    if !NeedsStepUp(s.kind, step.session, Factors, step.now) && step.session.secondFactor {
      GateProves(s, step.session, Factors, step.now);
    }
    FactorStepGate(apps, s, step);
    MoreKeeps(s, later);
  }

  lemma FactorStepGate(apps: Totp.AppCodes, s: Account, step: Step)
    requires IsFactorStep(step) && Gatekept(s.history)
    requires step.session.secondFactor && !NeedsStepUp(s.kind, step.session, Factors, step.now)
             ==> ProvedRecently(s.history, step.now)
    ensures Gatekept(Apply(apps, s, step).history)
  {
    var h := s.history;
    var later := Apply(apps, s, step).history;
    if later != h {
      match step
      case ConfirmEmail(session, typed, id, now) => ConfirmEmailGate(s, session, typed, id, now);
      case ConfirmApp(session, typed, id, codes, now) => ConfirmAppGate(apps, s, session, typed, id, codes, now);
      case ConfirmKey(session, keyProves, id, codes, now) => ConfirmKeyGate(s, session, keyProves, id, codes, now);
      case RemoveFactor(session, id, now) => RemoveGate(s, session, id, now);
      case Regenerate(session, codes, now) => assert Gatekept(Then(h, FactorsChanged(session, now)));
      case BeginApp(session, key, now) =>
      case BeginKey(session, now) =>
    }
  }

  lemma ConfirmKeyGate(s: Account, session: Session, keyProves: bool, id: nat, codes: set<string>, now: Time)
    requires Gatekept(s.history)
    requires session.secondFactor && !NeedsStepUp(s.kind, session, Factors, now) ==> ProvedRecently(s.history, now)
    ensures Gatekept(Steps.ConfirmKey(s, session, keyProves, id, codes, now).0.history)
  {
    if Steps.ConfirmKey(s, session, keyProves, id, codes, now).0.history != s.history {
      assert Gatekept(Then(s.history, FactorsChanged(session, now)));
    }
  }

  lemma RemoveGate(s: Account, session: Session, id: nat, now: Time)
    requires Gatekept(s.history)
    requires session.secondFactor && !NeedsStepUp(s.kind, session, Factors, now) ==> ProvedRecently(s.history, now)
    ensures Gatekept(Steps.RemoveFactor(s, session, id, now).0.history)
  {
    if Steps.RemoveFactor(s, session, id, now).0.history != s.history {
      assert Gatekept(Then(s.history, FactorsChanged(session, now)));
    }
  }

  lemma ConfirmAppGate(apps: Totp.AppCodes, s: Account, session: Session, typed: string, id: nat, codes: set<string>,
                       now: Time)
    requires Gatekept(s.history)
    requires session.secondFactor && !NeedsStepUp(s.kind, session, Factors, now) ==> ProvedRecently(s.history, now)
    ensures Gatekept(Steps.ConfirmApp(apps, s, session, typed, id, codes, now).0.history)
  {
    if Steps.ConfirmApp(apps, s, session, typed, id, codes, now).0.history != s.history {
      var changed := Then(s.history, FactorsChanged(session, now));
      assert Gatekept(changed);
      assert Gatekept(Then(changed, FactorAdded(id, App)));
    }
  }

  lemma ConfirmEmailGate(s: Account, session: Session, typed: string, id: nat, now: Time)
    requires Gatekept(s.history)
    requires session.secondFactor && !NeedsStepUp(s.kind, session, Factors, now) ==> ProvedRecently(s.history, now)
    ensures Gatekept(Steps.ConfirmEmail(s, session, typed, id, now).0.history)
  {
    var used := Steps.UseCode(s, EnrolCode, typed, now).0.history;
    var later := Steps.ConfirmEmail(s, session, typed, id, now).0.history;
    UseEffects(s, EnrolCode, typed, now);
    assert Gatekept(used);
    if later != s.history && later != used {
      assert forall at: Time :: ProvedAt(s.history, at) ==> ProvedAt(used, at);
      assert Gatekept(Then(used, FactorsChanged(session, now)));
    }
  }

  lemma Kept(apps: Totp.AppCodes, s: Account, step: Step)
    requires Inv(s) && Enabled(s, step)
    ensures Inv(Apply(apps, s, step))
  {
    if IsFactorStep(step) {
      FactorStepKeeps(apps, s, step);
    } else if IsSendStep(step) {
      SendStepEffects(apps, s, step);
      LogKeeps(s, Apply(apps, s, step));
    } else {
      match step
      case Authenticate(token, now) => AuthenticateKeeps(s, token, now);
      case ReadPassword => LogKeeps(s, Steps.ReadPassword(s));
      case SignIn(read, rehash, next, now) => SignInKeeps(s, read, rehash, next, now);
      case CompleteSignIn(token, a, next, now) => CompleteSignInKeeps(apps, s, token, a, next, now);
      case BeginStepUp(session, action, next, now) =>
        InsertChallengeKeeps(s, next, Some(session.id), Some(action), now);
      case StepUp(session, token, a, now) => StepUpKeeps(apps, s, session, token, a, now);
      case BeginChange(session, now) => BeginChangeKeeps(s, session, now);
      case FinishChange(session, read, secret, next, now) => FinishChangeKeeps(s, session, read, secret, next, now);
      case End(token, now) => RevokeKeeps(s, token, now);
    }
  }
}
