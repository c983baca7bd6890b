/** How an account gets a session: while it holds a second factor, only from a
    right answer by a method it holds, or with a recovery code, or from a
    password change asked for on a session it already had (internal/identity/identity.go, challenge.go). */
module SessionSafety {
  import opened Base
  import opened Policy
  import opened Rows
  import opened Runs
  import PasswordSafety
  import PurposeSafety
  import RecoveryCode
  import RecoverySafety
  import StepUpSafety
  import Steps
  import Totp

  /** Whether a factor of an identifier and a method was added, and none of that
      identifier removed since. */
  predicate Held(h: History, id: nat, m: Method) {
    h.Then? && !(h.last.FactorRemoved? && h.last.id == id)
    && (h.last == FactorAdded(id, m) || Held(h.past, id, m))
  }

  /** A recovery code was just accepted, that had been issued and never used. */
  predicate RecoveryProved(h: History) {
    h.Then? && h.last.RecoveryAccepted? && RecoverySeen(h.past, h.last.code)
      && RecoverySafety.Uses(h.past, h.last.code) == 0
  }

  /** What an answer with a method takes: a factor of that method which the account
      held and the policy lets its kind answer with, or a recovery code. */
  ghost predicate Proves(kind: Kind, past: History, m: Method) {
    if m == Recovery then RecoveryProved(past)
    else Permits(kind, m, Verify) && exists id: nat :: Held(past, id, m)
  }

  /** A change of the password was begun on a session, whose hash then read is
      still the account's. */
  ghost predicate ChangeAsked(past: History, session: Session) {
    exists read: Secret, at: Time ::
      Happened(past, ChangeBegun(session, read, at)) && !PasswordSafety.Superseded(past, read)
  }

  /** What has to come before a session is opened: a password, on an account with
      no factor; the right answer to a sign-in challenge, with a method that proves
      something; or a password change, asked for on a session that a request was
      authenticated with and that passed the gate. */
  ghost predicate Allows(kind: Kind, past: History, how: How) {
    match how
    case ByPassword(read) => Happened(past, Read(read)) && forall id: nat, m: Method :: !Held(past, id, m)
    case BySecondStep(challenge, m) =>
      past.Then? && past.last.Answered? && past.last.token == challenge && past.last.m == m && past.last.right
      && past.last.counts && PurposeSafety.OpenedFor(past, challenge) == Some(SignInCode) && Proves(kind, past.past, m)
    case ByChange(session) =>
      past.Then? && past.last.Stored? && past.last.change
      && Happened(past.past, HandedOut(session)) && ChangeAsked(past.past, session)
  }

  /** Every session ever opened was allowed when it was. */
  ghost predicate Earned(kind: Kind, h: History) {
    h.Then? ==> Earned(kind, h.past) && (h.last.Opened? ==> Allows(kind, h.past, h.last.how))
  }

  predicate HasFactor(factors: seq<Factor>, id: nat, m: Method) {
    exists i :: 0 <= i < |factors| && factors[i].id == id && MethodOf(factors[i]) == m
  }

  ghost predicate Tells(h: History, factors: seq<Factor>) {
    forall id: nat, m: Method :: Held(h, id, m) <==> HasFactor(factors, id, m)
  }

  ghost predicate Inv(s: Account) { Tells(s.history, s.factors) && Earned(s.kind, s.history) }

  lemma CreatedIsSafe(kind: Kind, secret: Secret)
    ensures Inv(Created(kind, secret))
  {
    assert Earned(kind, Nothing);
    assert forall id: nat, m: Method :: !Held(Nothing, id, m);
  }

  predicate Beside(e: Event) { !e.Opened? && !e.FactorAdded? && !e.FactorRemoved? }

  lemma {:induction false} OnlyKeeps(later: History, h: History, part: Part)
    requires Only(later, h, part) && part != Changing
    ensures forall id: nat, m: Method :: Held(later, id, m) == Held(h, id, m)
    ensures forall kind: Kind :: Earned(kind, h) ==> Earned(kind, later)
  {
    if later != h {
      OnlyKeeps(later.past, h, part);
    }
  }

  lemma SameKeeps(s: Account, later: Account)
    requires Inv(s)
    requires later.kind == s.kind
    requires forall id: nat, m: Method :: HasFactor(later.factors, id, m) <==> HasFactor(s.factors, id, m)
    requires forall id: nat, m: Method :: Held(later.history, id, m) == Held(s.history, id, m)
    requires Earned(later.kind, later.history)
    ensures Inv(later)
  {
  }

  lemma LogKeeps(s: Account, later: Account)
    requires Inv(s) && later.kind == s.kind && later.factors == s.factors
    requires later.history == s.history
          || (later.history.Then? && later.history.past == s.history && Beside(later.history.last))
    ensures Inv(later)
  {
    SameKeeps(s, later);
  }

  lemma OpenKeeps(s: Account, token: Token, how: How, now: Time)
    requires Inv(s) && Allows(s.kind, s.history, how)
    ensures Inv(Steps.InsertSession(s, token, how, now))
  {
    SameKeeps(s, Steps.InsertSession(s, token, how, now));
  }

  lemma CheckKeepsFactors(apps: Totp.AppCodes, s: Account, owner: Option<Token>, o: Steps.Offer, a: Steps.Answer,
                          now: Time)
    ensures var after := Steps.Check(apps, s, owner, o, a, now).0;
            forall id: nat, m: Method :: HasFactor(after.factors, id, m) <==> HasFactor(s.factors, id, m)
  {
    if a.m == App && a.m in o.methods {
      match Steps.FindApp(apps, s.factors, a.typed, now)
      case None =>
      case Some((k, step)) => StepKeepsFactors(s.factors, k, step);
    }
  }

  lemma StepKeepsFactors(factors: seq<Factor>, k: nat, step: nat)
    requires k < |factors| && factors[k].AppFactor?
    ensures var later := factors[k := factors[k].(lastStep := step)];
            forall id: nat, m: Method :: HasFactor(later, id, m) <==> HasFactor(factors, id, m)
  {
    var later := factors[k := factors[k].(lastStep := step)];
    forall id: nat, m: Method ensures HasFactor(later, id, m) <==> HasFactor(factors, id, m) {
      if HasFactor(factors, id, m) {
        var i :| 0 <= i < |factors| && factors[i].id == id && MethodOf(factors[i]) == m;
        assert later[i].id == id && MethodOf(later[i]) == m;
      }
    }
  }

  lemma AnswerKeeps(apps: Totp.AppCodes, s: Account, token: Token, owner: Option<Token>, a: Steps.Answer, now: Time)
    requires Inv(s) && token in s.challenges
    ensures Inv(Steps.AnswerChallenge(apps, s, token, owner, a, now).0)
  {
    var after := Steps.AnswerChallenge(apps, s, token, owner, a, now);
    AnswerEffects(apps, s, token, owner, a, now);
    OnlyKeeps(after.0.history, s.history, Answering);
    CheckKeepsFactors(apps, s, owner, Steps.Offers(s, s.challenges[token].action), a, now);
    AnswerKeepsFactors(apps, s, token, owner, a, now);
    SameKeeps(s, after.0);
  }

  lemma AnswerKeepsFactors(apps: Totp.AppCodes, s: Account, token: Token, owner: Option<Token>, a: Steps.Answer,
                           now: Time)
    requires token in s.challenges
    ensures Steps.AnswerChallenge(apps, s, token, owner, a, now).0.factors
            == Steps.Check(apps, s, owner, Steps.Offers(s, s.challenges[token].action), a, now).0.factors
  {
    Steps.CheckKeepsChallenges(apps, s, owner, Steps.Offers(s, s.challenges[token].action), a, now);
  }

  /** A method that the account has is one of a factor it holds. */
  lemma HasIsHeld(s: Account, m: Method) returns (id: nat)
    requires Inv(s) && Steps.Has(s.factors, m)
    ensures Held(s.history, id, m)
  {
    var f :| f in s.factors && MethodOf(f) == m;
    var i :| 0 <= i < |s.factors| && s.factors[i] == f;
    id := f.id;
    assert HasFactor(s.factors, id, m);
  }

  /** At sign-in, an answer that its check found right proves something. */
  lemma RightAnswerProves(apps: Totp.AppCodes, s: Account, a: Steps.Answer, now: Time)
    requires Inv(s) && RecoverySafety.Inv(s)
    requires Steps.Check(apps, s, None, Steps.Offers(s, None), a, now).1
    ensures Proves(s.kind, Steps.Check(apps, s, None, Steps.Offers(s, None), a, now).0.history, a.m)
  {
    StepUpSafety.SignInProvesAFactor(apps, s, a, now);
    if a.m == Recovery {
      assert RecoverySafety.RowTells(s, RecoveryCode.Canonical(a.typed).value);
    } else {
      var id := HasIsHeld(s, a.m);
      var checked := Steps.Check(apps, s, None, Steps.Offers(s, None), a, now).0;
      CheckEffects(apps, s, None, Steps.Offers(s, None), a, now);
      OnlyKeeps(checked.history, s.history, Checking);
      assert Held(checked.history, id, a.m);
    }
  }

  lemma RightAnswerAllows(apps: Totp.AppCodes, s: Account, token: Token, a: Steps.Answer, now: Time)
    requires Inv(s) && RecoverySafety.Inv(s) && PurposeSafety.Inv(s)
    requires token in s.challenges && s.challenges[token].session.None? && s.challenges[token].action.None?
    requires PurposeSafety.Inv(Steps.AnswerChallenge(apps, s, token, None, a, now).0)
    requires Steps.AnswerChallenge(apps, s, token, None, a, now).1
    ensures Allows(s.kind, Steps.AnswerChallenge(apps, s, token, None, a, now).0.history, BySecondStep(token, a.m))
  {
    var answered := Steps.AnswerChallenge(apps, s, token, None, a, now).0;
    RightAnswerProves(apps, s, a, now);
    StepUpSafety.SignInProvesAFactor(apps, s, a, now);
    AnswerEffects(apps, s, token, None, a, now);
    assert answered.challenges[token].session.None?;
  }

  lemma CompleteSignInKeeps(apps: Totp.AppCodes, s: Account, token: Token, a: Steps.Answer, next: Token, now: Time)
    requires Inv(s) && RecoverySafety.Inv(s) && PurposeSafety.Inv(s)
    requires token in s.challenges && s.challenges[token].session.None? ==> s.challenges[token].action.None?
    ensures Inv(Steps.CompleteSignIn(apps, s, token, a, next, now).0)
  {
    if Steps.Find(s, token, None, now).Some? {
      AnswerKeeps(apps, s, token, None, a, now);
      var answered := Steps.AnswerChallenge(apps, s, token, None, a, now);
      if answered.1 {
        PurposeSafety.AnswerKeeps(apps, s, token, None, a, now);
        RightAnswerAllows(apps, s, token, a, now);
        AnswerEffects(apps, s, token, None, a, now);
        var signedIn := Steps.InsertSession(answered.0, next, BySecondStep(token, a.m), now);
        OpenKeeps(answered.0, next, BySecondStep(token, a.m), now);
        LogKeeps(signedIn, Steps.CompleteSignIn(apps, s, token, a, next, now).0);
      }
    }
  }

  lemma StepUpKeeps(apps: Totp.AppCodes, s: Account, session: Session, token: Token, a: Steps.Answer, now: Time)
    requires Inv(s)
    ensures Inv(Steps.StepUp(apps, s, session, token, a, now).0)
  {
    if Steps.Find(s, token, Some(session.id), now).Some? {
      AnswerKeeps(apps, s, token, Some(session.id), a, now);
      if Steps.AnswerChallenge(apps, s, token, Some(session.id), a, now).1 {
        StepUpEffects(apps, s, session, token, a, now);
      }
      LogKeeps(Steps.AnswerChallenge(apps, s, token, Some(session.id), a, now).0,
               Steps.StepUp(apps, s, session, token, a, now).0);
    }
  }

  lemma SignInKeeps(s: Account, read: Secret, rehash: Option<Secret>, next: Token, now: Time)
    requires Inv(s) && Happened(s.history, Read(read))
    ensures Inv(Steps.FinishSignIn(s, read, rehash, next, now).0)
  {
    if s.secret == read {
      var kept := if rehash.Some? then Log(s.(secret := rehash.value), Stored(rehash.value, false)) else s;
      LogKeeps(s, kept);
      if s.factors == [] {
        forall id: nat, m: Method ensures !Held(kept.history, id, m) {
          assert !HasFactor(kept.factors, id, m);
        }
        OpenKeeps(kept, next, ByPassword(read), now);
      } else {
        LogKeeps(kept, Steps.InsertChallenge(kept, next, None, None, now));
      }
    }
  }

  lemma FinishChangeKeeps(s: Account, session: Session, read: Secret, secret: Secret, next: Token, now: Time)
    requires Inv(s) && PasswordSafety.Inv(s) && Happened(s.history, HandedOut(session))
    requires exists at :: Happened(s.history, ChangeBegun(session, read, at))
    ensures Inv(Steps.FinishChange(s, session, read, secret, next, now).0)
  {
    if s.secret == read {
      var at :| Happened(s.history, ChangeBegun(session, read, at));
      assert ChangeAsked(s.history, session);
      var changed := Log(s, Stored(secret, true));
      LogKeeps(s, changed);
      var signedIn := Steps.InsertSession(changed, next, ByChange(session), now);
      OpenKeeps(changed, next, ByChange(session), now);
      LogKeeps(signedIn, Steps.FinishChange(s, session, read, secret, next, now).0);
    }
  }

  /** A factor added. */
  lemma AddKeeps(s: Account, f: Factor)
    requires Inv(s)
    ensures Inv(Steps.AddFactor(s, f))
  {
    var later := Steps.AddFactor(s, f);
    forall id: nat, m: Method ensures Held(later.history, id, m) <==> HasFactor(later.factors, id, m) {
      if HasFactor(s.factors, id, m) {
        var i :| 0 <= i < |s.factors| && s.factors[i].id == id && MethodOf(s.factors[i]) == m;
        assert later.factors[i].id == id && MethodOf(later.factors[i]) == m;
      }
      assert later.factors[|s.factors|] == f;
    }
  }

  lemma WithoutHas(factors: seq<Factor>, id: nat, x: nat, m: Method)
    ensures HasFactor(Steps.Without(factors, id), x, m) <==> HasFactor(factors, x, m) && x != id
  {
    var left := Steps.Without(factors, id);
    if HasFactor(left, x, m) {
      var i :| 0 <= i < |left| && left[i].id == x && MethodOf(left[i]) == m;
      assert left[i] in factors;
    }
    if HasFactor(factors, x, m) && x != id {
      var i :| 0 <= i < |factors| && factors[i].id == x && MethodOf(factors[i]) == m;
      assert factors[i] in left;
    }
  }

  lemma RemoveKeeps(s: Account, session: Session, id: nat, now: Time)
    requires Inv(s)
    ensures Inv(Steps.RemoveFactor(s, session, id, now).0)
  {
    var after := Steps.RemoveFactor(s, session, id, now);
    if after.1 == Steps.Done {
      forall x: nat, m: Method
        ensures HasFactor(Steps.Without(s.factors, id), x, m) <==> HasFactor(s.factors, x, m) && x != id
      {
        WithoutHas(s.factors, id, x, m);
      }
      var changed := Log(s, FactorsChanged(session, now));
      LogKeeps(s, changed);
      RemovedTells(changed, after.0, id);
    }
  }

  lemma RemovedTells(changed: Account, after: Account, id: nat)
    requires Inv(changed) && after.history == Then(changed.history, FactorRemoved(id)) && after.kind == changed.kind
    requires forall x: nat, m: Method :: HasFactor(after.factors, x, m) <==> HasFactor(changed.factors, x, m) && x != id
    ensures Inv(after)
  {
    forall x: nat, m: Method ensures Held(after.history, x, m) <==> HasFactor(after.factors, x, m) {
      assert Held(changed.history, x, m) <==> HasFactor(changed.factors, x, m);
    }
  }

  lemma ConfirmAppKeeps(apps: Totp.AppCodes, s: Account, session: Session, typed: string, id: nat, codes: set<string>,
                        now: Time)
    requires Inv(s)
    ensures Inv(Steps.ConfirmApp(apps, s, session, typed, id, codes, now).0)
  {
    var after := Steps.ConfirmApp(apps, s, session, typed, id, codes, now).0;
    if after.history != s.history {
      var secret := s.enrolments[session.id].secret;
      var step := Totp.Match(apps, secret, typed, now, 0).value;
      var changed := Log(s, FactorsChanged(session, now));
      LogKeeps(s, changed);
      var added := Steps.AddFactor(changed, AppFactor(id, secret, step));
      AddKeeps(changed, AppFactor(id, secret, step));
      var accepted := Log(added, AppAccepted(id, step, now));
      LogKeeps(added, accepted);
      LogKeeps(accepted, after);
    } else {
      LogKeeps(s, after);
    }
  }

  lemma ConfirmKeyKeeps(s: Account, session: Session, keyProves: bool, id: nat, codes: set<string>, now: Time)
    requires Inv(s)
    ensures Inv(Steps.ConfirmKey(s, session, keyProves, id, codes, now).0)
  {
    var after := Steps.ConfirmKey(s, session, keyProves, id, codes, now).0;
    if after.history != s.history {
      var changed := Log(s, FactorsChanged(session, now));
      LogKeeps(s, changed);
      AddKeeps(changed, KeyFactor(id));
      LogKeeps(Steps.AddFactor(changed, KeyFactor(id)), after);
    } else {
      LogKeeps(s, after);
    }
  }

  lemma ConfirmEmailKeeps(s: Account, session: Session, typed: string, id: nat, now: Time)
    requires Inv(s)
    ensures Inv(Steps.ConfirmEmail(s, session, typed, id, now).0)
  {
    var used := Steps.UseCode(s, EnrolCode, typed, now);
    UseEffects(s, EnrolCode, typed, now);
    LogKeeps(s, used.0);
    if Steps.ConfirmEmail(s, session, typed, id, now).1 == Steps.Done {
      var changed := Log(used.0, FactorsChanged(session, now));
      LogKeeps(used.0, changed);
      AddKeeps(changed, EmailFactor(id));
    }
  }

  lemma RegenerateKeeps(s: Account, session: Session, codes: set<string>, now: Time)
    requires Inv(s)
    ensures Inv(Steps.Regenerate(s, session, codes, now).0)
  {
    var changed := Log(s, FactorsChanged(session, now));
    LogKeeps(s, changed);
    LogKeeps(changed, Steps.ReplaceRecovery(changed, codes));
  }

  /** Needs what the other invariants keep: a sign-in challenge has no action, and
      so offers no mere address; a recovery row unused was issued and never used;
      and the stored hash is the one that nothing superseded. */
  lemma Kept(apps: Totp.AppCodes, s: Account, step: Step)
    requires Inv(s) && StepUpSafety.Inv(s) && RecoverySafety.Inv(s) && PurposeSafety.Inv(s) && PasswordSafety.Inv(s)
    requires Enabled(s, step)
    ensures Inv(Apply(apps, s, step))
  {
    if IsSendStep(step) {
      SendStepEffects(apps, s, step);
      LogKeeps(s, Apply(apps, s, step));
    } else {
      match step
      case SignIn(read, rehash, next, now) => SignInKeeps(s, read, rehash, next, now);
      case FinishChange(session, read, secret, next, now) => FinishChangeKeeps(s, session, read, secret, next, now);
      case CompleteSignIn(token, a, next, now) => CompleteSignInKeeps(apps, s, token, a, next, now);
      case StepUp(session, token, a, now) => StepUpKeeps(apps, s, session, token, a, now);
      case ConfirmApp(session, typed, id, codes, now) => ConfirmAppKeeps(apps, s, session, typed, id, codes, now);
      case ConfirmKey(session, keyProves, id, codes, now) => ConfirmKeyKeeps(s, session, keyProves, id, codes, now);
      case ConfirmEmail(session, typed, id, now) => ConfirmEmailKeeps(s, session, typed, id, now);
      case RemoveFactor(session, id, now) => RemoveKeeps(s, session, id, now);
      case Regenerate(session, codes, now) => RegenerateKeeps(s, session, codes, now);
      case _ => OtherKeeps(apps, s, step);
    }
  }

  lemma OtherKeeps(apps: Totp.AppCodes, s: Account, step: Step)
    requires Inv(s)
    requires step.Authenticate? || step.ReadPassword? || step.BeginStepUp? || step.BeginChange? || step.End?
             || step.BeginApp? || step.BeginKey?
    ensures Inv(Apply(apps, s, step))
  {
    LogKeeps(s, Apply(apps, s, step));
  }
}
