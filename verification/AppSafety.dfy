/** No code of an authenticator app is accepted twice, nor one older than a code
    already accepted, over the whole life of the app (internal/identity/totp.go,
    challenge.go; section 5.2 of RFC 6238). */
module AppSafety {
  import opened Base
  import opened Policy
  import opened Rows
  import opened Runs
  import Steps
  import Totp

  /** The last step accepted for an app, 0 for none. */
  function LastStep(h: History, id: nat): nat {
    if h.Nothing? then 0
    else if h.last.AppAccepted? && h.last.id == id then h.last.step
    else LastStep(h.past, id)
  }

  /** Every step accepted came after the one accepted before it for the same app,
      and lies within one step of the moment it was accepted at. */
  predicate AllFresh(h: History) {
    h.Then? ==> AllFresh(h.past)
                && (h.last.AppAccepted? ==>
                      LastStep(h.past, h.last.id) < h.last.step
                      && Totp.StepOf(h.last.at) - 1 <= h.last.step <= Totp.StepOf(h.last.at) + 1)
  }

  ghost predicate Tells(h: History, f: Factor) {
    FactorSeen(h, f.id) && (f.AppFactor? ==> f.lastStep == LastStep(h, f.id))
  }

  ghost predicate Distinct(factors: seq<Factor>) {
    forall i, j :: 0 <= i < j < |factors| ==> factors[i].id != factors[j].id
  }

  predicate UnseenUnused(h: History, id: nat) { !FactorSeen(h, id) ==> LastStep(h, id) == 0 }

  ghost predicate Inv(s: Account) {
    && (forall i :: 0 <= i < |s.factors| ==> Tells(s.history, s.factors[i]))
    && Distinct(s.factors)
    && (forall id: nat :: UnseenUnused(s.history, id))
    && AllFresh(s.history)
  }

  lemma CreatedIsSafe(kind: Kind, secret: Secret)
    ensures Inv(Created(kind, secret))
  {
    assert AllFresh(Nothing);
    forall id: nat ensures UnseenUnused(Created(kind, secret).history, id) {
      assert LastStep(Nothing, id) == 0;
    }
  }

  predicate Beside(e: Event) { !e.AppAccepted? && !e.FactorAdded? }

  ghost predicate SameApps(later: History, h: History) {
    && (forall id: nat :: LastStep(later, id) == LastStep(h, id) && FactorSeen(later, id) == FactorSeen(h, id))
    && (AllFresh(h) ==> AllFresh(later))
  }

  lemma {:induction false} NoticesAreBeside(later: History, h: History)
    requires Only(later, h, Notifying)
    ensures SameApps(later, h)
  {
    if later != h {
      NoticesAreBeside(later.past, h);
    }
  }

  lemma SameKeeps(s: Account, later: Account)
    requires Inv(s) && later.factors == s.factors && SameApps(later.history, s.history)
    ensures Inv(later)
  {
    forall i | 0 <= i < |s.factors| ensures Tells(later.history, later.factors[i]) {
      assert Tells(s.history, s.factors[i]);
    }
    forall id: nat ensures UnseenUnused(later.history, id) {
      assert UnseenUnused(s.history, id);
    }
  }

  lemma LogKeeps(s: Account, later: Account)
    requires Inv(s) && later.factors == s.factors
    requires later.history == s.history
          || (later.history.Then? && later.history.past == s.history && Beside(later.history.last))
    ensures Inv(later)
  {
    SameKeeps(s, later);
  }

  lemma LogsKeep(s: Account, e: Event, f: Event, later: Account)
    requires Inv(s) && later.factors == s.factors && Beside(e) && Beside(f)
    requires later.history == s.history || later.history == Then(s.history, e)
             || later.history == Then(Then(s.history, e), f)
    ensures Inv(later)
  {
    LogKeeps(s, Log(s, e));
    if later.history == Then(Then(s.history, e), f) {
      LogKeeps(Log(s, e), later);
    } else {
      LogKeeps(s, later);
    }
  }

  lemma AppKeeps(apps: Totp.AppCodes, s: Account, typed: string, now: Time)
    requires Inv(s)
    ensures Inv(Steps.CheckApp(apps, s, typed, now).0)
  {
    match Steps.FindApp(apps, s.factors, typed, now)
    case None =>
    case Some((k, step)) =>
      var later := Steps.CheckApp(apps, s, typed, now).0;
      assert Tells(s.history, s.factors[k]);
      forall i | 0 <= i < |s.factors| ensures Tells(later.history, later.factors[i]) {
        assert Tells(s.history, s.factors[i]);
      }
      forall id: nat ensures UnseenUnused(later.history, id) {
        assert UnseenUnused(s.history, id);
      }
  }

  /** A new factor, with a name no factor had. */
  lemma AddKeeps(s: Account, f: Factor, later: Account)
    requires Inv(s) && !FactorSeen(s.history, f.id)
    requires later.factors == s.factors + [f]
    requires f.AppFactor?
             ==> later.history.Then? && later.history.past == Then(s.history, FactorAdded(f.id, MethodOf(f)))
                              && later.history.last.AppAccepted? && later.history.last.id == f.id
                              && later.history.last.step == f.lastStep > 0
                              && Totp.StepOf(later.history.last.at) - 1 <= f.lastStep
                                <= Totp.StepOf(later.history.last.at) + 1
    requires !f.AppFactor? ==> later.history == Then(s.history, FactorAdded(f.id, MethodOf(f)))
    ensures Inv(later)
  {
    forall i | 0 <= i < |later.factors| ensures Tells(later.history, later.factors[i]) {
      if i < |s.factors| {
        assert Tells(s.history, s.factors[i]);
      }
    }
    forall i, j | 0 <= i < j < |later.factors| ensures later.factors[i].id != later.factors[j].id {
      assert Tells(s.history, s.factors[i]);
    }
    assert FactorSeen(Then(s.history, FactorAdded(f.id, MethodOf(f))), f.id);
    forall id: nat ensures UnseenUnused(later.history, id) {
      assert UnseenUnused(s.history, id);
      assert UnseenUnused(Then(s.history, FactorAdded(f.id, MethodOf(f))), id);
    }
    assert UnseenUnused(s.history, f.id);
  }

  lemma {:induction false} WithoutKeeps(h: History, factors: seq<Factor>, id: nat)
    requires forall i :: 0 <= i < |factors| ==> Tells(h, factors[i])
    requires Distinct(factors)
    ensures var left := Steps.Without(factors, id);
            Distinct(left) && forall i :: 0 <= i < |left| ==> Tells(h, left[i])
  {
    if factors != [] {
      WithoutKeeps(h, factors[1..], id);
      var left, front := Steps.Without(factors, id), Steps.Without(factors[1..], id);
      forall i | 0 <= i < |front| ensures front[i].id != factors[0].id {
        assert front[i] in front;
        var j :| 0 <= j < |factors[1..]| && factors[1..][j] == front[i];
        assert factors[j + 1] == front[i];
      }
    }
  }

  lemma CheckKeeps(apps: Totp.AppCodes, s: Account, owner: Option<Token>, o: Steps.Offer, a: Steps.Answer, now: Time)
    requires Inv(s)
    ensures Inv(Steps.Check(apps, s, owner, o, a, now).0)
  {
    var after := Steps.Check(apps, s, owner, o, a, now).0;
    if after == s {
    } else if a.m == Recovery {
      RecoveryEffects(s, a.typed, now);
      LogKeeps(s, after);
    } else if a.m == App {
      AppKeeps(apps, s, a.typed, now);
    } else {
      UseEffects(s, Steps.PurposeOf(owner), a.typed, now);
      LogKeeps(s, after);
    }
  }

  lemma AnswerKeeps(apps: Totp.AppCodes, s: Account, token: Token, owner: Option<Token>, a: Steps.Answer, now: Time)
    requires Inv(s) && token in s.challenges
    ensures Inv(Steps.AnswerChallenge(apps, s, token, owner, a, now).0)
  {
    var o := Steps.Offers(s, s.challenges[token].action);
    var checked := Steps.Check(apps, s, owner, o, a, now);
    var after := Steps.AnswerChallenge(apps, s, token, owner, a, now);
    AnswerEffects(apps, s, token, owner, a, now);
    CheckKeeps(apps, s, owner, o, a, now);
    var logged := Log(checked.0, Answered(token, a.m, after.1, Steps.IsSecondFactor(o, a.m), now));
    LogKeeps(checked.0, logged);
    NoticesAreBeside(after.0.history, logged.history);
    AnswerKeepsFactors(apps, s, token, owner, a, now);
    SameKeeps(logged, after.0);
  }

  lemma AnswerKeepsFactors(apps: Totp.AppCodes, s: Account, token: Token, owner: Option<Token>, a: Steps.Answer,
                           now: Time)
    requires token in s.challenges
    ensures Steps.AnswerChallenge(apps, s, token, owner, a, now).0.factors
            == Steps.Check(apps, s, owner, Steps.Offers(s, s.challenges[token].action), a, now).0.factors
  {
    Steps.CheckKeepsChallenges(apps, s, owner, Steps.Offers(s, s.challenges[token].action), a, now);
  }

  lemma CompleteSignInKeeps(apps: Totp.AppCodes, s: Account, token: Token, a: Steps.Answer, next: Token, now: Time)
    requires Inv(s)
    ensures Inv(Steps.CompleteSignIn(apps, s, token, a, next, now).0)
  {
    if Steps.Find(s, token, None, now).Some? {
      AnswerKeeps(apps, s, token, None, a, now);
      LogKeeps(Steps.AnswerChallenge(apps, s, token, None, a, now).0,
               Steps.CompleteSignIn(apps, s, token, a, next, now).0);
    }
  }

  lemma StepUpKeeps(apps: Totp.AppCodes, s: Account, session: Session, token: Token, a: Steps.Answer, now: Time)
    requires Inv(s)
    ensures Inv(Steps.StepUp(apps, s, session, token, a, now).0)
  {
    if Steps.Find(s, token, Some(session.id), now).Some? {
      AnswerKeeps(apps, s, token, Some(session.id), a, now);
      if Steps.AnswerChallenge(apps, s, token, Some(session.id), a, now).1 {
        StepUpEffects(apps, s, session, token, a, now);
      }
      LogKeeps(Steps.AnswerChallenge(apps, s, token, Some(session.id), a, now).0,
               Steps.StepUp(apps, s, session, token, a, now).0);
    }
  }

  lemma SignInKeeps(s: Account, read: Secret, rehash: Option<Secret>, next: Token, now: Time)
    requires Inv(s)
    ensures Inv(Steps.FinishSignIn(s, read, rehash, next, now).0)
  {
    if s.secret == read {
      var kept := if rehash.Some? then Log(s.(secret := rehash.value), Stored(rehash.value, false)) else s;
      LogKeeps(s, kept);
      LogKeeps(kept, Steps.FinishSignIn(s, read, rehash, next, now).0);
    }
  }

  lemma ConfirmAppKeeps(apps: Totp.AppCodes, s: Account, session: Session, typed: string, id: nat, codes: set<string>,
                        now: Time)
    requires Inv(s) && !FactorSeen(s.history, id)
    ensures Inv(Steps.ConfirmApp(apps, s, session, typed, id, codes, now).0)
  {
    var after := Steps.ConfirmApp(apps, s, session, typed, id, codes, now).0;
    if after.history != s.history {
      var secret := s.enrolments[session.id].secret;
      var step := Totp.Match(apps, secret, typed, now, 0).value;
      var changed := Log(s, FactorsChanged(session, now));
      LogKeeps(s, changed);
      var accepted := Log(Steps.AddFactor(changed, AppFactor(id, secret, step)), AppAccepted(id, step, now));
      AddKeeps(changed, AppFactor(id, secret, step), accepted);
      LogKeeps(accepted, after);
    } else {
      LogKeeps(s, after);
    }
  }

  lemma ConfirmKeyKeeps(s: Account, session: Session, keyProves: bool, id: nat, codes: set<string>, now: Time)
    requires Inv(s) && !FactorSeen(s.history, id)
    ensures Inv(Steps.ConfirmKey(s, session, keyProves, id, codes, now).0)
  {
    var after := Steps.ConfirmKey(s, session, keyProves, id, codes, now).0;
    if after.history != s.history {
      var changed := Log(s, FactorsChanged(session, now));
      LogKeeps(s, changed);
      var added := Steps.AddFactor(changed, KeyFactor(id));
      AddKeeps(changed, KeyFactor(id), added);
      LogKeeps(added, after);
    } else {
      LogKeeps(s, after);
    }
  }

  lemma ConfirmEmailKeeps(s: Account, session: Session, typed: string, id: nat, now: Time)
    requires Inv(s) && !FactorSeen(s.history, id)
    ensures Inv(Steps.ConfirmEmail(s, session, typed, id, now).0)
  {
    var used := Steps.UseCode(s, EnrolCode, typed, now);
    var after := Steps.ConfirmEmail(s, session, typed, id, now);
    UseEffects(s, EnrolCode, typed, now);
    LogKeeps(s, used.0);
    if after.1 == Steps.Done {
      var changed := Log(used.0, FactorsChanged(session, now));
      LogKeeps(used.0, changed);
      UseKeepsFactorNames(s, used.0, id);
      AddKeeps(changed, EmailFactor(id), after.0);
    }
  }

  lemma UseKeepsFactorNames(s: Account, used: Account, id: nat)
    requires !FactorSeen(s.history, id)
    requires used.history == s.history
             || (used.history.Then? && used.history.past == s.history && used.history.last.Compared?)
    ensures !FactorSeen(used.history, id)
  {
  }

  lemma RemoveKeeps(s: Account, session: Session, id: nat, now: Time)
    requires Inv(s)
    ensures Inv(Steps.RemoveFactor(s, session, id, now).0)
  {
    WithoutKeeps(s.history, s.factors, id);
    var left := s.(factors := Steps.Without(s.factors, id));
    var after := Steps.RemoveFactor(s, session, id, now).0;
    if after != s {
      LogsKeep(left, FactorsChanged(session, now), FactorRemoved(id), after);
    }
  }

  lemma Kept(apps: Totp.AppCodes, s: Account, step: Step)
    requires Inv(s) && Enabled(s, step)
    ensures Inv(Apply(apps, s, step))
  {
    if IsSendStep(step) {
      SendStepEffects(apps, s, step);
      LogKeeps(s, Apply(apps, s, step));
    } else {
      match step
      case CompleteSignIn(token, a, next, now) => CompleteSignInKeeps(apps, s, token, a, next, now);
      case StepUp(session, token, a, now) => StepUpKeeps(apps, s, session, token, a, now);
      case ConfirmApp(session, typed, id, codes, now) => ConfirmAppKeeps(apps, s, session, typed, id, codes, now);
      case ConfirmKey(session, keyProves, id, codes, now) => ConfirmKeyKeeps(s, session, keyProves, id, codes, now);
      case ConfirmEmail(session, typed, id, now) => ConfirmEmailKeeps(s, session, typed, id, now);
      case RemoveFactor(session, id, now) => RemoveKeeps(s, session, id, now);
      case _ => OtherKeeps(apps, s, step);
    }
  }

  /** The steps that neither add, use nor remove a factor. */
  lemma OtherKeeps(apps: Totp.AppCodes, s: Account, step: Step)
    requires Inv(s)
    requires !IsSendStep(step) && !step.CompleteSignIn? && !step.StepUp? && !step.ConfirmApp? && !step.ConfirmKey?
             && !step.ConfirmEmail? && !step.RemoveFactor?
    ensures Inv(Apply(apps, s, step))
  {
    match step
    case SignIn(read, rehash, next, now) => SignInKeeps(s, read, rehash, next, now);
    case FinishChange(session, read, secret, next, now) =>
      LogsKeep(s, Stored(secret, true), Opened(next, ByChange(session)), Apply(apps, s, step));
    case Regenerate(session, codes, now) =>
      LogsKeep(s, FactorsChanged(session, now), RecoveryIssued(codes), Apply(apps, s, step));
    case _ => LogKeeps(s, Apply(apps, s, step));
  }

  // What it comes to.

  /** The steps accepted for an app between two moments, in order. */
  function AcceptedBetween(h: History, id: nat, from: Time, until: Time): seq<int> {
    if h.Nothing? then []
    else AcceptedBetween(h.past, id, from, until)
         + if h.last.AppAccepted? && h.last.id == id && from <= h.last.at <= until then [h.last.step] else []
  }

  lemma OneMoreStep(steps: seq<int>, step: int, low: int, high: int)
    requires Totp.Increasing(steps) && (steps != [] ==> steps[|steps| - 1] < step)
    requires low <= step <= high && forall i :: 0 <= i < |steps| ==> low <= steps[i] <= high
    ensures Totp.Increasing(steps + [step])
    ensures forall i :: 0 <= i < |steps| + 1 ==> low <= (steps + [step])[i] <= high
  {
    var more := steps + [step];
    forall i, j | 0 <= i < j < |more| ensures more[i] < more[j] {
      if j == |steps| && i < |steps| - 1 {
        assert steps[i] < steps[|steps| - 1];
      }
    }
  }

  lemma {:induction false} AcceptedIncrease(h: History, id: nat, from: Time, until: Time)
    requires AllFresh(h)
    ensures var steps := AcceptedBetween(h, id, from, until);
            && Totp.Increasing(steps)
            && (steps != [] ==> steps[|steps| - 1] <= LastStep(h, id))
            && forall i :: 0 <= i < |steps| ==> Totp.StepOf(from) - 1 <= steps[i] <= Totp.StepOf(until) + 1
  {
    if h.Then? {
      AcceptedIncrease(h.past, id, from, until);
      if h.last.AppAccepted? && h.last.id == id && from <= h.last.at <= until {
        var low, high := Totp.StepOf(from) - 1, Totp.StepOf(until) + 1;
        OneMoreStep(AcceptedBetween(h.past, id, from, until), h.last.step, low, high);
      }
    }
  }

  /** In any span of time an app's codes are accepted no more often than the span
      has steps, and three more for the drift at its two ends. */
  lemma AcceptancesAreBounded(s: Account, id: nat, from: Time, until: Time)
    requires Inv(s) && from <= until
    ensures Totp.Increasing(AcceptedBetween(s.history, id, from, until))
    ensures |AcceptedBetween(s.history, id, from, until)| <= Totp.StepOf(until) - Totp.StepOf(from) + 3
  {
    AcceptedIncrease(s.history, id, from, until);
    Totp.IncreasingIsShort(AcceptedBetween(s.history, id, from, until), Totp.StepOf(from) - 1, Totp.StepOf(until) + 1);
  }
}
