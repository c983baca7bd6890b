/** Recovery codes and second factors live and die together, over every
    interleaving of confirming, removing, regenerating and answering
    (internal/identity/factors.go, factorstore.go, challengestore.go). */
module RecoverySafety {
  import opened Base
  import opened Policy
  import opened Rows
  import opened Runs
  import Steps
  import Totp
  import RecoveryCode

  /** How often a recovery code was accepted. */
  function Uses(h: History, code: string): nat {
    if h.Nothing? then 0
    else Uses(h.past, code) + if h.last.RecoveryAccepted? && h.last.code == code then 1 else 0
  }

  /** Whether the account ever confirmed a factor. */
  predicate EverHeld(h: History) { h.Then? && (h.last.FactorAdded? || EverHeld(h.past)) }

  ghost predicate RowTells(s: Account, code: string)
    requires code in s.recovery
  {
    RecoverySeen(s.history, code) && (s.recovery[code].None? ==> Uses(s.history, code) == 0)
  }

  /** A code is accepted at most once, and only if it was issued. */
  predicate UsedOnce(h: History, code: string) {
    Uses(h, code) <= 1 && (!RecoverySeen(h, code) ==> Uses(h, code) == 0)
  }

  ghost predicate Inv(s: Account) {
    && (s.factors == [] ==> s.recovery == map[])
    && (s.recovery == map[] || |s.recovery| == RecoveryCode.COUNT)
    && (forall code :: code in s.recovery ==> RowTells(s, code))
    && (forall code: string :: UsedOnce(s.history, code))
    && (Required(s.kind) && EverHeld(s.history) ==> s.factors != [])
    && (Required(s.kind) ==> !Steps.Has(s.factors, Email))
  }

  lemma CreatedIsSafe(kind: Kind, secret: Secret)
    ensures Inv(Created(kind, secret))
  {
    assert !EverHeld(Nothing);
    forall code: string ensures UsedOnce(Created(kind, secret).history, code) {
      assert Uses(Nothing, code) == 0;
    }
  }

  predicate Beside(e: Event) { !e.RecoveryAccepted? && !e.RecoveryIssued? && !e.FactorAdded? }

  ghost predicate SameRecovery(later: History, h: History) {
    && (forall code: string :: Uses(later, code) == Uses(h, code) && RecoverySeen(later, code) == RecoverySeen(h, code))
    && EverHeld(later) == EverHeld(h)
  }

  lemma {:induction false} NoticesAreBeside(later: History, h: History)
    requires Only(later, h, Notifying)
    ensures SameRecovery(later, h)
  {
    if later != h {
      NoticesAreBeside(later.past, h);
    }
  }

  ghost predicate SameMethods(later: Account, s: Account) {
    && later.kind == s.kind
    && (later.factors == [] <==> s.factors == [])
    && (forall m :: Steps.Has(later.factors, m) <==> Steps.Has(s.factors, m))
  }

  lemma SameKeeps(s: Account, later: Account)
    requires Inv(s) && later.recovery == s.recovery && SameMethods(later, s) && SameRecovery(later.history, s.history)
    ensures Inv(later)
  {
    forall code | code in later.recovery ensures RowTells(later, code) {
      assert RowTells(s, code);
    }
    forall code: string ensures UsedOnce(later.history, code) {
      assert UsedOnce(s.history, code);
    }
  }

  lemma LogKeeps(s: Account, later: Account)
    requires Inv(s) && later.recovery == s.recovery && SameMethods(later, s)
    requires later.history == s.history
          || (later.history.Then? && later.history.past == s.history && Beside(later.history.last))
    ensures Inv(later)
  {
    SameKeeps(s, later);
  }

  lemma UseRecoveryKeeps(s: Account, typed: string, now: Time)
    requires Inv(s)
    ensures Inv(Steps.UseRecovery(s, typed, now).0)
  {
    var used := Steps.UseRecovery(s, typed, now);
    if used.1 {
      var code := RecoveryCode.Canonical(typed).value;
      assert RowTells(s, code);
      var later := used.0;
      assert later.recovery.Keys == s.recovery.Keys;
      assert |later.recovery| == |later.recovery.Keys| == |s.recovery.Keys| == |s.recovery|;
      forall c | c in later.recovery ensures RowTells(later, c) {
        assert RowTells(s, c);
      }
      forall c: string ensures UsedOnce(later.history, c) {
        assert UsedOnce(s.history, c);
      }
    }
  }

  /** A fresh set of ten, in place of whatever was there. */
  lemma ReplaceKeeps(s: Account, codes: set<string>)
    requires Inv(s) && s.factors != [] && NewSet(s.history, codes)
    ensures Inv(Steps.ReplaceRecovery(s, codes))
  {
    var later := Steps.ReplaceRecovery(s, codes);
    assert later.recovery.Keys == codes;
    assert |later.recovery| == |later.recovery.Keys|;
    forall code: string ensures UsedOnce(later.history, code) {
      assert UsedOnce(s.history, code);
    }
    forall code | code in later.recovery ensures RowTells(later, code) {
      assert UsedOnce(s.history, code);
    }
  }

  lemma FirstSetKeeps(s: Account, codes: set<string>)
    requires Inv(s) && s.factors != [] && NewSet(s.history, codes)
    ensures Inv(Steps.FirstSet(s, codes).0)
  {
    if s.recovery == map[] {
      ReplaceKeeps(s, codes);
    }
  }

  lemma AddKeeps(s: Account, f: Factor)
    requires Inv(s) && Permits(s.kind, MethodOf(f), Enrol)
    ensures Inv(Steps.AddFactor(s, f)) && Steps.AddFactor(s, f).factors != []
  {
    var later := Steps.AddFactor(s, f);
    assert later.factors[|s.factors|] == f;
    forall code | code in later.recovery ensures RowTells(later, code) {
      assert RowTells(s, code);
    }
    forall code: string ensures UsedOnce(later.history, code) {
      assert UsedOnce(s.history, code);
    }
    OneMoreMethod(s.factors, f);
  }

  lemma OneMoreMethod(factors: seq<Factor>, f: Factor)
    ensures forall m :: Steps.Has(factors + [f], m) ==> Steps.Has(factors, m) || m == MethodOf(f)
  {
  }

  lemma CheckKeeps(apps: Totp.AppCodes, s: Account, owner: Option<Token>, o: Steps.Offer, a: Steps.Answer, now: Time)
    requires Inv(s)
    ensures Inv(Steps.Check(apps, s, owner, o, a, now).0)
  {
    var after := Steps.Check(apps, s, owner, o, a, now).0;
    if after == s {
    } else if a.m == Recovery {
      UseRecoveryKeeps(s, a.typed, now);
    } else if a.m == App {
      AppEffects(apps, s, a.typed, now);
      HasIsMember(s, after);
      LogKeeps(s, after);
    } else {
      UseEffects(s, Steps.PurposeOf(owner), a.typed, now);
      LogKeeps(s, after);
    }
  }

  lemma HasIsMember(s: Account, later: Account)
    requires Steps.MethodsOf(s) == Steps.MethodsOf(later)
    ensures forall m :: Steps.Has(later.factors, m) <==> Steps.Has(s.factors, m)
  {
    forall m ensures Steps.Has(later.factors, m) <==> Steps.Has(s.factors, m) {
      assert m in Steps.MethodsOf(s) <==> m in Steps.MethodsOf(later);
    }
  }

  lemma AnswerKeeps(apps: Totp.AppCodes, s: Account, token: Token, owner: Option<Token>, a: Steps.Answer, now: Time)
    requires Inv(s) && token in s.challenges
    ensures Inv(Steps.AnswerChallenge(apps, s, token, owner, a, now).0)
  {
    var o := Steps.Offers(s, s.challenges[token].action);
    var checked := Steps.Check(apps, s, owner, o, a, now);
    var after := Steps.AnswerChallenge(apps, s, token, owner, a, now);
    AnswerEffects(apps, s, token, owner, a, now);
    CheckKeeps(apps, s, owner, o, a, now);
    var logged := Log(checked.0, Answered(token, a.m, after.1, Steps.IsSecondFactor(o, a.m), now));
    LogKeeps(checked.0, logged);
    NoticesAreBeside(after.0.history, logged.history);
    AnswerKeepsRows(apps, s, token, owner, a, now);
    SameKeeps(logged, after.0);
  }

  lemma AnswerKeepsRows(apps: Totp.AppCodes, s: Account, token: Token, owner: Option<Token>, a: Steps.Answer, now: Time)
    requires token in s.challenges
    ensures var after := Steps.AnswerChallenge(apps, s, token, owner, a, now).0;
            var checked := Steps.Check(apps, s, owner, Steps.Offers(s, s.challenges[token].action), a, now).0;
            after.kind == checked.kind && after.factors == checked.factors && after.recovery == checked.recovery
  {
    Steps.CheckKeepsChallenges(apps, s, owner, Steps.Offers(s, s.challenges[token].action), a, now);
  }

  lemma CompleteSignInKeeps(apps: Totp.AppCodes, s: Account, token: Token, a: Steps.Answer, next: Token, now: Time)
    requires Inv(s)
    ensures Inv(Steps.CompleteSignIn(apps, s, token, a, next, now).0)
  {
    if Steps.Find(s, token, None, now).Some? {
      AnswerKeeps(apps, s, token, None, a, now);
      LogKeeps(Steps.AnswerChallenge(apps, s, token, None, a, now).0,
               Steps.CompleteSignIn(apps, s, token, a, next, now).0);
    }
  }

  lemma StepUpKeeps(apps: Totp.AppCodes, s: Account, session: Session, token: Token, a: Steps.Answer, now: Time)
    requires Inv(s)
    ensures Inv(Steps.StepUp(apps, s, session, token, a, now).0)
  {
    if Steps.Find(s, token, Some(session.id), now).Some? {
      AnswerKeeps(apps, s, token, Some(session.id), a, now);
      if Steps.AnswerChallenge(apps, s, token, Some(session.id), a, now).1 {
        StepUpEffects(apps, s, session, token, a, now);
      }
      LogKeeps(Steps.AnswerChallenge(apps, s, token, Some(session.id), a, now).0,
               Steps.StepUp(apps, s, session, token, a, now).0);
    }
  }

  lemma SignInKeeps(s: Account, read: Secret, rehash: Option<Secret>, next: Token, now: Time)
    requires Inv(s)
    ensures Inv(Steps.FinishSignIn(s, read, rehash, next, now).0)
  {
    if s.secret == read {
      var kept := if rehash.Some? then Log(s.(secret := rehash.value), Stored(rehash.value, false)) else s;
      LogKeeps(s, kept);
      LogKeeps(kept, Steps.FinishSignIn(s, read, rehash, next, now).0);
    }
  }

  lemma FinishChangeKeeps(s: Account, session: Session, read: Secret, secret: Secret, next: Token, now: Time)
    requires Inv(s)
    ensures Inv(Steps.FinishChange(s, session, read, secret, next, now).0)
  {
    if s.secret == read {
      var changed := Log(s, Stored(secret, true));
      LogKeeps(s, changed);
      LogKeeps(changed, Steps.FinishChange(s, session, read, secret, next, now).0);
    }
  }

  lemma ConfirmAppKeeps(apps: Totp.AppCodes, s: Account, session: Session, typed: string, id: nat, codes: set<string>,
                        now: Time)
    requires Inv(s) && NewSet(s.history, codes)
    ensures Inv(Steps.ConfirmApp(apps, s, session, typed, id, codes, now).0)
  {
    var after := Steps.ConfirmApp(apps, s, session, typed, id, codes, now).0;
    if after.history != s.history {
      var secret := s.enrolments[session.id].secret;
      var step := Totp.Match(apps, secret, typed, now, 0).value;
      var changed := Log(s, FactorsChanged(session, now));
      LogKeeps(s, changed);
      var added := Steps.AddFactor(changed, AppFactor(id, secret, step));
      AddKeeps(changed, AppFactor(id, secret, step));
      var accepted := Log(added, AppAccepted(id, step, now));
      var dropped := accepted.(enrolments := accepted.enrolments - {session.id});
      LogKeeps(added, dropped);
      SeenBefore(s.history, changed.history, added.history, dropped.history, codes);
      FirstSetKeeps(dropped, codes);
    }
  }

  /** Events beside the recovery codes leave a new set new. */
  lemma SeenBefore(h: History, a: History, b: History, c: History, codes: set<string>)
    requires NewSet(h, codes)
    requires a.Then? && a.past == h && !a.last.RecoveryIssued?
    requires b.Then? && b.past == a && !b.last.RecoveryIssued?
    requires c == b || (c.Then? && c.past == b && !c.last.RecoveryIssued?)
    ensures NewSet(c, codes) && NewSet(a, codes)
  {
    assert forall code :: code in codes ==> !RecoverySeen(a, code) && !RecoverySeen(b, code);
  }

  lemma ConfirmKeyKeeps(s: Account, session: Session, keyProves: bool, id: nat, codes: set<string>, now: Time)
    requires Inv(s) && NewSet(s.history, codes)
    ensures Inv(Steps.ConfirmKey(s, session, keyProves, id, codes, now).0)
  {
    var after := Steps.ConfirmKey(s, session, keyProves, id, codes, now).0;
    if after.history != s.history {
      var changed := Log(s, FactorsChanged(session, now));
      LogKeeps(s, changed);
      var added := Steps.AddFactor(changed, KeyFactor(id));
      AddKeeps(changed, KeyFactor(id));
      var dropped := added.(enrolments := added.enrolments - {session.id});
      LogKeeps(added, dropped);
      SeenBefore(s.history, changed.history, added.history, dropped.history, codes);
      FirstSetKeeps(dropped, codes);
    }
  }

  lemma ConfirmEmailKeeps(s: Account, session: Session, typed: string, id: nat, now: Time)
    requires Inv(s)
    ensures Inv(Steps.ConfirmEmail(s, session, typed, id, now).0)
  {
    var used := Steps.UseCode(s, EnrolCode, typed, now);
    var after := Steps.ConfirmEmail(s, session, typed, id, now);
    UseEffects(s, EnrolCode, typed, now);
    LogKeeps(s, used.0);
    if after.1 == Steps.Done {
      var changed := Log(used.0, FactorsChanged(session, now));
      LogKeeps(used.0, changed);
      AddKeeps(changed, EmailFactor(id));
    }
  }

  lemma RemoveKeeps(s: Account, session: Session, id: nat, now: Time)
    requires Inv(s)
    ensures Inv(Steps.RemoveFactor(s, session, id, now).0)
  {
    var after := Steps.RemoveFactor(s, session, id, now);
    if after.1 == Steps.Done {
      var h := Then(s.history, FactorsChanged(session, now));
      assert SameRecovery(h, s.history);
      assert SameRecovery(after.0.history, h);
      RowsStillTell(s, after.0);
      assert forall f :: f in after.0.factors ==> f in s.factors;
      FewerFactorsFewerMethods(after.0.factors, s.factors);
    }
  }

  /** A history that goes on without any of the codes, and rows that stay or go. */
  lemma RowsStillTell(s: Account, later: Account)
    requires Inv(s) && later.recovery in {s.recovery, map[]}
    requires later.history.Then? && later.history.past.Then? && later.history.past.past == s.history
    requires SameRecovery(later.history, later.history.past) && SameRecovery(later.history.past, s.history)
    ensures forall code :: code in later.recovery ==> RowTells(later, code)
    ensures forall code: string :: UsedOnce(later.history, code)
  {
    forall code | code in later.recovery ensures RowTells(later, code) {
      assert RowTells(s, code);
    }
    forall code: string ensures UsedOnce(later.history, code) {
      assert UsedOnce(s.history, code);
    }
  }

  lemma FewerFactorsFewerMethods(left: seq<Factor>, factors: seq<Factor>)
    requires forall f :: f in left ==> f in factors
    ensures forall m :: Steps.Has(left, m) ==> Steps.Has(factors, m)
  {
  }

  lemma RegenerateKeeps(s: Account, session: Session, codes: set<string>, now: Time)
    requires Inv(s) && NewSet(s.history, codes)
    ensures Inv(Steps.Regenerate(s, session, codes, now).0)
  {
    if Steps.Regenerate(s, session, codes, now).1 == Steps.CodesShown {
      var changed := Log(s, FactorsChanged(session, now));
      LogKeeps(s, changed);
      assert forall code :: code in codes ==> !RecoverySeen(changed.history, code);
      ReplaceKeeps(changed, codes);
    }
  }

  lemma Kept(apps: Totp.AppCodes, s: Account, step: Step)
    requires Inv(s) && Enabled(s, step)
    ensures Inv(Apply(apps, s, step))
  {
    if IsSendStep(step) {
      SendStepEffects(apps, s, step);
      LogKeeps(s, Apply(apps, s, step));
    } else {
      match step
      case SignIn(read, rehash, next, now) => SignInKeeps(s, read, rehash, next, now);
      case FinishChange(session, read, secret, next, now) => FinishChangeKeeps(s, session, read, secret, next, now);
      case CompleteSignIn(token, a, next, now) => CompleteSignInKeeps(apps, s, token, a, next, now);
      case StepUp(session, token, a, now) => StepUpKeeps(apps, s, session, token, a, now);
      case ConfirmApp(session, typed, id, codes, now) => ConfirmAppKeeps(apps, s, session, typed, id, codes, now);
      case ConfirmKey(session, keyProves, id, codes, now) => ConfirmKeyKeeps(s, session, keyProves, id, codes, now);
      case ConfirmEmail(session, typed, id, now) => ConfirmEmailKeeps(s, session, typed, id, now);
      case RemoveFactor(session, id, now) => RemoveKeeps(s, session, id, now);
      case Regenerate(session, codes, now) => RegenerateKeeps(s, session, codes, now);
      case _ => OtherKeeps(apps, s, step);
    }
  }

  /** The steps that touch neither factors nor recovery codes. */
  lemma OtherKeeps(apps: Totp.AppCodes, s: Account, step: Step)
    requires Inv(s)
    requires step.Authenticate? || step.ReadPassword? || step.BeginStepUp? || step.BeginChange? || step.End?
             || step.BeginApp? || step.BeginKey?
    ensures Inv(Apply(apps, s, step))
  {
    SameFactorsKeep(s, Apply(apps, s, step));
  }

  /** Rows that keep their factors and recovery codes, with one more event or
      none. */
  lemma SameFactorsKeep(s: Account, later: Account)
    requires Inv(s) && later.kind == s.kind && later.factors == s.factors && later.recovery == s.recovery
    requires later.history == s.history
          || (later.history.Then? && later.history.past == s.history && Beside(later.history.last))
    ensures Inv(later)
  {
    LogKeeps(s, later);
  }

  /** A set that was replaced stops working: none of the codes issued before it is
      accepted any more. */
  lemma OldCodesStop(s: Account, session: Session, codes: set<string>, now: Time, typed: string)
    requires Inv(s) && NewSet(s.history, codes)
    requires Steps.Regenerate(s, session, codes, now).1 == Steps.CodesShown
    requires RecoveryCode.Canonical(typed).Some? && RecoverySeen(s.history, RecoveryCode.Canonical(typed).value)
    ensures var after := Steps.Regenerate(s, session, codes, now).0;
            Steps.UseRecovery(after, typed, now) == (after, false)
  {
    assert RecoveryCode.Canonical(typed).value !in codes;
  }
}
