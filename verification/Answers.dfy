/** Which answers are right, said of the account and of what was typed, and what a
    right one opens or marks (internal/identity/challenge.go, stepup.go, failures.go). */
module Answers {
  import opened Base
  import opened Bytes
  import opened Policy
  import opened Rows
  import opened Runs
  import CodeSafety
  import RecoveryCode
  import SessionSafety
  import Steps
  import Totp

  ghost predicate Holds(s: Account, m: Method) { exists id: nat :: SessionSafety.Held(s.history, id, m) }

  /** A typed text is what an app shows at a step it was not used for, nor after, within
      one step of now. */
  predicate AppFits(apps: Totp.AppCodes, f: Factor, typed: string, now: Time, step: nat) {
    f.AppFactor? && f.lastStep < step
    && now / 30_000_000_000 - 1 <= step <= now / 30_000_000_000 + 1
    && StripSpaces(typed) == apps(f.secret, step)
  }

  ghost predicate SomeAppFits(apps: Totp.AppCodes, s: Account, typed: string, now: Time) {
    exists f: Factor, step: nat :: f in s.factors && AppFits(apps, f, typed, now, step)
  }

  /** A typed text is a mailed code that is neither spent nor old nor tried out. */
  predicate CodeFits(row: CodeRow, purpose: Purpose, typed: string, now: Time) {
    row.purpose == purpose && row.used.None? && now < row.created + 10 * MINUTE && row.attempts < 5
    && StripSpaces(typed) == row.code && |row.code| == 6 && AllDigits(row.code)
  }

  ghost predicate SomeCodeFits(s: Account, purpose: Purpose, typed: string, now: Time) {
    exists i :: 0 <= i < |s.codes| && CodeFits(s.codes[i], purpose, typed, now)
  }

  /** A typed text is one of the account's recovery codes, not yet used, in any
      spelling. */
  predicate RecoveryFits(s: Account, code: string, typed: string) {
    code in s.recovery && s.recovery[code].None? && |code| == 12 && RecoveryCode.Spells(typed, code)
  }

  ghost predicate SomeRecoveryFits(s: Account, typed: string) { exists code :: RecoveryFits(s, code, typed) }

  /** Whether an answer is right, for codes of a purpose, where a code to the account's
      mere address answers or not. */
  ghost predicate Fits(apps: Totp.AppCodes, s: Account, purpose: Purpose, address: bool, a: Steps.Answer, now: Time) {
    match a.m
    case Key => s.kind != UnknownKind && Holds(s, Key) && a.keyProves
    case App => s.kind != UnknownKind && s.failures < 100 && SomeAppFits(apps, s, a.typed, now)
    case Email =>
      (s.kind == Buyer || s.kind == Store) && s.failures < 100 && (Holds(s, Email) || address)
      && SomeCodeFits(s, purpose, a.typed, now)
    case Recovery => SomeRecoveryFits(s, a.typed)
    case UnknownMethod => false
  }

  lemma HasIsHolds(s: Account, m: Method)
    requires SessionSafety.Inv(s)
    ensures Steps.Has(s.factors, m) <==> Holds(s, m)
  {
    if Steps.Has(s.factors, m) {
      var id := SessionSafety.HasIsHeld(s, m);
    }
    if id: nat :| SessionSafety.Held(s.history, id, m) {
      assert SessionSafety.HasFactor(s.factors, id, m);
      var i :| 0 <= i < |s.factors| && s.factors[i].id == id && MethodOf(s.factors[i]) == m;
      assert s.factors[i] in s.factors;
    }
  }

  // Apps.

  lemma {:induction false} FittingIsFound(apps: Totp.AppCodes, factors: seq<Factor>, i: nat, typed: string, now: Time,
                                          k: nat, step: nat)
    requires i <= k < |factors| && AppFits(apps, factors[k], typed, now, step)
    ensures Steps.FindAppFrom(apps, factors, i, typed, now).Some?
    decreases k - i
  {
    if i < k {
      FittingIsFound(apps, factors, i + 1, typed, now, k, step);
    } else {
      assert Totp.IsCodeOf(apps, factors[k].secret, StripSpaces(typed), factors[k].lastStep, step);
    }
  }

  lemma {:induction false} FoundFits(apps: Totp.AppCodes, factors: seq<Factor>, i: nat, typed: string, now: Time)
    requires i <= |factors| && Steps.FindAppFrom(apps, factors, i, typed, now).Some?
    ensures var found := Steps.FindAppFrom(apps, factors, i, typed, now).value;
            AppFits(apps, factors[found.0], typed, now, found.1)
    decreases |factors| - i
  {
    var step := if factors[i].AppFactor? then Totp.Match(apps, factors[i].secret, typed, now, factors[i].lastStep)
                else None;
    if step.None? {
      FoundFits(apps, factors, i + 1, typed, now);
    }
  }

  lemma AppIsExact(apps: Totp.AppCodes, s: Account, typed: string, now: Time)
    ensures Steps.CheckApp(apps, s, typed, now).1 <==> SomeAppFits(apps, s, typed, now)
    ensures SomeAppFits(apps, s, typed, now) ==> Steps.Has(s.factors, App)
  {
    if Steps.FindApp(apps, s.factors, typed, now).Some? {
      FoundFits(apps, s.factors, 0, typed, now);
      var found := Steps.FindApp(apps, s.factors, typed, now).value;
      assert s.factors[found.0] in s.factors;
    }
    if f: Factor, step: nat :| f in s.factors && AppFits(apps, f, typed, now, step) {
      var k :| 0 <= k < |s.factors| && s.factors[k] == f;
      FittingIsFound(apps, s.factors, 0, typed, now, k, step);
    }
  }

  // Codes by e-mail.

  lemma CodeIsExact(s: Account, purpose: Purpose, typed: string, now: Time)
    requires CodeSafety.Inv(s)
    ensures Steps.UseCode(s, purpose, typed, now).1 <==> SomeCodeFits(s, purpose, typed, now)
  {
    var found := Steps.FindCode(s.codes, purpose, now);
    if i :| 0 <= i < |s.codes| && CodeFits(s.codes[i], purpose, typed, now) {
      assert CodeSafety.RowTells(s.history, s.codes[i]);
      assert Steps.LiveCode(s.codes[i], purpose, now);
      CodeSafety.OneUnspentPerPurpose(s, i, found.value);
    }
    if Steps.UseCode(s, purpose, typed, now).1 {
      assert CodeSafety.RowTells(s.history, s.codes[found.value]);
      assert CodeFits(s.codes[found.value], purpose, typed, now);
    }
  }

  // Recovery codes.

  lemma RecoveryIsExact(s: Account, typed: string, now: Time)
    ensures Steps.UseRecovery(s, typed, now).1 <==> SomeRecoveryFits(s, typed)
  {
    var read := RecoveryCode.Canonical(typed);
    if read.Some? {
      RecoveryCode.ReadExactly(typed, read.value);
      if Steps.UseRecovery(s, typed, now).1 {
        assert RecoveryFits(s, read.value, typed);
      }
    }
    if code :| RecoveryFits(s, code, typed) {
      RecoveryCode.ReadExactly(typed, code);
    }
  }

  // What a challenge accepts.

  /** Whether an action is answered by a code to the account's mere address. */
  predicate ByAddress(action: Option<Action>) {
    action.Some? && action.value != Password && action.value != Factors
  }

  lemma OffersAre(s: Account, action: Option<Action>, m: Method)
    requires SessionSafety.Inv(s)
    ensures m in Steps.Offers(s, action).methods
       <==> (m == Key && s.kind != UnknownKind && Holds(s, Key))
            || (m == App && s.kind != UnknownKind && s.failures < 100 && Holds(s, App))
            || (m == Email && (s.kind == Buyer || s.kind == Store) && s.failures < 100
                && (Holds(s, Email) || ByAddress(action)))
  {
    HasIsHolds(s, m);
  }

  /** The answers that are right are those that fit. */
  lemma RightIsFitting(apps: Totp.AppCodes, s: Account, owner: Option<Token>, action: Option<Action>, a: Steps.Answer,
                       now: Time)
    requires SessionSafety.Inv(s) && CodeSafety.Inv(s)
    ensures Steps.Check(apps, s, owner, Steps.Offers(s, action), a, now).1
       <==> Fits(apps, s, Steps.PurposeOf(owner), ByAddress(action), a, now)
  {
    OffersAre(s, action, a.m);
    match a.m
    case App =>
      AppIsExact(apps, s, a.typed, now);
      HasIsHolds(s, App);
    case Email => CodeIsExact(s, Steps.PurposeOf(owner), a.typed, now);
    case Recovery => RecoveryIsExact(s, a.typed, now);
    case _ =>
  }

  // Signing in.

  /** A challenge that a sign-in opened and that can still be answered. */
  predicate OpenSignIn(s: Account, token: Token, now: Time) {
    token in s.challenges
    && var ch := s.challenges[token];
       ch.session.None? && ch.action.None? && ch.used.None? && ch.attempts < 5 && now < ch.expires
  }

  lemma SignInIsExact(apps: Totp.AppCodes, s: Account, token: Token, a: Steps.Answer, next: Token, now: Time)
    requires SessionSafety.Inv(s) && CodeSafety.Inv(s) && OpenSignIn(s, token, now)
    ensures Steps.CompleteSignIn(apps, s, token, a, next, now).1 == Steps.Done
       <==> Fits(apps, s, SignInCode, false, a, now)
  {
    RightIsFitting(apps, s, None, None, a, now);
  }

  /** The session it opens authenticates every request for thirty days of not being
      seen, and is stepped up from the start. */
  lemma SignInOpens(apps: Totp.AppCodes, s: Account, token: Token, a: Steps.Answer, next: Token, now: Time, later: Time)
    requires OpenSignIn(s, token, now) && Steps.CompleteSignIn(apps, s, token, a, next, now).1 == Steps.Done
    requires now <= later <= now + 30 * DAY
    ensures var after := Steps.CompleteSignIn(apps, s, token, a, next, now).0;
            && Steps.SessionOf(after, next, later) == Some(Session(next, after.factors != [], Some(now), None))
            && after.sessions == s.sessions[next := SessionRow(now, now, None, Some(now), None)]
  {
    AnswerEffects(apps, s, token, None, a, now);
  }

  // Stepping up.

  /** A challenge that a session opened for an action and that can still be answered. */
  predicate OpenStepUp(s: Account, token: Token, session: Token, now: Time) {
    token in s.challenges
    && var ch := s.challenges[token];
       ch.session == Some(session) && ch.used.None? && ch.attempts < 5 && now < ch.expires
  }

  lemma StepUpIsExact(apps: Totp.AppCodes, s: Account, session: Session, token: Token, a: Steps.Answer, now: Time)
    requires SessionSafety.Inv(s) && CodeSafety.Inv(s) && OpenStepUp(s, token, session.id, now)
    ensures Steps.StepUp(apps, s, session, token, a, now).1 == Steps.Done
       <==> Fits(apps, s, StepUpCode, ByAddress(s.challenges[token].action), a, now)
  {
    RightIsFitting(apps, s, Some(session.id), s.challenges[token].action, a, now);
  }

  /** Whether a right answer with a method proves a second factor. */
  ghost predicate ProvesFactor(s: Account, m: Method) { m != Email || Holds(s, Email) }

  /** A right answer marks its session with what it proved, and no other. */
  lemma StepUpMarks(apps: Totp.AppCodes, s: Account, session: Session, token: Token, a: Steps.Answer, now: Time)
    requires SessionSafety.Inv(s) && session.id in s.sessions
    requires Steps.StepUp(apps, s, session, token, a, now).1 == Steps.Done
    ensures var row := s.sessions[session.id];
            Steps.StepUp(apps, s, session, token, a, now).0.sessions
            == s.sessions[session.id := if ProvesFactor(s, a.m) then row.(steppedUp := Some(now))
                                        else row.(emailConfirmed := Some(now))]
  {
    AnswerEffects(apps, s, token, Some(session.id), a, now);
    HasIsHolds(s, Email);
    var answered := Steps.AnswerChallenge(apps, s, token, Some(session.id), a, now).0;
    assert Email in Steps.MethodsOf(answered) <==> Email in Steps.MethodsOf(s);
  }

  /** Whether a request that a session still opens within ten minutes passes the gates
      that an answer with m opens: every one when it proved a factor, else those that
      take an address. */
  ghost predicate Admits(s: Account, after: Account, token: Token, m: Method, now: Time, later: Time, action: Action) {
    Steps.SessionOf(s, token, later).Some? && now <= later < now + 10 * MINUTE
    && (ProvesFactor(s, m) || (ByAddress(Some(action)) && (s.kind == Buyer || s.kind == Store)))
    ==> var request := Steps.SessionOf(after, token, later);
        request.Some? && !NeedsStepUp(s.kind, request.value, action, later)
  }

  lemma StepUpOpensTheGate(apps: Totp.AppCodes, s: Account, session: Session, token: Token, a: Steps.Answer, now: Time,
                           later: Time, action: Action)
    requires SessionSafety.Inv(s) && Steps.StepUp(apps, s, session, token, a, now).1 == Steps.Done
    ensures Admits(s, Steps.StepUp(apps, s, session, token, a, now).0, session.id, a.m, now, later, action)
  {
    if session.id in s.sessions {
      StepUpMarks(apps, s, session, token, a, now);
    }
  }
}
