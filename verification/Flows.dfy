/** What each flow answers and leaves, exactly, said of the account and the request
    alone (internal/identity/identity.go, stepup.go, challenge.go, factors.go). */
module Flows {
  import opened Base
  import opened Bytes
  import opened Policy
  import opened Rows
  import opened Runs
  import opened Answers
  import CodeSafety
  import RecoveryCode
  import SendingSafety
  import SessionSafety
  import Steps
  import Totp

  ghost predicate HoldsSome(s: Account) { exists m: Method :: Holds(s, m) }

  lemma FactorsAreHeld(s: Account)
    requires SessionSafety.Inv(s)
    ensures s.factors != [] <==> HoldsSome(s)
  {
    if s.factors != [] {
      assert s.factors[0] in s.factors;
      HasIsHolds(s, MethodOf(s.factors[0]));
    }
    if m: Method :| Holds(s, m) {
      HasIsHolds(s, m);
    }
  }

  // Sessions.

  /** A token that opened a request opens every later one for thirty days but an hour,
      and none once thirty days went by, nor ninety from when it was made; and no
      other session noticed. */
  lemma SeenIsKept(s: Account, token: Token, now: Time, later: Time, other: Token)
    requires Steps.Authenticate(s, token, now).1.Some? && s.sessions[token].seen <= now <= later
    ensures var after, row := Steps.Authenticate(s, token, now).0, s.sessions[token];
            && (later <= now + 30 * DAY - HOUR && later <= row.created + 90 * DAY
                ==> Steps.SessionOf(after, token, later) == Steps.Authenticate(s, token, now).1)
            && (later > now + 30 * DAY || later > row.created + 90 * DAY
                ==> Steps.SessionOf(after, token, later).None?)
            && (other != token ==> Steps.SessionOf(after, other, later) == Steps.SessionOf(s, other, later))
  {
  }

  /** A session that was ended opens nothing any more, and every other what it did. */
  lemma EndIsExact(s: Account, token: Token, now: Time, other: Token, later: Time)
    ensures Steps.SessionOf(Steps.Revoke(s, token, now), other, later)
            == if other == token then None else Steps.SessionOf(s, other, later)
  {
  }

  // Passwords.

  /** A challenge that is opened leaves every other that can be answered as it was, and
      only those. */
  ghost predicate OthersStay(s: Account, after: Account, next: Token, now: Time) {
    forall t :: t != next ==>
      && (t in after.challenges <==> t in s.challenges && s.challenges[t].used.None? && now < s.challenges[t].expires)
      && (t in after.challenges ==> after.challenges[t] == s.challenges[t])
  }

  /** The password alone signs in exactly where no factor is held: to a session that
      proved nothing more. Elsewhere it opens a challenge that a second step answers
      for five minutes. A hash made anew is stored either way. */
  lemma SignInWithThePassword(s: Account, rehash: Option<Secret>, next: Token, now: Time, later: Time)
    requires SessionSafety.Inv(s) && now <= later
    ensures var (after, reply) := Steps.FinishSignIn(s, s.secret, rehash, next, now);
            && (reply == Steps.Done <==> !HoldsSome(s))
            && (reply == Steps.SecondStep <==> HoldsSome(s))
            && after.secret == (if rehash.Some? then rehash.value else s.secret)
            && (reply == Steps.Done && later <= now + 30 * DAY
                ==> Steps.SessionOf(after, next, later) == Some(Session(next, false, None, None)))
            && (reply == Steps.Done
                ==> after.sessions == s.sessions[next := SessionRow(now, now, None, None, None)]
                    && after.challenges == s.challenges)
            && (reply == Steps.SecondStep
                ==> && after.sessions == s.sessions && OthersStay(s, after, next, now)
                    && (OpenSignIn(after, next, later) <==> later < now + 5 * MINUTE))
  {
    FactorsAreHeld(s);
  }

  /** Whether a request may change the password and the factors. */
  predicate MayChange(s: Account, session: Session, now: Time) {
    (session.steppedUp.Some? && now < session.steppedUp.value + 10 * MINUTE)
    || (s.kind != UnknownKind && !session.secondFactor)
  }

  lemma ChangeMayBegin(s: Account, session: Session, now: Time)
    ensures var (after, reply) := Steps.BeginChange(s, session, now);
            && reply == (if MayChange(s, session, now) then Steps.Done else Steps.StepUpNeeded)
            && (reply == Steps.Done ==> Happened(after.history, ChangeBegun(session, s.secret, now)))
            && after == s.(history := after.history)
  {
  }

  /** A changed password leaves one session open: the one it makes, with no more proved
      than the request had. No sign-in goes on, every step-up stays, and the run of
      failures is over. */
  lemma ChangeLeavesOneSession(s: Account, session: Session, read: Secret, secret: Secret, next: Token, now: Time,
                               token: Token, later: Time)
    requires now <= later <= now + 30 * DAY
    ensures var (after, reply) := Steps.FinishChange(s, session, read, secret, next, now);
            && (reply == Steps.Done <==> s.secret == read)
            && (reply != Steps.Done ==> after == s && reply == Steps.Credentials)
            && (reply == Steps.Done
                ==> && after.secret == secret && after.failures == 0
                    && Steps.SessionOf(after, token, later)
                       == (if token == next then Some(Session(next, s.factors != [], session.steppedUp, None))
                           else None)
                    && (token in after.challenges <==> token in s.challenges && s.challenges[token].session.Some?)
                    && (token in after.challenges ==> after.challenges[token] == s.challenges[token]))
  {
  }

  // Second steps.

  /** Whether somebody could answer a challenge for an action at once, were it open. */
  ghost predicate SomeMethodLeft(s: Account, action: Action) {
    (s.kind != UnknownKind && (Holds(s, Key) || (Holds(s, App) && s.failures < 100)))
    || ((s.kind == Buyer || s.kind == Store) && s.failures < 100 && (Holds(s, Email) || ByAddress(Some(action))))
    || exists c :: c in s.recovery && s.recovery[c].None?
  }

  lemma MethodsAreLeft(s: Account, action: Action)
    requires SessionSafety.Inv(s)
    ensures var o := Steps.Offers(s, Some(action));
            SomeMethodLeft(s, action) <==> o.methods != {} || o.recovery
  {
    var o := Steps.Offers(s, Some(action));
    OffersAre(s, Some(action), Key);
    OffersAre(s, Some(action), App);
    OffersAre(s, Some(action), Email);
    if o.methods != {} {
      var m :| m in o.methods;
      OffersAre(s, Some(action), m);
    }
  }

  /** A step-up begins exactly when something answers it, or would but for the lock; and
      what it opens its own session answers for five minutes. */
  lemma StepUpBegins(s: Account, session: Session, action: Action, next: Token, now: Time, later: Time)
    requires SessionSafety.Inv(s) && now <= later
    ensures var (after, reply) := Steps.BeginStepUp(s, session, action, next, now);
            && reply == (if SomeMethodLeft(s, action) || s.failures >= 100 then Steps.Done else Steps.NoSecondFactor)
            && (reply == Steps.NoSecondFactor ==> after == s)
            && (reply == Steps.Done
                ==> && (OpenStepUp(after, next, session.id, later) <==> later < now + 5 * MINUTE)
                    && after.challenges[next].action == Some(action) && OthersStay(s, after, next, now)
                    && after == s.(challenges := after.challenges, history := after.history))
  {
    MethodsAreLeft(s, action);
  }

  /** Whether an answer with a method is one of a second factor of the account. */
  ghost predicate Counts(s: Account, m: Method) {
    m == Key || m == App || m == Recovery || (m == Email && Holds(s, Email))
  }

  /** What a wrong answer to a challenge costs: one attempt of the challenge, the fifth of
      which is its last, and one failure of the account when it was an answer with a
      second factor. The reply says which limit was met. */
  ghost predicate Costs(s: Account, after: Account, reply: Steps.Reply, token: Token, m: Method, now: Time)
    requires token in s.challenges
  {
    var attempts := s.challenges[token].attempts;
    && after.sessions == s.sessions && after.secret == s.secret && after.recovery == s.recovery
    && after.factors == s.factors
    && after.challenges
       == s.challenges[token := s.challenges[token].(attempts := attempts + 1,
                                                     used := if attempts == 4 then Some(now) else None)]
    && after.failures == s.failures + (if Counts(s, m) then 1 else 0)
    && reply == (if attempts == 4 then Steps.ChallengeExhausted
                 else if s.failures >= 100 && (m == App || m == Email) then Steps.CodesLocked
                 else Steps.CodeWrong)
  }

  lemma WrongAnswerCosts(apps: Totp.AppCodes, s: Account, token: Token, owner: Option<Token>, a: Steps.Answer,
                         now: Time)
    requires SessionSafety.Inv(s) && token in s.challenges
    requires s.challenges[token].used.None? && s.challenges[token].attempts < 5
    ensures var ch := s.challenges[token];
            var (after, right) := Steps.AnswerChallenge(apps, s, token, owner, a, now);
            !right ==> Costs(s, after, Steps.WrongReply(ch, Steps.Offers(s, ch.action), a.m), token, a.m, now)
  {
    AnswerEffects(apps, s, token, owner, a, now);
    HasIsHolds(s, Email);
    WrongTakesNothing(apps, s, owner, Steps.Offers(s, s.challenges[token].action), a, now);
  }

  lemma WrongTakesNothing(apps: Totp.AppCodes, s: Account, owner: Option<Token>, o: Steps.Offer, a: Steps.Answer,
                          now: Time)
    ensures var checked := Steps.Check(apps, s, owner, o, a, now);
            !checked.1 ==> checked.0.factors == s.factors && checked.0.recovery == s.recovery
  {
  }

  lemma WrongSignInCosts(apps: Totp.AppCodes, s: Account, token: Token, a: Steps.Answer, next: Token, now: Time)
    requires SessionSafety.Inv(s) && OpenSignIn(s, token, now)
    ensures var (after, reply) := Steps.CompleteSignIn(apps, s, token, a, next, now);
            reply != Steps.Done ==> Costs(s, after, reply, token, a.m, now)
  {
    WrongAnswerCosts(apps, s, token, None, a, now);
  }

  lemma WrongStepUpCosts(apps: Totp.AppCodes, s: Account, session: Session, token: Token, a: Steps.Answer, now: Time)
    requires SessionSafety.Inv(s) && OpenStepUp(s, token, session.id, now)
    ensures var (after, reply) := Steps.StepUp(apps, s, session, token, a, now);
            reply != Steps.Done ==> Costs(s, after, reply, token, a.m, now)
  {
    WrongAnswerCosts(apps, s, token, Some(session.id), a, now);
  }

  /** A right answer with a second factor ends the run of failures; with a code to the
      account's mere address it leaves it. Its challenge is used. */
  lemma RightSignInEndsTheRun(apps: Totp.AppCodes, s: Account, token: Token, a: Steps.Answer, next: Token, now: Time)
    requires SessionSafety.Inv(s)
    ensures var (after, reply) := Steps.CompleteSignIn(apps, s, token, a, next, now);
            reply == Steps.Done ==> after.failures == (if Counts(s, a.m) then 0 else s.failures)
                                    && token in after.challenges && after.challenges[token].used == Some(now)
  {
    HasIsHolds(s, Email);
    if Steps.Find(s, token, None, now).Some? {
      AnswerEffects(apps, s, token, None, a, now);
    }
  }

  lemma RightStepUpEndsTheRun(apps: Totp.AppCodes, s: Account, session: Session, token: Token, a: Steps.Answer,
                              now: Time)
    requires SessionSafety.Inv(s)
    ensures var (after, reply) := Steps.StepUp(apps, s, session, token, a, now);
            reply == Steps.Done ==> after.failures == (if Counts(s, a.m) then 0 else s.failures)
                                    && token in after.challenges && after.challenges[token].used == Some(now)
  {
    HasIsHolds(s, Email);
    if Steps.Find(s, token, Some(session.id), now).Some? {
      AnswerEffects(apps, s, token, Some(session.id), a, now);
    }
  }

  /** What a right answer spends: the step of an app it is the code of, the code that was
      mailed, the recovery code; a key nothing. */
  ghost predicate Spends(apps: Totp.AppCodes, s: Account, after: Account, purpose: Purpose, a: Steps.Answer, now: Time)
  {
    && (if a.m == App then SpendsApp(apps, s, after, a.typed, now) else after.factors == s.factors)
    && (if a.m == Email then SpendsCode(s, after, purpose, a.typed, now) else after.codes == s.codes)
    && (if a.m == Recovery then SpendsRecovery(s, after, a.typed, now) else after.recovery == s.recovery)
  }

  ghost predicate SpendsApp(apps: Totp.AppCodes, s: Account, after: Account, typed: string, now: Time) {
    exists k: nat, step: nat :: k < |s.factors| && AppFits(apps, s.factors[k], typed, now, step)
                                && after.factors == s.factors[k := s.factors[k].(lastStep := step)]
  }

  ghost predicate SpendsCode(s: Account, after: Account, purpose: Purpose, typed: string, now: Time) {
    exists i: nat :: i < |s.codes| && CodeFits(s.codes[i], purpose, typed, now)
                     && after.codes == s.codes[i := s.codes[i].(used := Some(now))]
  }

  ghost predicate SpendsRecovery(s: Account, after: Account, typed: string, now: Time) {
    exists code :: RecoveryFits(s, code, typed) && after.recovery == s.recovery[code := Some(now)]
  }

  lemma RightAnswerSpends(apps: Totp.AppCodes, s: Account, token: Token, owner: Option<Token>, a: Steps.Answer,
                          now: Time)
    requires CodeSafety.Inv(s) && token in s.challenges && Steps.AnswerChallenge(apps, s, token, owner, a, now).1
    ensures Spends(apps, s, Steps.AnswerChallenge(apps, s, token, owner, a, now).0, Steps.PurposeOf(owner), a, now)
  {
    AnswerEffects(apps, s, token, owner, a, now);
    var purpose := Steps.PurposeOf(owner);
    if a.m == App {
      FoundFits(apps, s.factors, 0, a.typed, now);
    } else if a.m == Email {
      var i := Steps.FindCode(s.codes, purpose, now).value;
      assert CodeSafety.RowTells(s.history, s.codes[i]);
      assert CodeFits(s.codes[i], purpose, a.typed, now);
    } else if a.m == Recovery {
      var code := RecoveryCode.Canonical(a.typed).value;
      RecoveryCode.ReadExactly(a.typed, code);
      assert RecoveryFits(s, code, a.typed);
    }
  }

  lemma SignInSpends(apps: Totp.AppCodes, s: Account, token: Token, a: Steps.Answer, next: Token, now: Time)
    requires CodeSafety.Inv(s) && Steps.CompleteSignIn(apps, s, token, a, next, now).1 == Steps.Done
    ensures Spends(apps, s, Steps.CompleteSignIn(apps, s, token, a, next, now).0, SignInCode, a, now)
  {
    RightAnswerSpends(apps, s, token, None, a, now);
  }

  lemma StepUpSpends(apps: Totp.AppCodes, s: Account, session: Session, token: Token, a: Steps.Answer, now: Time)
    requires CodeSafety.Inv(s) && Steps.StepUp(apps, s, session, token, a, now).1 == Steps.Done
    ensures Spends(apps, s, Steps.StepUp(apps, s, session, token, a, now).0, StepUpCode, a, now)
  {
    RightAnswerSpends(apps, s, token, Some(session.id), a, now);
  }
}
