/** What holds of an account after every run: any committed transactions, in any
    order and number, from its creation on. Each theorem reads one guarantee off
    the invariants that every step keeps. */
module Guarantees {
  import opened Base
  import opened Policy
  import opened Rows
  import opened Runs
  import Steps
  import Totp
  import Answers
  import Flows
  import PasswordSafety
  import ChallengeSafety
  import SessionSafety
  import FailureSafety
  import SendingSafety
  import CodeSafety
  import PurposeSafety
  import StepUpSafety
  import AppSafety
  import RecoverySafety
  import GateSafety
  import LiveSafety

  ghost predicate Safe(s: Account) {
    && PasswordSafety.Inv(s)
    && ChallengeSafety.Inv(s)
    && SessionSafety.Inv(s)
    && FailureSafety.Inv(s)
    && SendingSafety.Inv(s)
    && CodeSafety.Inv(s)
    && PurposeSafety.Inv(s)
    && StepUpSafety.Inv(s)
    && AppSafety.Inv(s)
    && RecoverySafety.Inv(s)
    && LiveSafety.Inv(s)
    && GateSafety.Inv(s)
  }

  lemma CreatedIsSafe(kind: Kind, secret: Secret)
    ensures Safe(Created(kind, secret))
  {
    PasswordSafety.CreatedIsSafe(kind, secret);
    ChallengeSafety.CreatedIsSafe(kind, secret);
    SessionSafety.CreatedIsSafe(kind, secret);
    FailureSafety.CreatedIsSafe(kind, secret);
    SendingSafety.CreatedIsSafe(kind, secret);
    CodeSafety.CreatedIsSafe(kind, secret);
    PurposeSafety.CreatedIsSafe(kind, secret);
    StepUpSafety.CreatedIsSafe(kind, secret);
    AppSafety.CreatedIsSafe(kind, secret);
    RecoverySafety.CreatedIsSafe(kind, secret);
    LiveSafety.CreatedIsSafe(kind, secret);
    GateSafety.CreatedIsSafe(kind, secret);
  }

  lemma StepIsSafe(apps: Totp.AppCodes, s: Account, step: Step)
    requires Safe(s) && Enabled(s, step)
    ensures Safe(Apply(apps, s, step))
  {
    PasswordSafety.Kept(apps, s, step);
    ChallengeSafety.Kept(apps, s, step);
    SessionSafety.Kept(apps, s, step);
    FailureSafety.Kept(apps, s, step);
    SendingSafety.Kept(apps, s, step);
    CodeSafety.Kept(apps, s, step);
    PurposeSafety.Kept(apps, s, step);
    StepUpSafety.Kept(apps, s, step);
    AppSafety.Kept(apps, s, step);
    RecoverySafety.Kept(apps, s, step);
    LiveSafety.Kept(apps, s, step);
    GateSafety.Kept(apps, s, step);
  }

  /** An account that some run brought about. */
  ghost predicate Reached(apps: Totp.AppCodes, kind: Kind, secret: Secret, run: seq<Step>, s: Account) {
    Legal(apps, Created(kind, secret), run) && s == Execute(apps, Created(kind, secret), run)
  }

  lemma {:induction false} EveryRunIsSafe(apps: Totp.AppCodes, kind: Kind, secret: Secret, run: seq<Step>, s: Account)
    requires Reached(apps, kind, secret, run, s)
    ensures Safe(s)
    decreases |run|
  {
    if run == [] {
      CreatedIsSafe(kind, secret);
    } else {
      var front := run[..|run| - 1];
      var before := Execute(apps, Created(kind, secret), front);
      EveryRunIsSafe(apps, kind, secret, front, before);
      StepIsSafe(apps, before, run[|run| - 1]);
    }
  }

  /** Every session that still opens and every sign-in that can still be answered
      was opened after the last password change; a sign-in whose password was
      verified against an older hash is refused, and commits nothing. */
  lemma PasswordChangeEndsEverything(apps: Totp.AppCodes, kind: Kind, secret: Secret, run: seq<Step>, s: Account)
    requires Reached(apps, kind, secret, run, s)
    ensures forall t ::
              t in s.sessions && s.sessions[t].revoked.None? ==> PasswordSafety.OpenedSinceChange(s.history, t)
    ensures forall t ::
              t in s.challenges && s.challenges[t].session.None? ==> PasswordSafety.OpenedSinceChange(s.history, t)
    ensures forall read: Secret, rehash: Option<Secret>, next: Token, now: Time ::
              Happened(s.history, Read(read)) && PasswordSafety.Superseded(s.history, read)
              ==> Steps.FinishSignIn(s, read, rehash, next, now) == (s, Steps.Credentials)
  {
    EveryRunIsSafe(apps, kind, secret, run, s);
    forall read: Secret, rehash: Option<Secret>, next: Token, now: Time
      | Happened(s.history, Read(read)) && PasswordSafety.Superseded(s.history, read)
      ensures Steps.FinishSignIn(s, read, rehash, next, now) == (s, Steps.Credentials)
    {
      PasswordSafety.SupersededWasSeen(s.history, read);
      PasswordSafety.LateSignInRefused(s, read, rehash, next, now);
    }
  }

  /** At most five answers of one challenge are checked, at most one is right, and
      it opens at most one session. */
  lemma AChallengeWorksOnce(apps: Totp.AppCodes, kind: Kind, secret: Secret, run: seq<Step>, s: Account, t: Token)
    requires Reached(apps, kind, secret, run, s)
    ensures ChallengeSafety.Answers(s.history, t, true) + ChallengeSafety.Answers(s.history, t, false) <= 5
    ensures ChallengeSafety.SessionsFrom(s.history, t) <= ChallengeSafety.Answers(s.history, t, true) <= 1
  {
    EveryRunIsSafe(apps, kind, secret, run, s);
    assert ChallengeSafety.Bounded(s.history, t);
  }

  /** No session of an account with a second factor was opened by the password
      alone: each by a right answer to a sign-in challenge, with a method of a
      factor then held and permitted or an unused recovery code, or by a password
      change that passed its gate on a session of the account. */
  lemma SessionsAreEarned(apps: Totp.AppCodes, kind: Kind, secret: Secret, run: seq<Step>, s: Account)
    requires Reached(apps, kind, secret, run, s)
    ensures SessionSafety.Earned(s.kind, s.history)
    ensures s.factors != [] ==> exists id: nat, m: Method :: SessionSafety.Held(s.history, id, m)
  {
    EveryRunIsSafe(apps, kind, secret, run, s);
    if s.factors != [] {
      assert SessionSafety.HasFactor(s.factors, s.factors[0].id, MethodOf(s.factors[0]));
    }
  }

  /** The failure row is exactly the wrong second factors since the run last
      ended; the owner was told once at ten and once at a hundred; and no typed
      code was accepted or sent for a challenge at a hundred or more. */
  lemma FailuresAreCounted(apps: Totp.AppCodes, kind: Kind, secret: Secret, run: seq<Step>, s: Account)
    requires Reached(apps, kind, secret, run, s)
    ensures s.failures == FailureSafety.Run(s.history)
    ensures FailureSafety.Sent(s.history, false) == (if s.failures >= 10 then 1 else 0)
    ensures FailureSafety.Sent(s.history, true) == (if s.failures >= 100 then 1 else 0)
    ensures FailureSafety.LockKept(s.history)
  {
    EveryRunIsSafe(apps, kind, secret, run, s);
  }

  /** Any hour sees at most five codes mailed, any two a minute apart. */
  lemma CodesArePaced(apps: Totp.AppCodes, kind: Kind, secret: Secret, run: seq<Step>, s: Account, since: int)
    requires Reached(apps, kind, secret, run, s)
    ensures var times := SendingSafety.Sends(s.history);
            && SendingSafety.CountSince(times, since) - SendingSafety.CountSince(times, since + HOUR) <= 5
            && (forall i, j :: 0 <= i < j < |times| ==> times[i] + MINUTE <= times[j])
            && |s.codes| <= 5
  {
    EveryRunIsSafe(apps, kind, secret, run, s);
    SendingSafety.FiveInAnHour(SendingSafety.Sends(s.history), since);
  }

  /** One unspent code a purpose; one accepted was the last of its purpose, under
      ten minutes old and never accepted before; five typed texts compared. */
  lemma MailedCodesWorkOnce(apps: Totp.AppCodes, kind: Kind, secret: Secret, run: seq<Step>, s: Account, id: nat)
    requires Reached(apps, kind, secret, run, s)
    ensures forall i, j :: 0 <= i < j < |s.codes| && s.codes[i].used.None? && s.codes[j].used.None?
                           ==> s.codes[i].purpose != s.codes[j].purpose
    ensures CodeSafety.Compares(s.history, id, true) + CodeSafety.Compares(s.history, id, false) <= 5
    ensures CodeSafety.Compares(s.history, id, true) <= 1
    ensures CodeSafety.AllAcceptedWell(s.history)
    ensures PurposeSafety.AllMatch(s.history)
  {
    EveryRunIsSafe(apps, kind, secret, run, s);
    assert CodeSafety.Bounded(s.history, id);
    forall i, j | 0 <= i < j < |s.codes| && s.codes[i].used.None? && s.codes[j].used.None?
      ensures s.codes[i].purpose != s.codes[j].purpose
    {
      if s.codes[i].purpose == s.codes[j].purpose {
        CodeSafety.OneUnspentPerPurpose(s, i, j);
      }
    }
  }

  /** A session's mark is a moment the account proved a factor or a recovery
      code; and a change of the factors, or of the password begun, came within ten
      minutes of such a proof, or of a request that was authenticated while the
      account held no factor. */
  lemma MarksAreProofs(apps: Totp.AppCodes, kind: Kind, secret: Secret, run: seq<Step>, s: Account, t: Token)
    requires Reached(apps, kind, secret, run, s) && t in s.sessions
    ensures s.sessions[t].steppedUp.Some? ==> StepUpSafety.ProvedAt(s.history, s.sessions[t].steppedUp.value)
    ensures s.sessions[t].emailConfirmed.Some?
            ==> StepUpSafety.ConfirmedAt(s.history, s.sessions[t].emailConfirmed.value)
    ensures StepUpSafety.Gatekept(s.history) && GateSafety.Guarded(s.history)
  {
    EveryRunIsSafe(apps, kind, secret, run, s);
    GateSafety.ChangesAreGuarded(s.history);
    assert StepUpSafety.MarksTell(s.history, s.sessions[t].steppedUp, s.sessions[t].emailConfirmed);
  }

  /** The gate of the password and the factors is passed exactly by a session stepped
      up under ten minutes ago, which proved a factor then, or, of a kind the policy
      knows, by a request authenticated while the account held no factor, whatever
      it holds by now. */
  lemma GateIsExact(apps: Totp.AppCodes, kind: Kind, secret: Secret, run: seq<Step>, s: Account,
                    session: Session, action: Action, now: Time)
    requires Reached(apps, kind, secret, run, s) && Happened(s.history, HandedOut(session))
    requires action == Password || action == Factors
    ensures !NeedsStepUp(s.kind, session, action, now)
       <==> Recent(session.steppedUp, now)
            || (s.kind != UnknownKind && !GateSafety.CarriesFactor(s.history, session))
    ensures Recent(session.steppedUp, now) ==> StepUpSafety.ProvedRecently(s.history, now)
  {
    EveryRunIsSafe(apps, kind, secret, run, s);
    GateSafety.GateIsExact(s, session, action, now);
  }

  /** An app's accepted steps strictly increase over the whole run, and between
      two moments number no more than the steps between them and three. */
  lemma AppCodesWorkOnce(apps: Totp.AppCodes, kind: Kind, secret: Secret, run: seq<Step>, s: Account, id: nat,
                         from: Time, until: Time)
    requires Reached(apps, kind, secret, run, s) && from <= until
    ensures Totp.Increasing(AppSafety.AcceptedBetween(s.history, id, from, until))
    ensures |AppSafety.AcceptedBetween(s.history, id, from, until)| <= Totp.StepOf(until) - Totp.StepOf(from) + 3
  {
    EveryRunIsSafe(apps, kind, secret, run, s);
    AppSafety.AcceptancesAreBounded(s, id, from, until);
  }

  /** No recovery codes without a factor, a set of none or ten, each used at most
      once; and an account that must have 2FA never loses its last factor. */
  lemma RecoverySetsAreWhole(apps: Totp.AppCodes, kind: Kind, secret: Secret, run: seq<Step>, s: Account, code: string)
    requires Reached(apps, kind, secret, run, s)
    ensures s.factors == [] ==> s.recovery == map[]
    ensures s.recovery == map[] || |s.recovery| == 10
    ensures RecoverySafety.Uses(s.history, code) <= 1
    ensures Required(s.kind) && RecoverySafety.EverHeld(s.history) ==> s.factors != []
  {
    EveryRunIsSafe(apps, kind, secret, run, s);
    assert RecoverySafety.UsedOnce(s.history, code);
  }

  /** A password change that its hash lets through is committed on a live session
      exactly when, since the request was authenticated with it, neither that
      session was ended nor a password change committed, and it is neither thirty
      days unseen nor ninety days old. It is committed all the same when not. */
  lemma ChangeOnALiveSession(apps: Totp.AppCodes, kind: Kind, first: Secret, run: seq<Step>, s: Account,
                             session: Session, read: Secret, secret: Secret, next: Token, now: Time)
    requires Reached(apps, kind, first, run, s) && Enabled(s, FinishChange(session, read, secret, next, now))
    requires s.secret == read
    ensures session.id in s.sessions
    ensures Steps.SessionOf(s, session.id, now).Some?
       <==> LiveSafety.Undisturbed(s.history, session)
            && now <= s.sessions[session.id].seen + 30 * DAY
            && now <= s.sessions[session.id].created + 90 * DAY
    ensures Steps.FinishChange(s, session, read, secret, next, now).1 == Steps.Done
    ensures Steps.SessionOf(Steps.FinishChange(s, session, read, secret, next, now).0, next, now).Some?
  {
    EveryRunIsSafe(apps, kind, first, run, s);
    LiveSafety.LiveExactlyWhileUndisturbed(s, session, now);
  }

  /** A second step signs in exactly when its answer fits what the account holds: the
      session is open for thirty days of not being seen and stepped up at once, what was
      typed is spent and the run of failures over. Any other answer costs an attempt,
      and is counted when it was one with a second factor. */
  lemma SignInAcceptsExactly(apps: Totp.AppCodes, kind: Kind, secret: Secret, run: seq<Step>, s: Account,
                             token: Token, a: Steps.Answer, next: Token, now: Time)
    requires Reached(apps, kind, secret, run, s) && Answers.OpenSignIn(s, token, now)
    ensures var (after, reply) := Steps.CompleteSignIn(apps, s, token, a, next, now);
            if Answers.Fits(apps, s, SignInCode, false, a, now) then
              && reply == Steps.Done && Flows.Spends(apps, s, after, SignInCode, a, now) && after.failures == 0
              && forall later: Time :: now <= later <= now + 30 * DAY
                                       ==> Steps.SessionOf(after, next, later)
                                           == Some(Session(next, after.factors != [], Some(now), None))
            else reply != Steps.Done && Flows.Costs(s, after, reply, token, a.m, now)
  {
    EveryRunIsSafe(apps, kind, secret, run, s);
    Answers.SignInIsExact(apps, s, token, a, next, now);
    if Answers.Fits(apps, s, SignInCode, false, a, now) {
      Flows.SignInSpends(apps, s, token, a, next, now);
      Flows.RightSignInEndsTheRun(apps, s, token, a, next, now);
      forall later: Time | now <= later <= now + 30 * DAY
        ensures var after := Steps.CompleteSignIn(apps, s, token, a, next, now).0;
                Steps.SessionOf(after, next, later) == Some(Session(next, after.factors != [], Some(now), None))
      {
        Answers.SignInOpens(apps, s, token, a, next, now, later);
      }
    } else {
      Flows.WrongSignInCosts(apps, s, token, a, next, now);
    }
  }

  /** A step-up is passed exactly when its answer fits, where one to an action other than
      the password and the factors may be a code to the mere address. It marks its
      session, and any request that it carries within the ten minutes passes the gates
      that takes. */
  lemma StepUpAcceptsExactly(apps: Totp.AppCodes, kind: Kind, secret: Secret, run: seq<Step>, s: Account,
                             session: Session, token: Token, a: Steps.Answer, now: Time)
    requires Reached(apps, kind, secret, run, s) && Answers.OpenStepUp(s, token, session.id, now)
    ensures var (after, reply) := Steps.StepUp(apps, s, session, token, a, now);
            if Answers.Fits(apps, s, StepUpCode, Answers.ByAddress(s.challenges[token].action), a, now) then
              && reply == Steps.Done && Flows.Spends(apps, s, after, StepUpCode, a, now)
              && forall later: Time, action: Action :: Answers.Admits(s, after, session.id, a.m, now, later, action)
            else reply != Steps.Done && Flows.Costs(s, after, reply, token, a.m, now)
  {
    EveryRunIsSafe(apps, kind, secret, run, s);
    Answers.StepUpIsExact(apps, s, session, token, a, now);
    if Answers.Fits(apps, s, StepUpCode, Answers.ByAddress(s.challenges[token].action), a, now) {
      Flows.StepUpSpends(apps, s, session, token, a, now);
      forall later: Time, action: Action
        ensures Answers.Admits(s, Steps.StepUp(apps, s, session, token, a, now).0, session.id, a.m, now, later, action)
      {
        Answers.StepUpOpensTheGate(apps, s, session, token, a, now, later, action);
      }
    } else {
      Flows.WrongStepUpCosts(apps, s, session, token, a, now);
    }
  }
}
