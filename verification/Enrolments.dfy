/** Enrolling an app or a key (internal/identity/factors.go): what a session
    began last is what it confirms, once and within its fifteen minutes, whatever
    else the account does in between. */
module Enrolments {
  import opened Base
  import opened Bytes
  import opened Policy
  import opened Rows
  import opened Runs
  import Steps
  import Totp

  /** The steps that begin an enrolment in a session. */
  predicate Begins(step: Step, token: Token) { (step.BeginApp? || step.BeginKey?) && step.session.id == token }

  predicate NoneBegun(run: seq<Step>, token: Token) {
    forall i :: 0 <= i < |run| ==> !Begins(run[i], token)
  }

  predicate Confirmed(reply: Steps.Reply) { reply == Steps.Done || reply == Steps.CodesShown }

  /** Whether a step confirms the enrolment of a session. */
  predicate Uses(apps: Totp.AppCodes, s: Account, step: Step, token: Token) {
    match step
    case ConfirmApp(session, typed, id, codes, now) =>
      session.id == token && Confirmed(Steps.ConfirmApp(apps, s, session, typed, id, codes, now).1)
    case ConfirmKey(session, proves, id, codes, now) =>
      session.id == token && Confirmed(Steps.ConfirmKey(s, session, proves, id, codes, now).1)
    case _ => false
  }

  /** Whether a run did. */
  predicate Used(apps: Totp.AppCodes, s: Account, run: seq<Step>, token: Token) {
    run != [] && var front := run[..|run| - 1];
                 Used(apps, s, front, token) || Uses(apps, Execute(apps, s, front), run[|run| - 1], token)
  }

  lemma StepUpLeavesEnrolments(apps: Totp.AppCodes, s: Account, session: Session, token: Token, a: Steps.Answer,
                               now: Time)
    ensures Steps.StepUp(apps, s, session, token, a, now).0.enrolments == s.enrolments
  {
    if Steps.Find(s, token, Some(session.id), now).Some? {
      AnswerEffects(apps, s, token, Some(session.id), a, now);
      if Steps.AnswerChallenge(apps, s, token, Some(session.id), a, now).1 {
        StepUpEffects(apps, s, session, token, a, now);
      }
    }
  }

  lemma SignInLeavesEnrolments(apps: Totp.AppCodes, s: Account, token: Token, a: Steps.Answer, next: Token, now: Time)
    ensures Steps.CompleteSignIn(apps, s, token, a, next, now).0.enrolments == s.enrolments
  {
    if Steps.Find(s, token, None, now).Some? {
      AnswerEffects(apps, s, token, None, a, now);
    }
  }

  lemma AppTakesItsOwn(apps: Totp.AppCodes, s: Account, session: Session, typed: string, id: nat, codes: set<string>,
                       now: Time)
    ensures var confirmed := Steps.ConfirmApp(apps, s, session, typed, id, codes, now);
            confirmed.0.enrolments
            == if Confirmed(confirmed.1) then s.enrolments - {session.id} else s.enrolments
  {
  }

  lemma KeyTakesItsOwn(s: Account, session: Session, proves: bool, id: nat, codes: set<string>, now: Time)
    ensures var confirmed := Steps.ConfirmKey(s, session, proves, id, codes, now);
            confirmed.0.enrolments
            == if Confirmed(confirmed.1) then s.enrolments - {session.id} else s.enrolments
  {
  }

  lemma OthersLeaveEnrolments(apps: Totp.AppCodes, s: Account, step: Step)
    requires !step.BeginApp? && !step.BeginKey? && !step.ConfirmApp? && !step.ConfirmKey?
    ensures Apply(apps, s, step).enrolments == s.enrolments
  {
    if IsSendStep(step) {
      SendStepEffects(apps, s, step);
    } else {
      match step
      case StepUp(session, challenge, a, now) => StepUpLeavesEnrolments(apps, s, session, challenge, a, now);
      case CompleteSignIn(challenge, a, next, now) => SignInLeavesEnrolments(apps, s, challenge, a, next, now);
      case _ =>
    }
  }

  /** Only beginning writes the row of a session, and only confirming takes it. */
  lemma StepOnEnrolments(apps: Totp.AppCodes, s: Account, step: Step, token: Token)
    requires !Begins(step, token)
    ensures var later := Apply(apps, s, step).enrolments;
            && (token in later <==> token in s.enrolments && !Uses(apps, s, step, token))
            && (token in later ==> later[token] == s.enrolments[token])
  {
    match step
    case ConfirmApp(session, typed, id, codes, now) => AppTakesItsOwn(apps, s, session, typed, id, codes, now);
    case ConfirmKey(session, proves, id, codes, now) => KeyTakesItsOwn(s, session, proves, id, codes, now);
    case BeginApp(session, key, now) =>
    case BeginKey(session, now) =>
    case _ => OthersLeaveEnrolments(apps, s, step);
  }

  /** Over any run in which the session begins no other, its enrolment is there
      exactly until it is confirmed, and stays what it was. */
  lemma {:induction false} OpenUntilUsed(apps: Totp.AppCodes, s: Account, run: seq<Step>, token: Token)
    requires NoneBegun(run, token)
    ensures var later := Execute(apps, s, run).enrolments;
            && (token in later <==> token in s.enrolments && !Used(apps, s, run, token))
            && (token in later ==> later[token] == s.enrolments[token])
  {
    if run != [] {
      var front, last := run[..|run| - 1], run[|run| - 1];
      OpenUntilUsed(apps, s, front, token);
      StepOnEnrolments(apps, Execute(apps, s, front), last, token);
    }
  }

  /** An app is confirmed from its row alone. */
  lemma AppNeedsItsRow(apps: Totp.AppCodes, s: Account, session: Session, typed: string, id: nat, codes: set<string>,
                       now: Time)
    ensures var confirmed, row := Steps.ConfirmApp(apps, s, session, typed, id, codes, now), session.id;
            && (Confirmed(confirmed.1)
                <==> Permits(s.kind, App, Enrol) && !Steps.Gated(s, session, now)
                     && row in s.enrolments && s.enrolments[row].AppEnrolment? && now < s.enrolments[row].expires
                     && Totp.Match(apps, s.enrolments[row].secret, typed, now, 0).Some?)
            && confirmed.0.factors
               == s.factors + (if !Confirmed(confirmed.1) then []
                               else var secret := s.enrolments[row].secret;
                                    [AppFactor(id, secret, Totp.Match(apps, secret, typed, now, 0).value)])
  {
  }

  lemma KeyNeedsItsRow(s: Account, session: Session, proves: bool, id: nat, codes: set<string>, now: Time)
    ensures var confirmed, row := Steps.ConfirmKey(s, session, proves, id, codes, now), session.id;
            && (Confirmed(confirmed.1)
                <==> Permits(s.kind, Key, Enrol) && !Steps.Gated(s, session, now) && proves
                     && row in s.enrolments && s.enrolments[row].KeyEnrolment? && now < s.enrolments[row].expires)
            && confirmed.0.factors == s.factors + (if Confirmed(confirmed.1) then [KeyFactor(id)] else [])
  {
  }

  /** What an app that is begun adds, and when: its secret is the one begun last,
      whose code was typed within fifteen minutes, and only the first time. A key
      is not confirmed in its place. */
  lemma AppIsConfirmedOnce(apps: Totp.AppCodes, s: Account, began: Session, secret: seq<Byte>, at: Time, run: seq<Step>,
                           session: Session, typed: string, id: nat, codes: set<string>, now: Time)
    requires Steps.BeginApp(s, began, secret, at).1 == Steps.Done
    requires NoneBegun(run, began.id) && session.id == began.id
    ensures var open := Steps.BeginApp(s, began, secret, at).0;
            var before := Execute(apps, open, run);
            var step := Totp.Match(apps, secret, typed, now, 0);
            var confirmed := Steps.ConfirmApp(apps, before, session, typed, id, codes, now);
            && (Confirmed(confirmed.1)
                <==> !Used(apps, open, run, began.id) && now < at + 15 * MINUTE && step.Some?
                     && Permits(before.kind, App, Enrol) && !Steps.Gated(before, session, now))
            && confirmed.0.factors
               == before.factors + (if Confirmed(confirmed.1) then [AppFactor(id, secret, step.value)] else [])
            && (forall proves: bool :: !Confirmed(Steps.ConfirmKey(before, session, proves, id, codes, now).1))
  {
    var open := Steps.BeginApp(s, began, secret, at).0;
    var before := Execute(apps, open, run);
    OpenUntilUsed(apps, open, run, began.id);
    AppNeedsItsRow(apps, before, session, typed, id, codes, now);
    forall proves: bool ensures !Confirmed(Steps.ConfirmKey(before, session, proves, id, codes, now).1) {
      KeyNeedsItsRow(before, session, proves, id, codes, now);
    }
  }

  /** And a key that is begun likewise, once it proves itself. */
  lemma KeyIsConfirmedOnce(apps: Totp.AppCodes, s: Account, began: Session, at: Time, run: seq<Step>,
                           session: Session, proves: bool, id: nat, codes: set<string>, now: Time)
    requires Steps.BeginKey(s, began, at).1 == Steps.Done
    requires NoneBegun(run, began.id) && session.id == began.id
    ensures var open := Steps.BeginKey(s, began, at).0;
            var before := Execute(apps, open, run);
            var confirmed := Steps.ConfirmKey(before, session, proves, id, codes, now);
            && (Confirmed(confirmed.1)
                <==> !Used(apps, open, run, began.id) && now < at + 15 * MINUTE && proves
                     && Permits(before.kind, Key, Enrol) && !Steps.Gated(before, session, now))
            && confirmed.0.factors == before.factors + (if Confirmed(confirmed.1) then [KeyFactor(id)] else [])
            && (forall typed: string :: !Confirmed(Steps.ConfirmApp(apps, before, session, typed, id, codes, now).1))
  {
    var open := Steps.BeginKey(s, began, at).0;
    var before := Execute(apps, open, run);
    OpenUntilUsed(apps, open, run, began.id);
    KeyNeedsItsRow(before, session, proves, id, codes, now);
    forall typed: string ensures !Confirmed(Steps.ConfirmApp(apps, before, session, typed, id, codes, now).1) {
      AppNeedsItsRow(apps, before, session, typed, id, codes, now);
    }
  }
}
