/** Runs of one account: committed transactions in any order, interleaved in any
    way between the separate transactions of each flow. */
module Runs {
  import opened Base
  import opened Bytes
  import opened Policy
  import opened Rows
  import Steps
  import Totp
  import RecoveryCode

  /** One committed transaction, with what it was given. */
  datatype Step =
    | Authenticate(token: Token, now: Time)
    | ReadPassword
    | SignIn(read: Secret, rehash: Option<Secret>, next: Token, now: Time)
    | CompleteSignIn(token: Token, a: Steps.Answer, next: Token, now: Time)
    | BeginStepUp(session: Session, action: Action, next: Token, now: Time)
    | StepUp(session: Session, token: Token, a: Steps.Answer, now: Time)
    | SendChallengeCode(token: Token, owner: Option<Token>, id: nat, code: string, now: Time)
    | BeginChange(session: Session, now: Time)
    | FinishChange(session: Session, read: Secret, secret: Secret, next: Token, now: Time)
    | End(token: Token, now: Time)
    | BeginApp(session: Session, key: seq<Byte>, now: Time)
    | ConfirmApp(session: Session, typed: string, id: nat, codes: set<string>, now: Time)
    | BeginKey(session: Session, now: Time)
    | ConfirmKey(session: Session, keyProves: bool, id: nat, codes: set<string>, now: Time)
    | BeginEmail(session: Session, id: nat, code: string, now: Time)
    | ConfirmEmail(session: Session, typed: string, id: nat, now: Time)
    | RemoveFactor(session: Session, id: nat, now: Time)
    | Regenerate(session: Session, codes: set<string>, now: Time)

  function Apply(apps: Totp.AppCodes, s: Account, step: Step): Account {
    match step
    case Authenticate(token, now) => Steps.Authenticate(s, token, now).0
    case ReadPassword => Steps.ReadPassword(s)
    case SignIn(read, rehash, next, now) => Steps.FinishSignIn(s, read, rehash, next, now).0
    case CompleteSignIn(token, a, next, now) => Steps.CompleteSignIn(apps, s, token, a, next, now).0
    case BeginStepUp(session, action, next, now) => Steps.BeginStepUp(s, session, action, next, now).0
    case StepUp(session, token, a, now) => Steps.StepUp(apps, s, session, token, a, now).0
    case SendChallengeCode(token, owner, id, code, now) => Steps.SendChallengeCode(s, token, owner, id, code, now).0
    case BeginChange(session, now) => Steps.BeginChange(s, session, now).0
    case FinishChange(session, read, secret, next, now) => Steps.FinishChange(s, session, read, secret, next, now).0
    case End(token, now) => Steps.Revoke(s, token, now)
    case BeginApp(session, key, now) => Steps.BeginApp(s, session, key, now).0
    case ConfirmApp(session, typed, id, codes, now) => Steps.ConfirmApp(apps, s, session, typed, id, codes, now).0
    case BeginKey(session, now) => Steps.BeginKey(s, session, now).0
    case ConfirmKey(session, keyProves, id, codes, now) => Steps.ConfirmKey(s, session, keyProves, id, codes, now).0
    case BeginEmail(session, id, code, now) => Steps.BeginEmail(s, session, id, code, now).0
    case ConfirmEmail(session, typed, id, now) => Steps.ConfirmEmail(s, session, typed, id, now).0
    case RemoveFactor(session, id, now) => Steps.RemoveFactor(s, session, id, now).0
    case Regenerate(session, codes, now) => Steps.Regenerate(s, session, codes, now).0
  }

  // What nobody held before.

  predicate TokenSeen(h: History, t: Token) {
    h.Then? && ((h.last.Opened? && h.last.token == t) || (h.last.ChallengeOpened? && h.last.token == t)
                || TokenSeen(h.past, t))
  }

  predicate MentionsSecret(e: Event, x: Secret) {
    match e
    case Stored(secret, _) => secret == x
    case Read(secret) => secret == x
    case ChangeBegun(_, secret, _) => secret == x
    case _ => false
  }

  predicate SecretSeen(h: History, x: Secret) {
    h.Then? && (MentionsSecret(h.last, x) || SecretSeen(h.past, x))
  }

  predicate FactorSeen(h: History, id: nat) {
    h.Then? && ((h.last.FactorAdded? && h.last.id == id) || FactorSeen(h.past, id))
  }

  predicate CodeSeen(h: History, id: nat) {
    h.Then? && ((h.last.CodeSent? && h.last.id == id) || CodeSeen(h.past, id))
  }

  predicate RecoverySeen(h: History, code: string) {
    h.Then? && ((h.last.RecoveryIssued? && code in h.last.codes) || RecoverySeen(h.past, code))
  }

  predicate NewSet(h: History, codes: set<string>) {
    |codes| == RecoveryCode.COUNT && forall c :: c in codes ==> !RecoverySeen(h, c)
  }

  /** What a step's caller holds: a session that a request was authenticated
      with, a password hash that was read, values that nobody held before, and a
      clock that never goes back. */
  ghost predicate Enabled(s: Account, step: Step) {
    var h := s.history;
    match step
    case Authenticate(_, now) => LatestTime(h) <= now
    case ReadPassword => true
    case SignIn(read, rehash, next, now) =>
      LatestTime(h) <= now && Happened(h, Read(read)) && !TokenSeen(h, next)
      && (rehash.Some? ==> !SecretSeen(h, rehash.value))
    case CompleteSignIn(_, _, next, now) => LatestTime(h) <= now && !TokenSeen(h, next)
    case BeginStepUp(session, _, next, now) =>
      LatestTime(h) <= now && Happened(h, HandedOut(session)) && !TokenSeen(h, next)
    case StepUp(session, _, _, now) => LatestTime(h) <= now && Happened(h, HandedOut(session))
    case SendChallengeCode(_, _, id, _, now) => LatestTime(h) <= now && !CodeSeen(h, id)
    case BeginChange(session, now) => LatestTime(h) <= now && Happened(h, HandedOut(session))
    case FinishChange(session, read, secret, next, now) =>
      LatestTime(h) <= now && Happened(h, HandedOut(session)) && !TokenSeen(h, next) && !SecretSeen(h, secret)
      && (exists at :: Happened(h, ChangeBegun(session, read, at)))
    case End(_, now) => LatestTime(h) <= now
    case BeginApp(session, _, now) => LatestTime(h) <= now && Happened(h, HandedOut(session))
    case ConfirmApp(session, _, id, codes, now) =>
      LatestTime(h) <= now && Happened(h, HandedOut(session)) && !FactorSeen(h, id) && NewSet(h, codes)
    case BeginKey(session, now) => LatestTime(h) <= now && Happened(h, HandedOut(session))
    case ConfirmKey(session, _, id, codes, now) =>
      LatestTime(h) <= now && Happened(h, HandedOut(session)) && !FactorSeen(h, id) && NewSet(h, codes)
    case BeginEmail(session, id, _, now) =>
      LatestTime(h) <= now && Happened(h, HandedOut(session)) && !CodeSeen(h, id)
    case ConfirmEmail(session, _, id, now) =>
      LatestTime(h) <= now && Happened(h, HandedOut(session)) && !FactorSeen(h, id)
    case RemoveFactor(session, _, now) => LatestTime(h) <= now && Happened(h, HandedOut(session))
    case Regenerate(session, codes, now) =>
      LatestTime(h) <= now && Happened(h, HandedOut(session)) && NewSet(h, codes)
  }

  /** The account after a run. */
  function Execute(apps: Totp.AppCodes, s: Account, run: seq<Step>): Account {
    if run == [] then s else Apply(apps, Execute(apps, s, run[..|run| - 1]), run[|run| - 1])
  }

  /** A run each of whose steps is taken with what its caller may hold. */
  ghost predicate Legal(apps: Totp.AppCodes, s: Account, run: seq<Step>) {
    run == [] || (Legal(apps, s, run[..|run| - 1])
                  && Enabled(Execute(apps, s, run[..|run| - 1]), run[|run| - 1]))
  }

  // What the parts of a step log, and what they leave alone.

  /** The parts of a step: checking an answer, telling the owner of failures,
      the whole of an answer, and changing the factors. */
  datatype Part = Checking | Notifying | Answering | Changing

  predicate Belongs(e: Event, part: Part) {
    match part
    case Checking => e.Compared? || e.AppAccepted? || e.RecoveryAccepted?
    case Notifying => e.Noticed? || e.LockNoticed?
    case Answering =>
      e.Compared? || e.AppAccepted? || e.RecoveryAccepted? || e.Noticed? || e.LockNoticed? || e.Answered?
    case Changing => e.FactorsChanged? || e.FactorAdded? || e.FactorRemoved? || e.AppAccepted?
                     || e.RecoveryIssued? || e.Compared?
  }

  /** later continues h with the events of one part and no others. */
  ghost predicate Only(later: History, h: History, part: Part) {
    later == h || (later.Then? && Belongs(later.last, part) && Only(later.past, h, part))
  }

  lemma OnlyOne(later: History, h: History, part: Part)
    requires later == h || (later.Then? && later.past == h && Belongs(later.last, part))
    ensures Only(later, h, part)
  {
    assert Only(h, h, part);
  }

  /** An answer checked logs at most one event, and adds or removes no factor. */
  lemma CheckEffects(apps: Totp.AppCodes, s: Account, owner: Option<Token>, o: Steps.Offer, a: Steps.Answer, now: Time)
    ensures var after := Steps.Check(apps, s, owner, o, a, now).0;
            && after == s.(factors := after.factors, recovery := after.recovery, codes := after.codes,
                           history := after.history)
            && Only(after.history, s.history, Checking)
            && Steps.MethodsOf(after) == Steps.MethodsOf(s)
            && |after.factors| == |s.factors|
  {
    var after := Steps.Check(apps, s, owner, o, a, now).0;
    if after == s {
    } else if a.m == Recovery {
      RecoveryEffects(s, a.typed, now);
    } else if a.m == App {
      AppEffects(apps, s, a.typed, now);
    } else {
      UseEffects(s, Steps.PurposeOf(owner), a.typed, now);
    }
    OnlyOne(after.history, s.history, Checking);
  }

  lemma AppEffects(apps: Totp.AppCodes, s: Account, typed: string, now: Time)
    ensures var after := Steps.CheckApp(apps, s, typed, now).0;
            && after == s.(factors := after.factors, history := after.history)
            && (after.history == s.history
                || (after.history.Then? && after.history.past == s.history && after.history.last.AppAccepted?))
            && Steps.MethodsOf(after) == Steps.MethodsOf(s)
            && |after.factors| == |s.factors|
  {
    match Steps.FindApp(apps, s.factors, typed, now)
    case None =>
    case Some((i, step)) => AppKeepsMethods(s.factors, i, step);
  }

  lemma AppKeepsMethods(factors: seq<Factor>, i: nat, step: nat)
    requires i < |factors| && factors[i].AppFactor?
    ensures forall m :: Steps.Has(factors[i := factors[i].(lastStep := step)], m) <==> Steps.Has(factors, m)
  {
    var later := factors[i := factors[i].(lastStep := step)];
    forall m | Steps.Has(factors, m) ensures Steps.Has(later, m) {
      var k :| 0 <= k < |factors| && MethodOf(factors[k]) == m;
      assert later[k] in later && MethodOf(later[k]) == m;
    }
    forall m | Steps.Has(later, m) ensures Steps.Has(factors, m) {
      var k :| 0 <= k < |later| && MethodOf(later[k]) == m;
      assert factors[k] in factors && MethodOf(factors[k]) == m;
    }
  }

  lemma RecoveryEffects(s: Account, typed: string, now: Time)
    ensures var after := Steps.UseRecovery(s, typed, now).0;
            && after == s.(recovery := after.recovery, history := after.history)
            && (after.history == s.history
                || (after.history.Then? && after.history.past == s.history && after.history.last.RecoveryAccepted?))
  {
  }

  lemma UseEffects(s: Account, purpose: Purpose, typed: string, now: Time)
    ensures var after := Steps.UseCode(s, purpose, typed, now).0;
            && after == s.(codes := after.codes, history := after.history)
            && (after.history == s.history
                || (after.history.Then? && after.history.past == s.history && after.history.last.Compared?))
  {
  }

  lemma SendEffects(s: Account, purpose: Purpose, id: nat, code: string, now: Time)
    ensures var after := Steps.SendCode(s, purpose, id, code, now).0;
            && after == s.(codes := after.codes, history := after.history)
            && (after.history == s.history || after.history == Then(s.history, CodeSent(id, purpose, now)))
  {
  }

  /** A wrong answer: the attempt, the event, and perhaps the count. */
  lemma WrongEffects(s: Account, token: Token, o: Steps.Offer, m: Method, now: Time)
    requires token in s.challenges
    ensures var after := Steps.Wrong(s, token, o, m, now);
            var answered := Then(s.history, Answered(token, m, false, Steps.IsSecondFactor(o, m), now));
            && after == s.(challenges := s.challenges[token := Steps.Attempted(s.challenges[token], now)],
                           failures := if Steps.IsSecondFactor(o, m) then s.failures + 1 else s.failures,
                           history := after.history)
            && Only(after.history, answered, Notifying)
  {
    OnlyOne(Steps.Wrong(s, token, o, m, now).history,
            Then(s.history, Answered(token, m, false, Steps.IsSecondFactor(o, m), now)), Notifying);
  }

  /** An answer, right or wrong, before its caller acts on a right one: it touches
      no session, no password and no enrolment, and of the challenges only its
      own. */
  lemma AnswerEffects(apps: Totp.AppCodes, s: Account, token: Token, owner: Option<Token>, a: Steps.Answer, now: Time)
    requires token in s.challenges
    ensures var answered := Steps.AnswerChallenge(apps, s, token, owner, a, now);
            var after, right := answered.0, answered.1;
            var o := Steps.Offers(s, s.challenges[token].action);
            var logged := Answered(token, a.m, right, Steps.IsSecondFactor(o, a.m), now);
            && after == s.(factors := after.factors, recovery := after.recovery, codes := after.codes,
                           challenges := s.challenges[token := if right then s.challenges[token].(used := Some(now))
                                                               else Steps.Attempted(s.challenges[token], now)],
                           failures := if !right && Steps.IsSecondFactor(o, a.m) then s.failures + 1 else s.failures,
                           history := after.history)
            && Only(after.history, s.history, Answering)
            && Only(after.history, Then(Steps.Check(apps, s, owner, o, a, now).0.history, logged), Notifying)
            && (right ==> after.history == Then(Steps.Check(apps, s, owner, o, a, now).0.history, logged))
            && Steps.MethodsOf(after) == Steps.MethodsOf(s)
            && |after.factors| == |s.factors|
  {
    var o := Steps.Offers(s, s.challenges[token].action);
    CheckEffects(apps, s, owner, o, a, now);
    var checked := Steps.Check(apps, s, owner, o, a, now);
    var logged := Then(checked.0.history, Answered(token, a.m, checked.1, Steps.IsSecondFactor(o, a.m), now));
    var after := Steps.AnswerChallenge(apps, s, token, owner, a, now).0;
    if checked.1 {
      OnlyOne(after.history, logged, Notifying);
    } else {
      WrongEffects(checked.0, token, o, a.m, now);
    }
    AnswerIsWhole(after.history, logged, checked.0.history, s.history);
  }

  /** A right answer to a step-up only marks the session, and may end the run of
      failures. */
  lemma StepUpEffects(apps: Totp.AppCodes, s: Account, session: Session, token: Token, a: Steps.Answer, now: Time)
    requires Steps.Find(s, token, Some(session.id), now).Some?
    requires Steps.AnswerChallenge(apps, s, token, Some(session.id), a, now).1
    ensures var answered := Steps.AnswerChallenge(apps, s, token, Some(session.id), a, now).0;
            var after := Steps.StepUp(apps, s, session, token, a, now).0;
            var o := Steps.Offers(s, s.challenges[token].action);
            && after == Steps.EndRun(answered, o, a.m).(sessions := after.sessions)
            && after.sessions.Keys == s.sessions.Keys
            && (forall t :: t in s.sessions ==> after.sessions[t].revoked == s.sessions[t].revoked)
            && (forall t :: t in s.sessions ==> after.sessions[t].steppedUp == s.sessions[t].steppedUp
                                                || (after.sessions[t].steppedUp == Some(now)
                                                    && (a.m != Email || o.emailFactor)))
            && (forall t :: t in s.sessions ==> after.sessions[t].emailConfirmed == s.sessions[t].emailConfirmed
                                                || (after.sessions[t].emailConfirmed == Some(now) && a.m == Email
                                                    && !o.emailFactor))
  {
    AnswerEffects(apps, s, token, Some(session.id), a, now);
  }

  lemma {:induction false} AnswerIsWhole(later: History, logged: History, checked: History, h: History)
    requires Only(checked, h, Checking) && Only(later, logged, Notifying)
    requires logged.Then? && logged.past == checked && logged.last.Answered?
    ensures Only(later, h, Answering)
    decreases later, checked
  {
    if later != logged {
      AnswerIsWhole(later.past, logged, checked, h);
    } else {
      CheckingIsAnswering(checked, h);
    }
  }

  lemma {:induction false} CheckingIsAnswering(checked: History, h: History)
    requires Only(checked, h, Checking)
    ensures Only(checked, h, Answering)
  {
    if checked != h {
      CheckingIsAnswering(checked.past, h);
    }
  }

  /** The steps that begin, confirm or undo a change of the factors. */
  predicate IsFactorStep(step: Step) {
    step.BeginApp? || step.ConfirmApp? || step.BeginKey? || step.ConfirmKey? || step.ConfirmEmail?
    || step.RemoveFactor? || step.Regenerate?
  }

  /** The steps that send a code. */
  predicate IsSendStep(step: Step) { step.SendChallengeCode? || step.BeginEmail? }

  function PurposeSent(step: Step): Purpose
    requires IsSendStep(step)
  {
    if step.BeginEmail? then EnrolCode else Steps.PurposeOf(step.owner)
  }

  /** A sending step sends one code or does nothing, and for a challenge it sends
      none while the account's codes are locked. */
  lemma SendStepEffects(apps: Totp.AppCodes, s: Account, step: Step)
    requires IsSendStep(step)
    ensures var after := Apply(apps, s, step);
            && (after == s || after == Steps.SendCode(s, PurposeSent(step), step.id, step.code, step.now).0)
            && after == s.(codes := after.codes, history := after.history)
            && (after.history == s.history
                || after.history == Then(s.history, CodeSent(step.id, PurposeSent(step), step.now)))
            && (step.SendChallengeCode? && after != s ==> s.failures < Steps.FAILURES_LOCKED)
  {
    SendEffects(s, PurposeSent(step), step.id, step.code, step.now);
  }

  /** after is what a step that changes factors may leave of s. */
  ghost predicate FactorsOnly(s: Account, after: Account) {
    && after == s.(factors := after.factors, recovery := after.recovery, codes := after.codes,
                   enrolments := after.enrolments, history := after.history)
    && Only(after.history, s.history, Changing)
  }

  lemma ConfirmAppEffects(apps: Totp.AppCodes, s: Account, session: Session, typed: string, id: nat, codes: set<string>,
                          now: Time)
    ensures FactorsOnly(s, Steps.ConfirmApp(apps, s, session, typed, id, codes, now).0)
  {
    var after := Steps.ConfirmApp(apps, s, session, typed, id, codes, now).0;
    if after.history != s.history {
      var changed := Then(s.history, FactorsChanged(session, now));
      OnlyOne(changed, s.history, Changing);
      assert Only(Then(changed, FactorAdded(id, App)), s.history, Changing);
    } else {
      OnlyOne(s.history, s.history, Changing);
    }
  }

  lemma ConfirmKeyEffects(s: Account, session: Session, keyProves: bool, id: nat, codes: set<string>, now: Time)
    ensures FactorsOnly(s, Steps.ConfirmKey(s, session, keyProves, id, codes, now).0)
  {
    OnlyOne(s.history, s.history, Changing);
    OnlyOne(Then(s.history, FactorsChanged(session, now)), s.history, Changing);
  }

  lemma ConfirmEmailEffects(s: Account, session: Session, typed: string, id: nat, now: Time)
    ensures FactorsOnly(s, Steps.ConfirmEmail(s, session, typed, id, now).0)
  {
    UseEffects(s, EnrolCode, typed, now);
    ConfirmedOrNot(s, session, typed, id, now);
    ConfirmLogs(Steps.UseCode(s, EnrolCode, typed, now).0.history,
                Steps.ConfirmEmail(s, session, typed, id, now).0.history, s.history, session, id, now);
  }

  lemma ConfirmedOrNot(s: Account, session: Session, typed: string, id: nat, now: Time)
    ensures var used := Steps.UseCode(s, EnrolCode, typed, now).0;
            var after := Steps.ConfirmEmail(s, session, typed, id, now).0;
            after == s || after == used
            || after == Steps.AddFactor(Log(used, FactorsChanged(session, now)), EmailFactor(id))
  {
  }

  lemma RemoveEffects(s: Account, session: Session, id: nat, now: Time)
    ensures FactorsOnly(s, Steps.RemoveFactor(s, session, id, now).0)
  {
    OnlyOne(s.history, s.history, Changing);
    OnlyOne(Then(s.history, FactorsChanged(session, now)), s.history, Changing);
  }

  lemma RegenerateEffects(s: Account, session: Session, codes: set<string>, now: Time)
    ensures FactorsOnly(s, Steps.Regenerate(s, session, codes, now).0)
  {
    OnlyOne(s.history, s.history, Changing);
    OnlyOne(Then(s.history, FactorsChanged(session, now)), s.history, Changing);
  }

  /** They touch no session, no challenge, no password and no failure. */
  lemma FactorStepEffects(apps: Totp.AppCodes, s: Account, step: Step)
    requires IsFactorStep(step)
    ensures FactorsOnly(s, Apply(apps, s, step))
  {
    OnlyOne(s.history, s.history, Changing);
    match step
    case ConfirmEmail(session, typed, id, now) => ConfirmEmailEffects(s, session, typed, id, now);
    case ConfirmApp(session, typed, id, codes, now) => ConfirmAppEffects(apps, s, session, typed, id, codes, now);
    case ConfirmKey(session, keyProves, id, codes, now) => ConfirmKeyEffects(s, session, keyProves, id, codes, now);
    case RemoveFactor(session, id, now) => RemoveEffects(s, session, id, now);
    case Regenerate(session, codes, now) => RegenerateEffects(s, session, codes, now);
    case _ =>
  }

  lemma ConfirmLogs(used: History, later: History, h: History, session: Session, id: nat, now: Time)
    requires used == h || (used.Then? && used.past == h && used.last.Compared?)
    requires later == h || later == used
             || later == Then(Then(used, FactorsChanged(session, now)), FactorAdded(id, Email))
    ensures Only(later, h, Changing)
  {
    OnlyOne(used, h, Changing);
    OnlyOne(h, h, Changing);
    assert Only(Then(used, FactorsChanged(session, now)), h, Changing);
  }
}
