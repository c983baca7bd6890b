/** A code sent by e-mail works once, only while it is the last of its purpose
    and under ten minutes old, and is compared with at most five typed texts
    (internal/identity/emailcode.go). */
module CodeSafety {
  import opened Base
  import opened Bytes
  import opened Policy
  import opened Rows
  import opened Runs
  import Steps
  import Totp

  /** How many typed texts a code was compared with, right or wrong. */
  function Compares(h: History, id: nat, right: bool): nat {
    if h.Nothing? then 0
    else Compares(h.past, id, right) + if h.last.Compared? && h.last.id == id && h.last.right == right then 1 else 0
  }

  /** The last code sent for a purpose, and when. */
  function LastSent(h: History, purpose: Purpose): Option<(nat, Time)> {
    if h.Nothing? then None
    else if h.last.CodeSent? && h.last.purpose == purpose then Some((h.last.id, h.last.at))
    else LastSent(h.past, purpose)
  }

  /** A code accepted for a purpose at a moment: the last sent for that purpose,
      recently, and never accepted before. */
  predicate AcceptedWell(past: History, id: nat, purpose: Purpose, at: Time) {
    && Compares(past, id, true) == 0
    && LastSent(past, purpose).Some? && LastSent(past, purpose).value.0 == id
    && at < LastSent(past, purpose).value.1 + Steps.CODE_LIFETIME
  }

  predicate AllAcceptedWell(h: History) {
    h.Then? ==>
      && AllAcceptedWell(h.past)
      && (h.last.Compared? && h.last.right ==> AcceptedWell(h.past, h.last.id, h.last.purpose, h.last.at))
  }

  ghost predicate Bounded(h: History, id: nat) {
    && Compares(h, id, true) + Compares(h, id, false) <= Steps.CODE_ATTEMPTS
    && Compares(h, id, true) <= 1
    && (!CodeSeen(h, id) ==> Compares(h, id, true) == 0 && Compares(h, id, false) == 0)
  }

  ghost predicate RowTells(h: History, row: CodeRow) {
    && CodeSeen(h, row.id)
    && row.expires == row.created + Steps.CODE_LIFETIME
    && (row.used.None? ==> LastSent(h, row.purpose) == Some((row.id, row.created))
                           && Compares(h, row.id, true) == 0
                           && Compares(h, row.id, false) == row.attempts)
  }

  ghost predicate Distinct(codes: seq<CodeRow>) {
    forall i, j :: 0 <= i < j < |codes| ==> codes[i].id != codes[j].id
  }

  ghost predicate Inv(s: Account) {
    && (forall id: nat :: Bounded(s.history, id))
    && (forall i :: 0 <= i < |s.codes| ==> RowTells(s.history, s.codes[i]))
    && Distinct(s.codes)
    && AllAcceptedWell(s.history)
  }

  lemma CreatedIsSafe(kind: Kind, secret: Secret)
    ensures Inv(Created(kind, secret))
  {
    forall id: nat ensures Bounded(Created(kind, secret).history, id) {
      assert Compares(Nothing, id, true) == Compares(Nothing, id, false) == 0;
    }
    assert AllAcceptedWell(Nothing);
  }

  /** At most one unspent code a purpose. */
  lemma OneUnspentPerPurpose(s: Account, i: nat, j: nat)
    requires Inv(s) && i < |s.codes| && j < |s.codes|
    requires s.codes[i].used.None? && s.codes[j].used.None? && s.codes[i].purpose == s.codes[j].purpose
    ensures i == j
  {
    assert RowTells(s.history, s.codes[i]) && RowTells(s.history, s.codes[j]);
  }

  predicate Beside(e: Event) { !e.CodeSent? && !e.Compared? }

  lemma {:induction false} NoticesAreBeside(later: History, h: History)
    requires Only(later, h, Notifying)
    ensures SameCodes(later, h)
    ensures AllAcceptedWell(h) ==> AllAcceptedWell(later)
  {
    if later != h {
      NoticesAreBeside(later.past, h);
    }
  }

  /** The two histories tell the same of the codes. */
  ghost predicate SameCodes(later: History, h: History) {
    && (forall id: nat, right: bool :: Compares(later, id, right) == Compares(h, id, right))
    && (forall id: nat :: CodeSeen(later, id) == CodeSeen(h, id))
    && (forall purpose: Purpose :: LastSent(later, purpose) == LastSent(h, purpose))
  }

  lemma SameKeeps(s: Account, later: Account)
    requires Inv(s) && later.codes == s.codes
    requires SameCodes(later.history, s.history) && AllAcceptedWell(later.history)
    ensures Inv(later)
  {
    forall id: nat ensures Bounded(later.history, id) {
      assert Bounded(s.history, id);
    }
    forall i | 0 <= i < |s.codes| ensures RowTells(later.history, later.codes[i]) {
      assert RowTells(s.history, s.codes[i]);
    }
  }

  lemma LogKeeps(s: Account, later: Account)
    requires Inv(s) && later.codes == s.codes
    requires later.history == s.history
          || (later.history.Then? && later.history.past == s.history && Beside(later.history.last))
    ensures Inv(later)
  {
    SameKeeps(s, later);
  }

  /** A live code compared: spent when right, one attempt counted when wrong. */
  function Outcome(row: CodeRow, right: bool, now: Time): CodeRow {
    if right then row.(used := Some(now)) else row.(attempts := row.attempts + 1)
  }

  lemma CompareKeepsRows(s: Account, k: nat, right: bool, now: Time)
    requires Inv(s) && k < |s.codes| && Steps.LiveCode(s.codes[k], s.codes[k].purpose, now)
    ensures var row := Outcome(s.codes[k], right, now);
            var h := Then(s.history, Compared(row.id, row.purpose, right, now));
            var codes := s.codes[k := row];
            Distinct(codes) && forall i :: 0 <= i < |codes| ==> RowTells(h, codes[i])
  {
    var row := Outcome(s.codes[k], right, now);
    var h := Then(s.history, Compared(row.id, row.purpose, right, now));
    var codes := s.codes[k := row];
    forall i | 0 <= i < |codes| ensures RowTells(h, codes[i]) {
      assert RowTells(s.history, s.codes[i]);
    }
  }

  lemma CompareKeeps(s: Account, k: nat, right: bool, now: Time)
    requires Inv(s) && k < |s.codes| && Steps.LiveCode(s.codes[k], s.codes[k].purpose, now)
    ensures var row := Outcome(s.codes[k], right, now);
            Inv(Log(s.(codes := s.codes[k := row]), Compared(row.id, row.purpose, right, now)))
  {
    var row, h := s.codes[k], s.history;
    CompareKeepsRows(s, k, right, now);
    assert RowTells(h, row) && Bounded(h, row.id);
    var later := Then(h, Compared(row.id, row.purpose, right, now));
    forall id: nat ensures Bounded(later, id) {
      assert Bounded(h, id);
    }
    assert LastSent(h, row.purpose) == Some((row.id, row.created));
    assert AcceptedWell(h, row.id, row.purpose, now);
  }

  lemma UseKeeps(s: Account, purpose: Purpose, typed: string, now: Time)
    requires Inv(s)
    ensures Inv(Steps.UseCode(s, purpose, typed, now).0)
  {
    match Steps.FindCode(s.codes, purpose, now)
    case None =>
    case Some(k) => CompareKeeps(s, k, Steps.TypedCode(typed) == Some(s.codes[k].code), now);
  }

  lemma {:induction false} PrunedKeeps(h: History, codes: seq<CodeRow>, now: Time)
    requires forall i :: 0 <= i < |codes| ==> RowTells(h, codes[i])
    requires Distinct(codes)
    ensures var kept := Steps.Pruned(codes, now);
            && (forall i :: 0 <= i < |kept| ==> RowTells(h, kept[i]))
            && (forall i :: 0 <= i < |kept| ==> exists j :: 0 <= j < |codes| && codes[j] == kept[i])
            && Distinct(kept)
  {
    if codes != [] {
      var front, row := codes[..|codes| - 1], codes[|codes| - 1];
      PrunedKeeps(h, front, now);
      var kept := Steps.Pruned(front, now);
      forall i | 0 <= i < |kept| ensures kept[i].id != row.id && exists j :: 0 <= j < |codes| && codes[j] == kept[i] {
        var j :| 0 <= j < |front| && front[j] == kept[i];
        assert codes[j] == kept[i];
      }
      assert codes[|codes| - 1] == row;
    }
  }

  lemma InsertKeeps(s: Account, purpose: Purpose, id: nat, code: string, now: Time)
    requires Inv(s) && !CodeSeen(s.history, id)
    ensures Inv(Steps.InsertCode(s, purpose, id, code, now))
  {
    var h, later := s.history, Steps.InsertCode(s, purpose, id, code, now);
    PrunedKeeps(h, s.codes, now);
    var kept := Steps.Pruned(s.codes, now);
    assert Bounded(h, id);
    forall x: nat ensures Bounded(later.history, x) {
      assert Bounded(h, x);
    }
    forall i | 0 <= i < |later.codes| ensures RowTells(later.history, later.codes[i]) {
      if i < |kept| {
        assert RowTells(h, kept[i]);
        assert later.codes[i] == Steps.Retire(kept[i], purpose, now);
      }
    }
    forall i, j | 0 <= i < j < |later.codes| ensures later.codes[i].id != later.codes[j].id {
      assert RowTells(h, kept[i]);
      assert later.codes[i] == Steps.Retire(kept[i], purpose, now);
      if j < |kept| {
        assert later.codes[j] == Steps.Retire(kept[j], purpose, now);
      }
    }
  }

  lemma CheckKeeps(apps: Totp.AppCodes, s: Account, owner: Option<Token>, o: Steps.Offer, a: Steps.Answer, now: Time)
    requires Inv(s)
    ensures Inv(Steps.Check(apps, s, owner, o, a, now).0)
  {
    var after := Steps.Check(apps, s, owner, o, a, now).0;
    if after == s {
    } else if a.m == Recovery {
      RecoveryEffects(s, a.typed, now);
      LogKeeps(s, after);
    } else if a.m == App {
      AppEffects(apps, s, a.typed, now);
      LogKeeps(s, after);
    } else {
      UseKeeps(s, Steps.PurposeOf(owner), a.typed, now);
    }
  }

  lemma AnswerKeeps(apps: Totp.AppCodes, s: Account, token: Token, owner: Option<Token>, a: Steps.Answer, now: Time)
    requires Inv(s) && token in s.challenges
    ensures Inv(Steps.AnswerChallenge(apps, s, token, owner, a, now).0)
  {
    var o := Steps.Offers(s, s.challenges[token].action);
    var checked := Steps.Check(apps, s, owner, o, a, now);
    var after := Steps.AnswerChallenge(apps, s, token, owner, a, now);
    AnswerEffects(apps, s, token, owner, a, now);
    CheckKeeps(apps, s, owner, o, a, now);
    var logged := Log(checked.0, Answered(token, a.m, after.1, Steps.IsSecondFactor(o, a.m), now));
    LogKeeps(checked.0, logged);
    NoticesAreBeside(after.0.history, logged.history);
    AnswerKeepsCodes(apps, s, token, owner, a, now);
    SameKeeps(logged, after.0);
  }

  lemma AnswerKeepsCodes(apps: Totp.AppCodes, s: Account, token: Token, owner: Option<Token>, a: Steps.Answer,
                         now: Time)
    requires token in s.challenges
    ensures Steps.AnswerChallenge(apps, s, token, owner, a, now).0.codes
            == Steps.Check(apps, s, owner, Steps.Offers(s, s.challenges[token].action), a, now).0.codes
  {
    Steps.CheckKeepsChallenges(apps, s, owner, Steps.Offers(s, s.challenges[token].action), a, now);
  }

  lemma CompleteSignInKeeps(apps: Totp.AppCodes, s: Account, token: Token, a: Steps.Answer, next: Token, now: Time)
    requires Inv(s)
    ensures Inv(Steps.CompleteSignIn(apps, s, token, a, next, now).0)
  {
    if Steps.Find(s, token, None, now).Some? {
      AnswerKeeps(apps, s, token, None, a, now);
      LogKeeps(Steps.AnswerChallenge(apps, s, token, None, a, now).0,
               Steps.CompleteSignIn(apps, s, token, a, next, now).0);
    }
  }

  lemma StepUpKeeps(apps: Totp.AppCodes, s: Account, session: Session, token: Token, a: Steps.Answer, now: Time)
    requires Inv(s)
    ensures Inv(Steps.StepUp(apps, s, session, token, a, now).0)
  {
    if Steps.Find(s, token, Some(session.id), now).Some? {
      AnswerKeeps(apps, s, token, Some(session.id), a, now);
      if Steps.AnswerChallenge(apps, s, token, Some(session.id), a, now).1 {
        StepUpEffects(apps, s, session, token, a, now);
      }
      LogKeeps(Steps.AnswerChallenge(apps, s, token, Some(session.id), a, now).0,
               Steps.StepUp(apps, s, session, token, a, now).0);
    }
  }

  lemma SignInKeeps(s: Account, read: Secret, rehash: Option<Secret>, next: Token, now: Time)
    requires Inv(s)
    ensures Inv(Steps.FinishSignIn(s, read, rehash, next, now).0)
  {
    if s.secret == read {
      var kept := if rehash.Some? then Log(s.(secret := rehash.value), Stored(rehash.value, false)) else s;
      LogKeeps(s, kept);
      LogKeeps(kept, Steps.FinishSignIn(s, read, rehash, next, now).0);
    }
  }

  lemma FinishChangeKeeps(s: Account, session: Session, read: Secret, secret: Secret, next: Token, now: Time)
    requires Inv(s)
    ensures Inv(Steps.FinishChange(s, session, read, secret, next, now).0)
  {
    if s.secret == read {
      var changed := Log(s, Stored(secret, true));
      LogKeeps(s, changed);
      LogKeeps(changed, Steps.FinishChange(s, session, read, secret, next, now).0);
    }
  }

  lemma ConfirmAppKeeps(apps: Totp.AppCodes, s: Account, session: Session, typed: string, id: nat, codes: set<string>,
                        now: Time)
    requires Inv(s)
    ensures Inv(Steps.ConfirmApp(apps, s, session, typed, id, codes, now).0)
  {
    var after := Steps.ConfirmApp(apps, s, session, typed, id, codes, now).0;
    if after.history != s.history {
      var changed := Log(s, FactorsChanged(session, now));
      var added := Log(changed, FactorAdded(id, App));
      LogKeeps(s, changed);
      LogKeeps(changed, added);
      var accepted :=
        Log(added, AppAccepted(id, Totp.Match(apps, s.enrolments[session.id].secret, typed, now, 0).value, now));
      LogKeeps(added, accepted);
      LogKeeps(accepted, after);
    } else {
      LogKeeps(s, after);
    }
  }

  /** Two or three events that are no code's. */
  lemma LogsKeep(s: Account, e: Event, f: Event, later: Account)
    requires Inv(s) && Beside(e) && Beside(f) && later.codes == s.codes
    requires later.history == s.history
          || later.history == Then(Then(s.history, e), f)
          || (later.history.Then? && later.history.past == Then(Then(s.history, e), f) && Beside(later.history.last))
          || later.history == Then(s.history, e)
    ensures Inv(later)
  {
    LogKeeps(s, Log(s, e));
    LogKeeps(Log(s, e), Log(Log(s, e), f));
    if later.history == s.history {
      LogKeeps(s, later);
    } else if later.history == Then(s.history, e) {
      LogKeeps(Log(s, e), later);
    } else {
      LogKeeps(Log(Log(s, e), f), later);
    }
  }

  lemma ConfirmEmailKeeps(s: Account, session: Session, typed: string, id: nat, now: Time)
    requires Inv(s)
    ensures Inv(Steps.ConfirmEmail(s, session, typed, id, now).0)
  {
    var used, after := Steps.UseCode(s, EnrolCode, typed, now).0, Steps.ConfirmEmail(s, session, typed, id, now).0;
    UseKeeps(s, EnrolCode, typed, now);
    if after != s {
      LogsKeep(used, FactorsChanged(session, now), FactorAdded(id, Email), after);
    }
  }

  lemma ConfirmKeyKeeps(s: Account, session: Session, keyProves: bool, id: nat, codes: set<string>, now: Time)
    requires Inv(s)
    ensures Inv(Steps.ConfirmKey(s, session, keyProves, id, codes, now).0)
  {
    LogsKeep(s, FactorsChanged(session, now), FactorAdded(id, Key),
             Steps.ConfirmKey(s, session, keyProves, id, codes, now).0);
  }

  lemma RemoveKeeps(s: Account, session: Session, id: nat, now: Time)
    requires Inv(s)
    ensures Inv(Steps.RemoveFactor(s, session, id, now).0)
  {
    LogsKeep(s, FactorsChanged(session, now), FactorRemoved(id), Steps.RemoveFactor(s, session, id, now).0);
  }

  lemma RegenerateKeeps(s: Account, session: Session, codes: set<string>, now: Time)
    requires Inv(s)
    ensures Inv(Steps.Regenerate(s, session, codes, now).0)
  {
    LogsKeep(s, FactorsChanged(session, now), RecoveryIssued(codes), Steps.Regenerate(s, session, codes, now).0);
  }

  lemma BeginAppKeeps(s: Account, session: Session, key: seq<Byte>, now: Time)
    requires Inv(s)
    ensures Inv(Steps.BeginApp(s, session, key, now).0)
  {
    LogKeeps(s, Steps.BeginApp(s, session, key, now).0);
  }

  lemma BeginKeyKeeps(s: Account, session: Session, now: Time)
    requires Inv(s)
    ensures Inv(Steps.BeginKey(s, session, now).0)
  {
    LogKeeps(s, Steps.BeginKey(s, session, now).0);
  }

  lemma FactorStepKeeps(apps: Totp.AppCodes, s: Account, step: Step)
    requires Inv(s) && IsFactorStep(step)
    ensures Inv(Apply(apps, s, step))
  {
    match step
    case ConfirmEmail(session, typed, id, now) => ConfirmEmailKeeps(s, session, typed, id, now);
    case RemoveFactor(session, id, now) => RemoveKeeps(s, session, id, now);
    case Regenerate(session, codes, now) => RegenerateKeeps(s, session, codes, now);
    case _ => EnrollingKeeps(apps, s, step);
  }

  lemma EnrollingKeeps(apps: Totp.AppCodes, s: Account, step: Step)
    requires Inv(s) && (step.BeginApp? || step.ConfirmApp? || step.BeginKey? || step.ConfirmKey?)
    ensures Inv(Apply(apps, s, step))
  {
    match step
    case ConfirmApp(session, typed, id, codes, now) => ConfirmAppKeeps(apps, s, session, typed, id, codes, now);
    case ConfirmKey(session, keyProves, id, codes, now) => ConfirmKeyKeeps(s, session, keyProves, id, codes, now);
    case BeginApp(session, key, now) => BeginAppKeeps(s, session, key, now);
    case BeginKey(session, now) => BeginKeyKeeps(s, session, now);
  }

  lemma Kept(apps: Totp.AppCodes, s: Account, step: Step)
    requires Inv(s) && Enabled(s, step)
    ensures Inv(Apply(apps, s, step))
  {
    if IsSendStep(step) {
      SendStepEffects(apps, s, step);
      InsertKeeps(s, PurposeSent(step), step.id, step.code, step.now);
    } else {
      OtherKeeps(apps, s, step);
    }
  }

  /** The steps that send nothing, whatever their caller holds. */
  lemma OtherKeeps(apps: Totp.AppCodes, s: Account, step: Step)
    requires Inv(s) && !IsSendStep(step)
    ensures Inv(Apply(apps, s, step))
  {
    if IsFactorStep(step) {
      FactorStepKeeps(apps, s, step);
    } else {
      match step
      case SignIn(read, rehash, next, now) => SignInKeeps(s, read, rehash, next, now);
      case FinishChange(session, read, secret, next, now) => FinishChangeKeeps(s, session, read, secret, next, now);
      case CompleteSignIn(token, a, next, now) => CompleteSignInKeeps(apps, s, token, a, next, now);
      case StepUp(session, token, a, now) => StepUpKeeps(apps, s, session, token, a, now);
      case Authenticate(token, now) => LogKeeps(s, Steps.Authenticate(s, token, now).0);
      case BeginStepUp(session, action, next, now) => LogKeeps(s, Steps.BeginStepUp(s, session, action, next, now).0);
      case BeginChange(session, now) => LogKeeps(s, Steps.BeginChange(s, session, now).0);
      case End(token, now) => LogKeeps(s, Steps.Revoke(s, token, now));
      case ReadPassword => LogKeeps(s, Steps.ReadPassword(s));
    }
  }
}
