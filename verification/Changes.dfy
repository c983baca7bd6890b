/** Which codes are mailed and which changes of the factors are made, exactly, said of
    the account and the request alone (internal/identity/emailcode.go, factors.go). */
module Changes {
  import opened Base
  import opened Bytes
  import opened Policy
  import opened Rows
  import opened Answers
  import AppSafety
  import CodeSafety
  import Flows
  import RecoveryCode
  import SendingSafety
  import SessionSafety
  import Steps
  import Totp

  // Codes by e-mail.

  lemma {:induction false} PrunedAre(codes: seq<CodeRow>, now: Time, row: CodeRow)
    ensures row in Steps.Pruned(codes, now) <==> row in codes && row.created > now - HOUR
  {
    if codes != [] {
      var front := codes[..|codes| - 1];
      PrunedAre(front, now, row);
      assert codes == front + [codes[|codes| - 1]];
    }
  }

  /** A code that fits still does after another purpose's was sent. */
  lemma OthersStillFit(s: Account, purpose: Purpose, id: nat, code: string, now: Time, p: Purpose, typed: string,
                       later: Time)
    requires p != purpose && now <= later && SomeCodeFits(s, p, typed, later)
    ensures SomeCodeFits(Steps.InsertCode(s, purpose, id, code, now), p, typed, later)
  {
    var i :| 0 <= i < |s.codes| && CodeFits(s.codes[i], p, typed, later);
    var pruned := Steps.Pruned(s.codes, now);
    PrunedAre(s.codes, now, s.codes[i]);
    var k :| 0 <= k < |pruned| && pruned[k] == s.codes[i];
    assert CodeFits(Steps.InsertCode(s, purpose, id, code, now).codes[k], p, typed, later);
  }

  lemma OnlyTheseFit(s: Account, purpose: Purpose, id: nat, code: string, now: Time, p: Purpose, typed: string,
                     later: Time)
    requires SomeCodeFits(Steps.InsertCode(s, purpose, id, code, now), p, typed, later)
    ensures if p == purpose then StripSpaces(typed) == code && later < now + 10 * MINUTE
            else SomeCodeFits(s, p, typed, later)
  {
    var after := Steps.InsertCode(s, purpose, id, code, now);
    var k :| 0 <= k < |after.codes| && CodeFits(after.codes[k], p, typed, later);
    var pruned := Steps.Pruned(s.codes, now);
    if k < |pruned| {
      PrunedAre(s.codes, now, pruned[k]);
      var i :| 0 <= i < |s.codes| && s.codes[i] == pruned[k];
      assert after.codes[k] == Steps.Retire(pruned[k], purpose, now);
      assert p != purpose && CodeFits(s.codes[i], p, typed, later);
    }
  }

  /** A code that is sent is the one code of its purpose for ten minutes; those of other
      purposes are what they were. */
  lemma SentIsTheOneThatFits(s: Account, purpose: Purpose, id: nat, code: string, now: Time, p: Purpose, typed: string,
                             later: Time)
    requires Steps.SendCode(s, purpose, id, code, now).1 == Steps.Done
    requires |code| == 6 && AllDigits(code) && now <= later
    ensures SomeCodeFits(Steps.SendCode(s, purpose, id, code, now).0, p, typed, later)
       <==> if p == purpose then StripSpaces(typed) == code && later < now + 10 * MINUTE
            else SomeCodeFits(s, p, typed, later)
  {
    var after := Steps.InsertCode(s, purpose, id, code, now);
    if p == purpose && StripSpaces(typed) == code && later < now + 10 * MINUTE {
      assert CodeFits(after.codes[|after.codes| - 1], p, typed, later);
    }
    if p != purpose && SomeCodeFits(s, p, typed, later) {
      OthersStillFit(s, purpose, id, code, now, p, typed, later);
    }
    if SomeCodeFits(after, p, typed, later) {
      OnlyTheseFit(s, purpose, id, code, now, p, typed, later);
    }
  }

  /** What the limits answer, of everything ever sent to the account. */
  function Limits(s: Account, now: Time): Steps.Reply {
    var sends := SendingSafety.Sends(s.history);
    if SendingSafety.CountSince(sends, now - MINUTE) > 0 then Steps.CodeTooSoon
    else if SendingSafety.CountSince(sends, now - HOUR) >= 5 then Steps.CodeTooMany
    else Steps.Done
  }

  predicate TakesEmail(s: Account) { s.kind == Buyer || s.kind == Store }

  /** Whether a challenge can still be answered, by whoever opened it. */
  predicate Open(s: Account, token: Token, owner: Option<Token>, now: Time) {
    token in s.challenges
    && var ch := s.challenges[token]; ch.session == owner && ch.used.None? && ch.attempts < 5 && now < ch.expires
  }

  /** A code is sent for a challenge exactly when it is open, the codes are not locked, the
      account's e-mail answers it, and the limits let it; otherwise nothing is. */
  lemma ChallengeCodeIsSent(s: Account, token: Token, owner: Option<Token>, id: nat, code: string, now: Time)
    requires SessionSafety.Inv(s) && SendingSafety.Inv(s) && LatestTime(s.history) <= now
    ensures var (after, reply) := Steps.SendChallengeCode(s, token, owner, id, code, now);
            && reply == (if !Open(s, token, owner, now) then Steps.ChallengeInvalid
                         else if s.failures >= 100 then Steps.CodesLocked
                         else if !TakesEmail(s) || !(Holds(s, Email) || ByAddress(s.challenges[token].action))
                         then Steps.NotPermitted
                         else Limits(s, now))
            && (reply != Steps.Done ==> after == s)
            && (reply == Steps.Done
                ==> Steps.SendCode(s, Steps.PurposeOf(owner), id, code, now) == (after, Steps.Done))
  {
    if token in s.challenges {
      OffersAre(s, s.challenges[token].action, Email);
    }
    SendingSafety.SentExactlyWithinTheLimits(s, Steps.PurposeOf(owner), id, code, now);
  }

  // The factors.

  /** Why a request may not begin to add a factor of a method, or Done. */
  function MayAdd(s: Account, session: Session, m: Method, now: Time): Steps.Reply {
    if s.kind == UnknownKind || (m == Email && !TakesEmail(s)) then Steps.NotPermitted
    else if !Flows.MayChange(s, session, now) then Steps.StepUpNeeded
    else Steps.Done
  }

  lemma AddingBegins(s: Account, session: Session, secret: seq<Byte>, now: Time)
    ensures Steps.BeginApp(s, session, secret, now)
            == (if MayAdd(s, session, App, now) == Steps.Done
                then s.(enrolments := s.enrolments[session.id := AppEnrolment(secret, now + 15 * MINUTE)]) else s,
                MayAdd(s, session, App, now))
    ensures Steps.BeginKey(s, session, now)
            == (if MayAdd(s, session, Key, now) == Steps.Done
                then s.(enrolments := s.enrolments[session.id := KeyEnrolment(now + 15 * MINUTE)]) else s,
                MayAdd(s, session, Key, now))
  {
  }

  /** A code to add the address is sent exactly when the request may, the address is not a
      factor yet, and the limits let it. */
  lemma AddingEmailBegins(s: Account, session: Session, id: nat, code: string, now: Time)
    requires SessionSafety.Inv(s) && SendingSafety.Inv(s) && LatestTime(s.history) <= now
    ensures var (after, reply) := Steps.BeginEmail(s, session, id, code, now);
            && reply == (if MayAdd(s, session, Email, now) != Steps.Done then MayAdd(s, session, Email, now)
                         else if Holds(s, Email) then Steps.AlreadyEnrolled
                         else Limits(s, now))
            && (reply != Steps.Done ==> after == s)
            && (reply == Steps.Done ==> Steps.SendCode(s, EnrolCode, id, code, now) == (after, Steps.Done))
  {
    HasIsHolds(s, Email);
    SendingSafety.SentExactlyWithinTheLimits(s, EnrolCode, id, code, now);
  }

  lemma RightCodeIsSpent(s: Account, purpose: Purpose, typed: string, now: Time)
    requires CodeSafety.Inv(s) && Steps.UseCode(s, purpose, typed, now).1
    ensures Flows.SpendsCode(s, Steps.UseCode(s, purpose, typed, now).0, purpose, typed, now)
  {
    var i := Steps.FindCode(s.codes, purpose, now).value;
    assert CodeSafety.RowTells(s.history, s.codes[i]);
    assert CodeFits(s.codes[i], purpose, typed, now);
  }

  /** The address is added exactly when the code mailed for that is typed. */
  lemma EmailIsAdded(s: Account, session: Session, typed: string, id: nat, now: Time)
    requires SessionSafety.Inv(s) && CodeSafety.Inv(s)
    ensures Steps.ConfirmEmail(s, session, typed, id, now).1
            == if MayAdd(s, session, Email, now) != Steps.Done then MayAdd(s, session, Email, now)
               else if Holds(s, Email) then Steps.AlreadyEnrolled
               else if SomeCodeFits(s, EnrolCode, typed, now) then Steps.Done
               else Steps.CodeWrong
  {
    HasIsHolds(s, Email);
    CodeIsExact(s, EnrolCode, typed, now);
  }

  /** It comes last of the factors, and the code is spent. */
  lemma AddedEmailComesLast(s: Account, session: Session, typed: string, id: nat, now: Time)
    requires CodeSafety.Inv(s)
    ensures var (after, reply) := Steps.ConfirmEmail(s, session, typed, id, now);
            && after.factors == s.factors + (if reply == Steps.Done then [EmailFactor(id)] else [])
            && (reply == Steps.Done ==> Flows.SpendsCode(s, after, EnrolCode, typed, now))
            && after == s.(factors := after.factors, codes := after.codes, history := after.history)
  {
    if Steps.UseCode(s, EnrolCode, typed, now).1 {
      RightCodeIsSpent(s, EnrolCode, typed, now);
    }
  }

  /** A new factor brings recovery codes exactly where there were none. */
  predicate FirstCodes(s: Account, after: Account, reply: Steps.Reply, codes: set<string>) {
    && reply == (if s.recovery == map[] then Steps.CodesShown else Steps.Done)
    && after.recovery == (if s.recovery == map[] then map c | c in codes :: None else s.recovery)
  }

  /** An app is added exactly when what it shows is typed within the fifteen minutes. */
  lemma AppIsAdded(apps: Totp.AppCodes, s: Account, session: Session, typed: string, id: nat, codes: set<string>,
                   now: Time)
    ensures var (after, reply) := Steps.ConfirmApp(apps, s, session, typed, id, codes, now);
            var begun := session.id in s.enrolments && s.enrolments[session.id].AppEnrolment?
                         && now < s.enrolments[session.id].expires;
            if MayAdd(s, session, App, now) != Steps.Done then after == s && reply == MayAdd(s, session, App, now)
            else if !begun then after == s && reply == Steps.NoEnrolment
            else
              var secret := s.enrolments[session.id].secret;
              if exists step: nat :: AppFits(apps, AppFactor(id, secret, 0), typed, now, step) then
                && FirstCodes(s, after, reply, codes)
                && exists step: nat :: AppFits(apps, AppFactor(id, secret, 0), typed, now, step)
                                       && after.factors == s.factors + [AppFactor(id, secret, step)]
              else after == s && reply == Steps.CodeWrong
  {
    if session.id in s.enrolments && s.enrolments[session.id].AppEnrolment? {
      var secret := s.enrolments[session.id].secret;
      var found := Totp.Match(apps, secret, typed, now, 0);
      if found.Some? {
        assert AppFits(apps, AppFactor(id, secret, 0), typed, now, found.value);
      }
      if step: nat :| AppFits(apps, AppFactor(id, secret, 0), typed, now, step) {
        assert Totp.IsCodeOf(apps, secret, StripSpaces(typed), 0, step);
      }
    }
  }

  lemma KeyIsAdded(s: Account, session: Session, proves: bool, id: nat, codes: set<string>, now: Time)
    ensures var (after, reply) := Steps.ConfirmKey(s, session, proves, id, codes, now);
            var begun := session.id in s.enrolments && s.enrolments[session.id].KeyEnrolment?
                         && now < s.enrolments[session.id].expires;
            if MayAdd(s, session, Key, now) != Steps.Done then after == s && reply == MayAdd(s, session, Key, now)
            else if !begun then after == s && reply == Steps.NoEnrolment
            else if !proves then after == s && reply == Steps.KeyRefused
            else FirstCodes(s, after, reply, codes) && after.factors == s.factors + [KeyFactor(id)]
  {
  }

  predicate Known(s: Account, id: nat) { exists f :: f in s.factors && f.id == id }

  predicate OthersLeft(s: Account, id: nat) { exists f :: f in s.factors && f.id != id }

  lemma WithoutIsEmpty(s: Account, id: nat)
    ensures Steps.Without(s.factors, id) == [] <==> !OthersLeft(s, id)
  {
    var left := Steps.Without(s.factors, id);
    if left != [] {
      assert left[0] in left;
    }
  }

  lemma LeftAfterTheFirst(factors: seq<Factor>, k: nat)
    requires 0 < k < |factors|
    ensures factors[..k] + factors[k + 1..] == [factors[0]] + (factors[1..][..k - 1] + factors[1..][k..])
  {
    assert factors[..k] == [factors[0]] + factors[1..][..k - 1];
    assert factors[k + 1..] == factors[1..][k..];
  }

  lemma {:induction false} WithoutOne(factors: seq<Factor>, k: nat)
    requires k < |factors| && AppSafety.Distinct(factors)
    ensures Steps.Without(factors, factors[k].id) == factors[..k] + factors[k + 1..]
  {
    var rest := factors[1..];
    if k == 0 {
      WithoutNothing(rest, factors[0].id);
    } else {
      WithoutOne(rest, k - 1);
      LeftAfterTheFirst(factors, k);
    }
  }

  lemma {:induction false} WithoutNothing(factors: seq<Factor>, id: nat)
    requires forall i :: 0 <= i < |factors| ==> factors[i].id != id
    ensures Steps.Without(factors, id) == factors
  {
    if factors != [] {
      WithoutNothing(factors[1..], id);
    }
  }

  lemma GateIsTheRequests(s: Account, session: Session, now: Time)
    ensures Steps.Gated(s, session, now) <==> !Flows.MayChange(s, session, now)
  {
  }

  /** A factor is removed exactly when the request may, it is there, and it is not the
      only one of an account that must keep one. */
  lemma FactorIsRemoved(s: Account, session: Session, id: nat, now: Time)
    ensures Steps.RemoveFactor(s, session, id, now).1
            == if !Flows.MayChange(s, session, now) then Steps.StepUpNeeded
               else if !Known(s, id) then Steps.FactorUnknown
               else if !OthersLeft(s, id) && !TakesEmail(s) then Steps.FactorRequired
               else Steps.Done
  {
    GateIsTheRequests(s, session, now);
    WithoutIsEmpty(s, id);
    assert Known(s, id) <==> !forall f :: f in s.factors ==> f.id != id;
  }

  /** The others stay as and where they were; the last takes the recovery codes with it,
      and any other nothing. */
  lemma OneFactorGoes(s: Account, session: Session, k: nat, now: Time)
    requires k < |s.factors| && AppSafety.Distinct(s.factors)
    ensures var (after, reply) := Steps.RemoveFactor(s, session, s.factors[k].id, now);
            && (reply != Steps.Done ==> after == s)
            && (reply == Steps.Done
                ==> && after.factors == s.factors[..k] + s.factors[k + 1..]
                    && after.recovery == (if |s.factors| == 1 then map[] else s.recovery)
                    && after == s.(factors := after.factors, recovery := after.recovery, history := after.history))
  {
    WithoutOne(s.factors, k);
  }

  /** Fresh recovery codes are shown exactly to an account with a factor, and from then on
      they and no others are accepted, in any spelling. */
  lemma RecoveryIsReplaced(s: Account, session: Session, codes: set<string>, now: Time, code: string, typed: string)
    ensures var (after, reply) := Steps.Regenerate(s, session, codes, now);
            && reply == (if !Flows.MayChange(s, session, now) then Steps.StepUpNeeded
                         else if s.factors == [] then Steps.NoSecondFactor
                         else Steps.CodesShown)
            && (reply != Steps.CodesShown ==> after == s)
            && (reply == Steps.CodesShown
                ==> && (RecoveryFits(after, code, typed)
                        <==> code in codes && |code| == 12 && RecoveryCode.Spells(typed, code))
                    && after == s.(recovery := after.recovery, history := after.history))
  {
  }
}
