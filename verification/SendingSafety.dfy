/** How often codes are mailed to an account: the table that is pruned at every
    send answers both limits exactly as the whole history would
    (internal/identity/emailcode.go). */
module SendingSafety {
  import opened Base
  import opened Policy
  import opened Rows
  import opened Runs
  import Steps
  import Totp

  /** When codes were sent, in order, by the history. */
  function Sends(h: History): seq<Time> {
    if h.Nothing? then [] else Sends(h.past) + if h.last.CodeSent? then [h.last.at] else []
  }

  function CountSince(times: seq<Time>, since: int): (n: nat)
    ensures n <= |times|
  {
    if times == [] then 0
    else CountSince(times[..|times| - 1], since) + if times[|times| - 1] > since then 1 else 0
  }

  predicate Sorted(times: seq<Time>) { forall i, j :: 0 <= i <= j < |times| ==> times[i] <= times[j] }

  /** Any two sends a minute apart, and any six an hour. */
  predicate Paced(times: seq<Time>) {
    && (forall i, j :: 0 <= i < j < |times| ==> times[i] + Steps.CODE_EVERY <= times[j])
    && (forall i, j :: 0 <= i && i + Steps.CODES_PER_HOUR <= j < |times| ==> times[i] + HOUR <= times[j])
  }

  /** The rows are the latest sends; what was pruned is an hour old or more. */
  ghost predicate TableIsRecent(codes: seq<CodeRow>, times: seq<Time>, latest: Time) {
    && |codes| <= |times|
    && (forall i :: 0 <= i < |codes| ==> codes[i].created == times[|times| - |codes| + i])
    && (forall i :: 0 <= i < |times| - |codes| ==> times[i] + HOUR <= latest)
    && (forall i :: 0 <= i < |times| ==> times[i] <= latest)
  }

  ghost predicate Inv(s: Account) {
    && Paced(Sends(s.history))
    && TableIsRecent(s.codes, Sends(s.history), LatestTime(s.history))
    && |s.codes| <= Steps.CODES_PER_HOUR
  }

  lemma CreatedIsSafe(kind: Kind, secret: Secret)
    ensures Inv(Created(kind, secret))
  {
    assert Sends(Nothing) == [];
    assert Sends(Created(kind, secret).history) == [];
  }

  // Counting.

  lemma {:induction false} CountSinceSplits(times: seq<Time>, since: int)
    requires Sorted(times)
    ensures forall i :: 0 <= i < |times| ==> (times[i] > since <==> i >= |times| - CountSince(times, since))
  {
    if times != [] {
      CountSinceSplits(times[..|times| - 1], since);
    }
  }

  /** No hour, counted after its beginning up to its end, holds six sends. */
  lemma FiveInAnHour(times: seq<Time>, since: int)
    requires Paced(times)
    ensures CountSince(times, since) - CountSince(times, since + HOUR) <= Steps.CODES_PER_HOUR
  {
    CountSinceSplits(times, since);
    CountSinceSplits(times, since + HOUR);
    var first := |times| - CountSince(times, since);
    var sixth := first + Steps.CODES_PER_HOUR;
    if sixth < |times| {
      assert times[first] > since;
      assert times[sixth] > since + HOUR;
    }
  }

  lemma {:induction false} SentSinceCounts(codes: seq<CodeRow>, times: seq<Time>, since: int)
    requires |codes| <= |times|
    requires forall i :: 0 <= i < |codes| ==> codes[i].created == times[|times| - |codes| + i]
    requires forall i :: 0 <= i < |times| - |codes| ==> times[i] <= since
    ensures Steps.SentSince(codes, since) == CountSince(times, since)
  {
    if codes != [] {
      SentSinceCounts(codes[..|codes| - 1], times[..|times| - 1], since);
    } else {
      NoneSince(times, since);
    }
  }

  lemma {:induction false} NoneSince(times: seq<Time>, since: int)
    requires forall i :: 0 <= i < |times| ==> times[i] <= since
    ensures CountSince(times, since) == 0
  {
    if times != [] {
      NoneSince(times[..|times| - 1], since);
    }
  }

  /** Both limits read the pruned table as they would read the whole history. */
  lemma PruningChangesNothing(s: Account, now: Time)
    requires Inv(s) && LatestTime(s.history) <= now
    ensures Steps.SentSince(s.codes, now - Steps.CODE_EVERY) == CountSince(Sends(s.history), now - Steps.CODE_EVERY)
    ensures Steps.SentSince(s.codes, now - HOUR) == CountSince(Sends(s.history), now - HOUR)
  {
    SentSinceCounts(s.codes, Sends(s.history), now - Steps.CODE_EVERY);
    SentSinceCounts(s.codes, Sends(s.history), now - HOUR);
  }

  // Keeping.

  lemma {:induction false} OnlyKeeps(later: History, h: History, part: Part)
    requires Only(later, h, part)
    ensures Sends(later) == Sends(h) && LatestTime(h) <= LatestTime(later)
  {
    if later != h {
      OnlyKeeps(later.past, h, part);
    }
  }

  /** Rows that keep their times, and a history that sends nothing more. */
  lemma SameTimesKeep(s: Account, later: Account)
    requires Inv(s) && |later.codes| == |s.codes|
    requires forall i :: 0 <= i < |s.codes| ==> later.codes[i].created == s.codes[i].created
    requires Sends(later.history) == Sends(s.history) && LatestTime(s.history) <= LatestTime(later.history)
    ensures Inv(later)
  {
  }

  lemma {:induction false} NoneKept(codes: seq<CodeRow>, now: Time)
    requires forall i :: 0 <= i < |codes| ==> codes[i].created <= now - HOUR
    ensures Steps.Pruned(codes, now) == []
  {
    if codes != [] {
      NoneKept(codes[..|codes| - 1], now);
    }
  }

  predicate InOrder(codes: seq<CodeRow>) {
    forall i, j :: 0 <= i <= j < |codes| ==> codes[i].created <= codes[j].created
  }

  lemma OldToTheEnd(codes: seq<CodeRow>, since: int)
    requires InOrder(codes) && codes != [] && codes[|codes| - 1].created <= since
    ensures forall i :: 0 <= i < |codes| ==> codes[i].created <= since
  {
  }

  lemma FrontInOrder(codes: seq<CodeRow>)
    requires InOrder(codes) && codes != []
    ensures InOrder(codes[..|codes| - 1])
  {
  }

  /** Rows that are the end of others, of which the beginning is an hour old. */
  predicate IsTheEnd(kept: seq<CodeRow>, codes: seq<CodeRow>, now: Time) {
    && |kept| <= |codes|
    && (forall i :: 0 <= i < |kept| ==> kept[i] == codes[|codes| - |kept| + i])
    && (forall i :: 0 <= i < |codes| - |kept| ==> codes[i].created <= now - HOUR)
  }

  lemma OneMoreKept(kept: seq<CodeRow>, front: seq<CodeRow>, row: CodeRow, now: Time)
    requires IsTheEnd(kept, front, now)
    ensures IsTheEnd(kept + [row], front + [row], now)
  {
  }

  /** What is pruned is the beginning of the table, and an hour old or more. */
  lemma {:induction false} PrunedIsTheEnd(codes: seq<CodeRow>, now: Time)
    requires InOrder(codes)
    ensures IsTheEnd(Steps.Pruned(codes, now), codes, now)
  {
    if codes != [] {
      if codes[|codes| - 1].created <= now - HOUR {
        OldToTheEnd(codes, now - HOUR);
        NoneKept(codes, now);
      } else {
        var front, row := codes[..|codes| - 1], codes[|codes| - 1];
        FrontInOrder(codes);
        PrunedIsTheEnd(front, now);
        OneMoreKept(Steps.Pruned(front, now), front, row, now);
        assert codes == front + [row] && Steps.Pruned(codes, now) == Steps.Pruned(front, now) + [row];
      }
    }
  }

  /** What is left is what the hourly limit counts: five rows at most. */
  lemma {:induction false} PrunedIsCounted(codes: seq<CodeRow>, now: Time)
    ensures |Steps.Pruned(codes, now)| == Steps.SentSince(codes, now - HOUR)
  {
    if codes != [] {
      PrunedIsCounted(codes[..|codes| - 1], now);
    }
  }

  lemma PacedGrows(times: seq<Time>, now: Time)
    requires Paced(times)
    requires CountSince(times, now - Steps.CODE_EVERY) == 0
    requires CountSince(times, now - HOUR) < Steps.CODES_PER_HOUR
    ensures Paced(times + [now])
  {
    CountSinceSplits(times, now - Steps.CODE_EVERY);
    CountSinceSplits(times, now - HOUR);
  }

  lemma RecentGrows(codes: seq<CodeRow>, times: seq<Time>, latest: Time, kept: seq<CodeRow>, row: CodeRow, now: Time)
    requires Sorted(times) && TableIsRecent(codes, times, latest) && latest <= now && row.created == now
    requires |kept| == |Steps.Pruned(codes, now)|
    requires forall i :: 0 <= i < |kept| ==> kept[i].created == Steps.Pruned(codes, now)[i].created
    ensures TableIsRecent(kept + [row], times + [now], now)
  {
    assert InOrder(codes);
    PrunedIsTheEnd(codes, now);
    var k, dropped := |times| - |codes|, |codes| - |kept|;
    forall i | 0 <= i < |times| - |kept| ensures times[i] + HOUR <= now {
      if i >= k {
        assert times[i] == codes[i - k].created;
      }
    }
  }

  /** Rows and sends with one more of each. */
  lemma GrownKeeps(s: Account, later: Account, kept: seq<CodeRow>, row: CodeRow, now: Time)
    requires Inv(s) && LatestTime(s.history) <= now && row.created == now
    requires CountSince(Sends(s.history), now - Steps.CODE_EVERY) == 0
    requires CountSince(Sends(s.history), now - HOUR) < Steps.CODES_PER_HOUR
    requires |kept| == |Steps.Pruned(s.codes, now)| < Steps.CODES_PER_HOUR
    requires forall i :: 0 <= i < |kept| ==> kept[i].created == Steps.Pruned(s.codes, now)[i].created
    requires later.codes == kept + [row]
    requires Sends(later.history) == Sends(s.history) + [now] && LatestTime(later.history) == now
    ensures Inv(later)
  {
    PacedGrows(Sends(s.history), now);
    RecentGrows(s.codes, Sends(s.history), LatestTime(s.history), kept, row, now);
  }

  lemma InsertKeeps(s: Account, purpose: Purpose, id: nat, code: string, now: Time)
    requires Inv(s) && LatestTime(s.history) <= now
    requires Steps.SendCode(s, purpose, id, code, now).1 == Steps.Done
    ensures Inv(Steps.SendCode(s, purpose, id, code, now).0)
  {
    PruningChangesNothing(s, now);
    PrunedIsCounted(s.codes, now);
    var kept := Steps.Retired(Steps.Pruned(s.codes, now), purpose, now);
    GrownKeeps(s, Steps.InsertCode(s, purpose, id, code, now), kept,
               CodeRow(id, purpose, code, now, now + Steps.CODE_LIFETIME, 0, None), now);
  }

  lemma SendKeeps(s: Account, purpose: Purpose, id: nat, code: string, now: Time)
    requires Inv(s) && LatestTime(s.history) <= now
    ensures Inv(Steps.SendCode(s, purpose, id, code, now).0)
  {
    if Steps.SendCode(s, purpose, id, code, now).1 == Steps.Done {
      InsertKeeps(s, purpose, id, code, now);
    }
  }

  lemma UseKeepsTimes(s: Account, purpose: Purpose, typed: string, now: Time)
    ensures var after := Steps.UseCode(s, purpose, typed, now).0;
            && |after.codes| == |s.codes|
            && forall i :: 0 <= i < |s.codes| ==> after.codes[i].created == s.codes[i].created
  {
  }

  lemma CheckKeepsTimes(apps: Totp.AppCodes, s: Account, owner: Option<Token>, o: Steps.Offer, a: Steps.Answer,
                        now: Time)
    ensures var after := Steps.Check(apps, s, owner, o, a, now).0;
            && |after.codes| == |s.codes|
            && forall i :: 0 <= i < |s.codes| ==> after.codes[i].created == s.codes[i].created
  {
    UseKeepsTimes(s, Steps.PurposeOf(owner), a.typed, now);
  }

  lemma AnswerKeepsCodes(apps: Totp.AppCodes, s: Account, token: Token, owner: Option<Token>, a: Steps.Answer,
                         now: Time)
    requires token in s.challenges
    ensures |Steps.AnswerChallenge(apps, s, token, owner, a, now).0.codes| == |s.codes|
    ensures Steps.AnswerChallenge(apps, s, token, owner, a, now).0.codes
            == Steps.Check(apps, s, owner, Steps.Offers(s, s.challenges[token].action), a, now).0.codes
  {
    Steps.CheckKeepsChallenges(apps, s, owner, Steps.Offers(s, s.challenges[token].action), a, now);
    CheckKeepsTimes(apps, s, owner, Steps.Offers(s, s.challenges[token].action), a, now);
  }

  lemma AnswerKeeps(apps: Totp.AppCodes, s: Account, token: Token, owner: Option<Token>, a: Steps.Answer, now: Time)
    requires Inv(s) && token in s.challenges
    ensures Inv(Steps.AnswerChallenge(apps, s, token, owner, a, now).0)
  {
    var after := Steps.AnswerChallenge(apps, s, token, owner, a, now).0;
    AnswerEffects(apps, s, token, owner, a, now);
    CheckKeepsTimes(apps, s, owner, Steps.Offers(s, s.challenges[token].action), a, now);
    AnswerKeepsCodes(apps, s, token, owner, a, now);
    TimesAndEventsKeep(s, after, Answering);
  }

  lemma CompleteSignInKeeps(apps: Totp.AppCodes, s: Account, token: Token, a: Steps.Answer, next: Token, now: Time)
    requires Inv(s)
    ensures Inv(Steps.CompleteSignIn(apps, s, token, a, next, now).0)
  {
    if Steps.Find(s, token, None, now).Some? {
      AnswerKeeps(apps, s, token, None, a, now);
      SameTimesKeep(Steps.AnswerChallenge(apps, s, token, None, a, now).0,
                    Steps.CompleteSignIn(apps, s, token, a, next, now).0);
    }
  }

  lemma StepUpKeeps(apps: Totp.AppCodes, s: Account, session: Session, token: Token, a: Steps.Answer, now: Time)
    requires Inv(s)
    ensures Inv(Steps.StepUp(apps, s, session, token, a, now).0)
  {
    if Steps.Find(s, token, Some(session.id), now).Some? {
      AnswerKeeps(apps, s, token, Some(session.id), a, now);
      if Steps.AnswerChallenge(apps, s, token, Some(session.id), a, now).1 {
        StepUpEffects(apps, s, session, token, a, now);
      }
      SameTimesKeep(Steps.AnswerChallenge(apps, s, token, Some(session.id), a, now).0,
                    Steps.StepUp(apps, s, session, token, a, now).0);
    }
  }

  /** Only a code typed to confirm an address touches the rows, and not their
      times. */
  lemma FactorStepKeepsTimes(apps: Totp.AppCodes, s: Account, step: Step)
    requires IsFactorStep(step)
    ensures var after := Apply(apps, s, step);
            && |after.codes| == |s.codes|
            && forall i :: 0 <= i < |s.codes| ==> after.codes[i].created == s.codes[i].created
  {
    match step
    case ConfirmEmail(session, typed, id, now) =>
      UseKeepsTimes(s, EnrolCode, typed, now);
      ConfirmedOrNot(s, session, typed, id, now);
    case ConfirmApp(session, typed, id, codes, now) => ConfirmAppEffects(apps, s, session, typed, id, codes, now);
    case _ =>
  }

  lemma FactorStepKeeps(apps: Totp.AppCodes, s: Account, step: Step)
    requires Inv(s) && IsFactorStep(step)
    ensures Inv(Apply(apps, s, step))
  {
    var after := Apply(apps, s, step);
    FactorStepKeepsTimes(apps, s, step);
    FactorStepEffects(apps, s, step);
    TimesAndEventsKeep(s, after, Changing);
  }

  /** Rows that keep their times, and a history that goes on with one part. */
  lemma TimesAndEventsKeep(s: Account, later: Account, part: Part)
    requires Inv(s) && |later.codes| == |s.codes| && Only(later.history, s.history, part)
    requires forall i :: 0 <= i < |s.codes| ==> later.codes[i].created == s.codes[i].created
    ensures Inv(later)
  {
    OnlyKeeps(later.history, s.history, part);
    SameTimesKeep(s, later);
  }

  lemma SignInKeeps(s: Account, read: Secret, rehash: Option<Secret>, next: Token, now: Time)
    requires Inv(s)
    ensures Inv(Steps.FinishSignIn(s, read, rehash, next, now).0)
  {
    if s.secret == read {
      var kept := if rehash.Some? then Log(s.(secret := rehash.value), Stored(rehash.value, false)) else s;
      SameTimesKeep(s, kept);
      SameTimesKeep(kept, Steps.FinishSignIn(s, read, rehash, next, now).0);
    }
  }

  lemma FinishChangeKeeps(s: Account, session: Session, read: Secret, secret: Secret, next: Token, now: Time)
    requires Inv(s)
    ensures Inv(Steps.FinishChange(s, session, read, secret, next, now).0)
  {
    if s.secret == read {
      var changed := Log(s, Stored(secret, true));
      SameTimesKeep(s, changed);
      SameTimesKeep(changed, Steps.FinishChange(s, session, read, secret, next, now).0);
    }
  }

  lemma Kept(apps: Totp.AppCodes, s: Account, step: Step)
    requires Inv(s) && Enabled(s, step)
    ensures Inv(Apply(apps, s, step))
  {
    if IsFactorStep(step) {
      FactorStepKeeps(apps, s, step);
    } else if IsSendStep(step) {
      SendStepEffects(apps, s, step);
      SendKeeps(s, PurposeSent(step), step.id, step.code, step.now);
    } else {
      match step
      case SignIn(read, rehash, next, now) => SignInKeeps(s, read, rehash, next, now);
      case FinishChange(session, read, secret, next, now) => FinishChangeKeeps(s, session, read, secret, next, now);
      case CompleteSignIn(token, a, next, now) => CompleteSignInKeeps(apps, s, token, a, next, now);
      case StepUp(session, token, a, now) => StepUpKeeps(apps, s, session, token, a, now);
      case Authenticate(token, now) => SameTimesKeep(s, Steps.Authenticate(s, token, now).0);
      case BeginStepUp(session, action, next, now) =>
        SameTimesKeep(s, Steps.BeginStepUp(s, session, action, next, now).0);
      case BeginChange(session, now) => SameTimesKeep(s, Steps.BeginChange(s, session, now).0);
      case End(token, now) => SameTimesKeep(s, Steps.Revoke(s, token, now));
      case ReadPassword => SameTimesKeep(s, Steps.ReadPassword(s));
    }
  }

  /** A code is sent exactly when none was in the last minute and fewer than five
      in the last hour, by the whole history. */
  lemma SentExactlyWithinTheLimits(s: Account, purpose: Purpose, id: nat, code: string, now: Time)
    requires Inv(s) && LatestTime(s.history) <= now
    ensures Steps.SendCode(s, purpose, id, code, now).1
            == if CountSince(Sends(s.history), now - MINUTE) > 0 then Steps.CodeTooSoon
               else if CountSince(Sends(s.history), now - HOUR) >= 5 then Steps.CodeTooMany
               else Steps.Done
  {
    PruningChangesNothing(s, now);
  }

  /** How many sends an hour holds when both its ends are counted. */
  function InClosedHour(times: seq<Time>, since: int): int {
    CountSince(times, since - 1) - CountSince(times, since + HOUR)
  }

  /** An hour with both its ends holds six sends at most, and six exactly when the
      first is at its beginning and the sixth at its end. */
  lemma ClosedHourHoldsSixExactly(times: seq<Time>, since: int)
    requires Paced(times)
    ensures InClosedHour(times, since) <= Steps.CODES_PER_HOUR + 1
    ensures InClosedHour(times, since) == Steps.CODES_PER_HOUR + 1
       <==> exists i :: 0 <= i && i + Steps.CODES_PER_HOUR < |times| && times[i] == since
                        && times[i + Steps.CODES_PER_HOUR] == since + HOUR
  {
    CountSinceSplits(times, since - 1);
    CountSinceSplits(times, since + HOUR);
    var first, past := |times| - CountSince(times, since - 1), |times| - CountSince(times, since + HOUR);
    if first + 5 < past {
      assert times[first] >= since && times[first + 5] <= since + HOUR;
      assert times[first] == since && times[first + 5] == since + HOUR;
      assert first + 6 < |times| ==> times[first + 5] + Steps.CODE_EVERY <= times[first + 6];
    }
    if i :| 0 <= i && i + 5 < |times| && times[i] == since && times[i + 5] == since + HOUR {
      assert i >= first && i + 5 < past;
    }
  }
}
