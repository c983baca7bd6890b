/** Runs that their callers may take, from an account's creation on, in which what
    the code does not promise does not hold. */
module ExampleRuns {
  import opened Base
  import opened Bytes
  import opened Policy
  import opened Rows
  import opened Runs
  import RecoveryCode
  import SendingSafety
  import SessionSafety
  import StepUpSafety
  import Steps
  import Totp

  // How every one of them starts: an account is created, its password read, a session
  // opened and a request authenticated with it.

  lemma OneMoreStep(apps: Totp.AppCodes, s: Account, run: seq<Step>, step: Step)
    requires Legal(apps, s, run) && Enabled(Execute(apps, s, run), step)
    ensures Legal(apps, s, run + [step]) && Execute(apps, s, run + [step]) == Apply(apps, Execute(apps, s, run), step)
  {
    assert (run + [step])[..|run|] == run;
  }

  /** A history at the beginning of time, of one password and few tokens. */
  ghost predicate Early(h: History, first: Secret, token: Token) {
    && LatestTime(h) == 0
    && (forall x: Secret :: SecretSeen(h, x) ==> x == first)
    && (forall t: Token :: TokenSeen(h, t) ==> t < token)
  }

  lemma CreatedIsEarly(first: Secret)
    ensures Early(Created(Buyer, first).history, first, 1)
  {
    assert forall x: Secret :: !SecretSeen(Nothing, x);
    forall t: Token ensures !TokenSeen(Created(Buyer, first).history, t) {
      assert !TokenSeen(Nothing, t);
    }
    assert LatestTime(Nothing) == 0;
  }

  lemma EarlyGrows(h: History, e: Event, first: Secret, token: Token, later: Token)
    requires Early(h, first, token) && token <= later && TimeOf(e) == 0
    requires forall x: Secret :: MentionsSecret(e, x) ==> x == first
    requires e.Opened? || e.ChallengeOpened? ==> e.token < later
    ensures Early(Then(h, e), first, later)
  {
    forall t: Token | TokenSeen(Then(h, e), t) ensures t < later {
      assert TokenSeen(h, t) ==> t < token;
    }
  }

  const REQUEST := Session(1, false, None, None)

  /** The account as the run goes on: the password read, a session opened, a
      request authenticated with it, the session ended, the change begun. */
  function Opening(first: Secret): Account { Steps.ReadPassword(Created(Buyer, first)) }

  function SignedIn(first: Secret): Account { Steps.InsertSession(Opening(first), 1, ByPassword(first), 0) }

  function Requested(first: Secret): Account { Log(SignedIn(first), HandedOut(REQUEST)) }

  function SignedOut(first: Secret): Account {
    var s := Requested(first);
    Log(s.(sessions := map[1 := SessionRow(0, 0, Some(0), None, None)]), SessionEnded(1, 0))
  }

  function Begun(first: Secret): Account { Log(SignedOut(first), ChangeBegun(REQUEST, first, 0)) }

  /** A request that was authenticated before its session ended changes the
      password afterwards, and is given a live session. */
  function LateRun(first: Secret, second: Secret): seq<Step> {
    Beginning(first) + [Step.FinishChange(REQUEST, first, second, 2, 0)]
  }

  function Beginning(first: Secret): seq<Step> {
    Leaving(first) + [Step.BeginChange(REQUEST, 0)]
  }

  function Requesting(first: Secret): seq<Step> {
    [Step.ReadPassword] + [Step.SignIn(first, None, 1, 0)] + [Step.Authenticate(1, 0)]
  }

  lemma RequestingIsLegal(apps: Totp.AppCodes, first: Secret)
    ensures Legal(apps, Created(Buyer, first), Requesting(first))
    ensures Execute(apps, Created(Buyer, first), Requesting(first)) == Requested(first)
    ensures Early(Requested(first).history, first, 2)
  {
    var s := Created(Buyer, first);
    var none: seq<Step> := [];
    CreatedIsEarly(first);
    assert Legal(apps, s, none) && Execute(apps, s, none) == s;
    OneMoreStep(apps, s, none, Step.ReadPassword);
    assert none + [Step.ReadPassword] == [Step.ReadPassword];
    EarlyGrows(s.history, Read(first), first, 1, 1);
    assert Opening(first).history == Then(s.history, Read(first));
    OneMoreStep(apps, s, [Step.ReadPassword], Step.SignIn(first, None, 1, 0));
    EarlyGrows(Opening(first).history, Opened(1, ByPassword(first)), first, 1, 2);
    OneMoreStep(apps, s, [Step.ReadPassword] + [Step.SignIn(first, None, 1, 0)], Step.Authenticate(1, 0));
    EarlyGrows(SignedIn(first).history, HandedOut(REQUEST), first, 2, 2);
  }

  function Leaving(first: Secret): seq<Step> { Requesting(first) + [Step.End(1, 0)] }

  lemma LeavingIsLegal(apps: Totp.AppCodes, first: Secret)
    ensures Legal(apps, Created(Buyer, first), Leaving(first))
    ensures Execute(apps, Created(Buyer, first), Leaving(first)) == SignedOut(first)
    ensures Early(SignedOut(first).history, first, 2)
    ensures Happened(SignedOut(first).history, HandedOut(REQUEST))
  {
    RequestingIsLegal(apps, first);
    OneMoreStep(apps, Created(Buyer, first), Requesting(first), Step.End(1, 0));
    EndsIt(first);
    EarlyGrows(Requested(first).history, SessionEnded(1, 0), first, 2, 2);
    assert Happened(Requested(first).history, HandedOut(REQUEST));
  }

  lemma BeginningIsLegal(apps: Totp.AppCodes, first: Secret)
    ensures Legal(apps, Created(Buyer, first), Beginning(first))
    ensures Execute(apps, Created(Buyer, first), Beginning(first)) == Begun(first)
    ensures Early(Begun(first).history, first, 2)
    ensures Happened(Begun(first).history, HandedOut(REQUEST))
  {
    LeavingIsLegal(apps, first);
    OneMoreStep(apps, Created(Buyer, first), Leaving(first), Step.BeginChange(REQUEST, 0));
    EarlyGrows(SignedOut(first).history, ChangeBegun(REQUEST, first, 0), first, 2, 2);
  }

  lemma EndsIt(first: Secret)
    ensures Steps.Revoke(Requested(first), 1, 0) == SignedOut(first)
  {
    var rows: map<Token, SessionRow> := map[];
    assert Requested(first).sessions == rows[1 := SessionRow(0, 0, None, None, None)];
    assert Requested(first).sessions[1 := SessionRow(0, 0, Some(0), None, None)]
        == map[1 := SessionRow(0, 0, Some(0), None, None)];
  }

  lemma ChangeOutlivesSignOut(apps: Totp.AppCodes, first: Secret, second: Secret)
    requires first != second
    ensures Legal(apps, Created(Buyer, first), LateRun(first, second))
    ensures var s := Execute(apps, Created(Buyer, first), Beginning(first));
            s.secret == first && Steps.SessionOf(s, 1, 0).None?
    ensures var s := Execute(apps, Created(Buyer, first), LateRun(first, second));
            s.secret == second && Steps.SessionOf(s, 1, 0).None? && Steps.SessionOf(s, 2, 0).Some?
  {
    BeginningIsLegal(apps, first);
    assert Happened(Begun(first).history, ChangeBegun(REQUEST, first, 0));
    OneMoreStep(apps, Created(Buyer, first), Beginning(first), Step.FinishChange(REQUEST, first, second, 2, 0));
  }

  // Six codes in an hour with both its ends.

  /** Five sends a minute apart, and one an hour after the first. */
  function Moment(i: nat): Time { if i < 5 then i * MINUTE else HOUR }

  function Moments(n: nat): (times: seq<Time>)
    ensures |times| == n
    ensures forall i :: 0 <= i < n ==> times[i] == Moment(i)
  {
    seq(n, i requires i >= 0 => Moment(i))
  }

  lemma {:induction false} NoneSince(times: seq<Time>, since: int)
    requires forall i :: 0 <= i < |times| ==> times[i] <= since
    ensures SendingSafety.CountSince(times, since) == 0
  {
    if times != [] {
      NoneSince(times[..|times| - 1], since);
    }
  }

  lemma {:induction false} NotAllSince(times: seq<Time>, since: int)
    requires times != [] && times[0] <= since
    ensures SendingSafety.CountSince(times, since) < |times|
  {
    var front := times[..|times| - 1];
    if front != [] {
      NotAllSince(front, since);
    } else {
      assert SendingSafety.CountSince(front, since) == 0;
    }
  }

  lemma WithinTheLimits(n: nat)
    requires n < 6
    ensures SendingSafety.CountSince(Moments(n), Moment(n) - Steps.CODE_EVERY) == 0
    ensures SendingSafety.CountSince(Moments(n), Moment(n) - HOUR) < Steps.CODES_PER_HOUR
  {
    NoneSince(Moments(n), Moment(n) - Steps.CODE_EVERY);
    if n == 5 {
      NotAllSince(Moments(n), Moment(n) - HOUR);
    }
  }

  /** The account once n codes were sent. */
  ghost predicate Sent(s: Account, n: nat) {
    && s.kind == Buyer && s.factors == [] && Happened(s.history, HandedOut(REQUEST))
    && SendingSafety.Inv(s) && SendingSafety.Sends(s.history) == Moments(n)
    && LatestTime(s.history) == (if n == 0 then 0 else Moment(n - 1))
    && (forall id: nat :: CodeSeen(s.history, id) ==> id < n)
  }

  function SendStep(n: nat): Step { Step.BeginEmail(REQUEST, n, "000000", Moment(n)) }

  function Sending(first: Secret, n: nat): seq<Step> {
    if n == 0 then Requesting(first) else Sending(first, n - 1) + [SendStep(n - 1)]
  }

  lemma SendsNothing(h: History, e: Event)
    requires !e.CodeSent? && SendingSafety.Sends(h) == [] && forall id: nat :: !CodeSeen(h, id)
    ensures SendingSafety.Sends(Then(h, e)) == [] && forall id: nat :: !CodeSeen(Then(h, e), id)
  {
  }

  lemma RequestedHasSentNone(apps: Totp.AppCodes, first: Secret)
    ensures Sent(Requested(first), 0)
  {
    RequestingIsLegal(apps, first);
    var read, begun := Opening(first).history, SignedIn(first).history;
    assert SendingSafety.Sends(Nothing) == [] && forall id: nat :: !CodeSeen(Nothing, id);
    SendsNothing(Nothing, Stored(first, false));
    SendsNothing(Created(Buyer, first).history, Read(first));
    SendsNothing(read, Opened(1, ByPassword(first)));
    SendsNothing(begun, HandedOut(REQUEST));
  }

  /** With no factor and no gate, a code to add e-mail is sent within the limits. */
  lemma BareIsSentTo(apps: Totp.AppCodes, s: Account, n: nat)
    requires s.kind == Buyer && s.factors == []
    ensures Apply(apps, s, SendStep(n)) == Steps.SendCode(s, EnrolCode, n, "000000", Moment(n)).0
  {
    assert Steps.MethodsOf(s) == {};
  }

  lemma NextIsSent(apps: Totp.AppCodes, s: Account, n: nat)
    requires Sent(s, n) && n < 6
    ensures Apply(apps, s, SendStep(n)) == Steps.InsertCode(s, EnrolCode, n, "000000", Moment(n))
  {
    assert Steps.SendCode(s, EnrolCode, n, "000000", Moment(n)).1 == Steps.Done by {
      WithinTheLimits(n);
      SendingSafety.SentExactlyWithinTheLimits(s, EnrolCode, n, "000000", Moment(n));
    }
    BareIsSentTo(apps, s, n);
    DoneIsSent(s, n);
  }

  lemma DoneIsSent(s: Account, n: nat)
    requires Steps.SendCode(s, EnrolCode, n, "000000", Moment(n)).1 == Steps.Done
    ensures Steps.SendCode(s, EnrolCode, n, "000000", Moment(n)).0
         == Steps.InsertCode(s, EnrolCode, n, "000000", Moment(n))
  {
  }

  lemma NextIsEnabled(s: Account, n: nat)
    requires Sent(s, n)
    ensures n < 6 ==> Enabled(s, SendStep(n))
  {
  }

  lemma OneMoreSend(apps: Totp.AppCodes, s: Account, n: nat)
    requires Sent(s, n) && n < 6
    ensures Enabled(s, SendStep(n)) && Sent(Apply(apps, s, SendStep(n)), n + 1)
  {
    NextIsSent(apps, s, n);
    NextIsEnabled(s, n);
    assert SendingSafety.Inv(Apply(apps, s, SendStep(n))) by {
      SendingSafety.Kept(apps, s, SendStep(n));
    }
    InsertedIsSent(s, n);
  }

  lemma InsertedIsSent(s: Account, n: nat)
    requires Sent(s, n) && n < 6 && SendingSafety.Inv(Steps.InsertCode(s, EnrolCode, n, "000000", Moment(n)))
    ensures Sent(Steps.InsertCode(s, EnrolCode, n, "000000", Moment(n)), n + 1)
  {
    var later := Steps.InsertCode(s, EnrolCode, n, "000000", Moment(n));
    assert SendingSafety.Sends(later.history) == Moments(n) + [Moment(n)] == Moments(n + 1);
  }

  lemma SendingGoesOn(apps: Totp.AppCodes, s: Account, run: seq<Step>, n: nat)
    requires n < 6 && Legal(apps, s, run) && Sent(Execute(apps, s, run), n)
    ensures Legal(apps, s, run + [SendStep(n)]) && Sent(Execute(apps, s, run + [SendStep(n)]), n + 1)
  {
    OneMoreSend(apps, Execute(apps, s, run), n);
    OneMoreStep(apps, s, run, SendStep(n));
  }

  lemma SendingStarts(apps: Totp.AppCodes, first: Secret)
    ensures Legal(apps, Created(Buyer, first), Requesting(first))
    ensures Sent(Execute(apps, Created(Buyer, first), Requesting(first)), 0)
  {
    RequestingIsLegal(apps, first);
    RequestedHasSentNone(apps, first);
  }

  lemma {:induction false} SendingIsLegal(apps: Totp.AppCodes, first: Secret, n: nat)
    requires n <= 6
    ensures Legal(apps, Created(Buyer, first), Sending(first, n))
    ensures Sent(Execute(apps, Created(Buyer, first), Sending(first, n)), n)
  {
    if n == 0 {
      SendingStarts(apps, first);
    } else {
      SendingIsLegal(apps, first, n - 1);
      SendingGoesOn(apps, Created(Buyer, first), Sending(first, n - 1), n - 1);
    }
  }

  /** The limit is five in an hour that excludes its beginning: a run whose first
      code was sent exactly an hour before its sixth. */
  lemma AnHourWithBothEndsMayHoldSix(apps: Totp.AppCodes, first: Secret)
    ensures Legal(apps, Created(Buyer, first), Sending(first, 6))
    ensures var s := Execute(apps, Created(Buyer, first), Sending(first, 6));
            SendingSafety.InClosedHour(SendingSafety.Sends(s.history), 0) == 6
  {
    var last: nat := 6;
    SendingIsLegal(apps, first, last);
    var times := SendingSafety.Sends(Execute(apps, Created(Buyer, first), Sending(first, last)).history);
    SendingSafety.ClosedHourHoldsSixExactly(times, 0);
    assert times[0] == 0 && times[0 + Steps.CODES_PER_HOUR] == 0 + HOUR;
  }

  // A change of the factors with no proof, on an account that holds one.

  /** The account once its request has added a key. */
  function Keyed(first: Secret, codes: set<string>): Account {
    var began := Requested(first).(enrolments := map[1 := KeyEnrolment(Steps.ENROLMENT_LIFETIME)]);
    Steps.ConfirmKey(began, REQUEST, true, 1, codes, 0).0
  }

  function Keying(first: Secret, codes: set<string>): seq<Step> {
    Requesting(first) + [Step.BeginKey(REQUEST, 0)] + [Step.ConfirmKey(REQUEST, true, 1, codes, 0)]
  }

  /** A request removes the key again that it added. */
  function Unproved(first: Secret, codes: set<string>): seq<Step> {
    Keying(first, codes) + [Step.RemoveFactor(REQUEST, 1, 0)]
  }

  lemma RequestedIsBare(first: Secret)
    ensures forall id: nat :: !FactorSeen(Requested(first).history, id)
    ensures forall code: string :: !RecoverySeen(Requested(first).history, code)
    ensures forall at: Time :: !StepUpSafety.ProvedAt(Requested(first).history, at)
  {
    var h := Created(Buyer, first).history;
    var opening, signedIn := Opening(first).history, SignedIn(first).history;
    forall id: nat ensures !FactorSeen(Requested(first).history, id) {
      OtherEventsAddNothing(Nothing, h.last, id, "");
      OtherEventsAddNothing(h, opening.last, id, "");
      OtherEventsAddNothing(opening, signedIn.last, id, "");
      OtherEventsAddNothing(signedIn, Requested(first).history.last, id, "");
    }
    forall code: string ensures !RecoverySeen(Requested(first).history, code) {
      OtherEventsAddNothing(Nothing, h.last, 0, code);
      OtherEventsAddNothing(h, opening.last, 0, code);
      OtherEventsAddNothing(opening, signedIn.last, 0, code);
      OtherEventsAddNothing(signedIn, Requested(first).history.last, 0, code);
    }
    forall at: Time ensures !StepUpSafety.ProvedAt(Requested(first).history, at) {
      assert !StepUpSafety.ProvedAt(Nothing, at);
      OtherEventsProveNothing(Nothing, h.last, at);
      OtherEventsProveNothing(h, opening.last, at);
      OtherEventsProveNothing(opening, signedIn.last, at);
      OtherEventsProveNothing(signedIn, Requested(first).history.last, at);
    }
  }

  lemma OtherEventsAddNothing(h: History, e: Event, id: nat, code: string)
    requires !e.FactorAdded? && !e.RecoveryIssued?
    ensures FactorSeen(Then(h, e), id) <==> FactorSeen(h, id)
    ensures RecoverySeen(Then(h, e), code) <==> RecoverySeen(h, code)
  {
  }

  lemma OtherEventsProveNothing(h: History, e: Event, at: Time)
    requires !e.Answered?
    ensures StepUpSafety.ProvedAt(Then(h, e), at) <==> StepUpSafety.ProvedAt(h, at)
  {
  }

  lemma KeyedHistory(first: Secret, codes: set<string>)
    ensures var changed := Then(Requested(first).history, FactorsChanged(REQUEST, 0));
            && Keyed(first, codes).history == Then(Then(changed, FactorAdded(1, Key)), RecoveryIssued(codes))
            && Keyed(first, codes).factors == [KeyFactor(1)] && Keyed(first, codes).kind == Buyer
  {
  }

  lemma KeyingIsLegal(apps: Totp.AppCodes, first: Secret, codes: set<string>)
    requires |codes| == RecoveryCode.COUNT
    ensures Legal(apps, Created(Buyer, first), Keying(first, codes))
    ensures Execute(apps, Created(Buyer, first), Keying(first, codes)) == Keyed(first, codes)
  {
    var s := Created(Buyer, first);
    RequestingIsLegal(apps, first);
    RequestedIsBare(first);
    assert Happened(Requested(first).history, HandedOut(REQUEST));
    OneMoreStep(apps, s, Requesting(first), Step.BeginKey(REQUEST, 0));
    var began := Requesting(first) + [Step.BeginKey(REQUEST, 0)];
    assert Execute(apps, s, began).enrolments == map[1 := KeyEnrolment(Steps.ENROLMENT_LIFETIME)];
    OneMoreStep(apps, s, began, Step.ConfirmKey(REQUEST, true, 1, codes, 0));
  }

  lemma KeyedIsUnproved(apps: Totp.AppCodes, first: Secret, codes: set<string>)
    ensures LatestTime(Keyed(first, codes).history) == 0
    ensures Happened(Keyed(first, codes).history, HandedOut(REQUEST))
    ensures forall at: Time :: !StepUpSafety.ProvedAt(Keyed(first, codes).history, at)
  {
    KeyedHistory(first, codes);
    RequestedIsBare(first);
    RequestingIsLegal(apps, first);
    var h := Requested(first).history;
    assert Happened(h, HandedOut(REQUEST));
    var changed := Then(h, FactorsChanged(REQUEST, 0));
    var added := Then(changed, FactorAdded(1, Key));
    assert LatestTime(changed) == 0 && LatestTime(added) == 0;
    assert Happened(changed, HandedOut(REQUEST)) && Happened(added, HandedOut(REQUEST));
    forall at: Time ensures !StepUpSafety.ProvedAt(Keyed(first, codes).history, at) {
      OtherEventsProveNothing(h, FactorsChanged(REQUEST, 0), at);
      OtherEventsProveNothing(changed, FactorAdded(1, Key), at);
      OtherEventsProveNothing(added, RecoveryIssued(codes), at);
    }
  }

  lemma RemovedAgain(s: Account)
    requires s.kind == Buyer && s.factors == [KeyFactor(1)]
    ensures var removed := Steps.RemoveFactor(s, REQUEST, 1, 0).0;
            removed.factors == []
            && removed.history == Then(Then(s.history, FactorsChanged(REQUEST, 0)), FactorRemoved(1))
  {
    assert s.factors[0] in s.factors;
    assert Steps.Without(s.factors, 1) == [];
  }

  /** The gate asks about the account as it was when the request was authenticated:
      one that holds a factor loses it with nothing ever proved. */
  lemma FactorsChangeWithoutProof(apps: Totp.AppCodes, first: Secret, codes: set<string>)
    requires |codes| == RecoveryCode.COUNT
    ensures Legal(apps, Created(Buyer, first), Unproved(first, codes))
    ensures Execute(apps, Created(Buyer, first), Keying(first, codes)).factors != []
    ensures var s := Execute(apps, Created(Buyer, first), Unproved(first, codes));
            s.factors == [] && forall at: Time :: !StepUpSafety.ProvedAt(s.history, at)
  {
    KeyingIsLegal(apps, first, codes);
    var keyed := Keyed(first, codes);
    assert keyed.kind == Buyer && keyed.factors == [KeyFactor(1)] by {
      KeyedHistory(first, codes);
    }
    KeyedIsUnproved(apps, first, codes);
    OneMoreStep(apps, Created(Buyer, first), Keying(first, codes), Step.RemoveFactor(REQUEST, 1, 0));
    RemovedAgain(keyed);
    var changed := Then(keyed.history, FactorsChanged(REQUEST, 0));
    forall at: Time ensures !StepUpSafety.ProvedAt(Then(changed, FactorRemoved(1)), at) {
      OtherEventsProveNothing(keyed.history, FactorsChanged(REQUEST, 0), at);
      OtherEventsProveNothing(changed, FactorRemoved(1), at);
    }
  }
}
