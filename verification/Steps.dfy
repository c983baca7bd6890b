/** What each committed transaction does to an account's rows: the
    specification that the service's methods are proved to meet. */
module Steps {
  import opened Base
  import opened Bytes
  import opened Policy
  import opened Rows
  import Totp
  import RecoveryCode

  const CHALLENGE_LIFETIME: nat := 5 * MINUTE
  const CHALLENGE_ATTEMPTS: nat := 5
  const FAILURES_NOTIFIED: nat := 10
  const FAILURES_LOCKED: nat := 100
  const CODE_LIFETIME: nat := 10 * MINUTE
  const CODE_ATTEMPTS: nat := 5
  const CODE_EVERY: nat := MINUTE
  const CODES_PER_HOUR: nat := 5
  const ENROLMENT_LIFETIME: nat := 15 * MINUTE
  const SESSION_IDLE: nat := 30 * DAY
  const SESSION_LIFETIME: nat := 90 * DAY
  const TOUCH_EVERY: nat := HOUR

  /** What a flow answers: done, or why not. */
  datatype Reply =
    | Done
    | SecondStep
    | CodesShown
    | Credentials
    | StepUpNeeded
    | ChallengeInvalid
    | ChallengeExhausted
    | CodeWrong
    | KeyRefused
    | CodesLocked
    | CodeTooSoon
    | CodeTooMany
    | NotPermitted
    | NoSecondFactor
    | AlreadyEnrolled
    | NoEnrolment
    | FactorUnknown
    | FactorRequired
    | SessionInvalid

  /** What a person gives at the second step. Whether a key's answer proves the
      key is what the WebAuthn library decided. */
  datatype Answer = Answer(m: Method, typed: string, keyProves: bool)

  // Sessions (internal/identity/store.go).

  function InsertSession(s: Account, token: Token, how: How, now: Time): Account {
    Log(s.(sessions := s.sessions[token := SessionRow(now, now, None, None, None)]), Opened(token, how))
  }

  function Revoke(s: Account, token: Token, now: Time): Account {
    if token in s.sessions && s.sessions[token].revoked.None? then
      Log(s.(sessions := s.sessions[token := s.sessions[token].(revoked := Some(now))]), SessionEnded(token, now))
    else s
  }

  function Revoked(row: SessionRow, now: Time): SessionRow {
    if row.revoked.None? then row.(revoked := Some(now)) else row
  }

  function RevokeAll(s: Account, now: Time): Account {
    s.(sessions := map t | t in s.sessions :: Revoked(s.sessions[t], now))
  }

  function MarkSteppedUp(s: Account, token: Token, at: Time): Account {
    if token in s.sessions then
      s.(sessions := s.sessions[token := s.sessions[token].(steppedUp := Some(at))])
    else s
  }

  function MarkEmailConfirmed(s: Account, token: Token, at: Time): Account {
    if token in s.sessions then
      s.(sessions := s.sessions[token := s.sessions[token].(emailConfirmed := Some(at))])
    else s
  }

  /** The session a request carries, when its token opens a live one. */
  function SessionOf(s: Account, token: Token, now: Time): Option<Session> {
    if token in s.sessions
       && var row := s.sessions[token];
          row.revoked.None? && now <= row.seen + SESSION_IDLE && now <= row.created + SESSION_LIFETIME
    then Some(Session(token, s.factors != [], s.sessions[token].steppedUp, s.sessions[token].emailConfirmed))
    else None
  }

  function Authenticate(s: Account, token: Token, now: Time): (Account, Option<Session>) {
    match SessionOf(s, token, now)
    case None => (s, None)
    case Some(session) =>
      var row := s.sessions[token];
      var touched := if now > row.seen + TOUCH_EVERY then s.sessions[token := row.(seen := now)] else s.sessions;
      (Log(s.(sessions := touched), HandedOut(session)), Some(session))
  }

  // Challenges (internal/identity/challengestore.go).

  predicate Spent(c: ChallengeRow, now: Time) { c.expires <= now || c.used.Some? }

  predicate Answerable(c: ChallengeRow, now: Time) {
    c.used.None? && now < c.expires && c.attempts < CHALLENGE_ATTEMPTS
  }

  function InsertChallenge(s: Account, token: Token, session: Option<Token>, action: Option<Action>, now: Time): Account
  {
    var kept := map t | t in s.challenges && !Spent(s.challenges[t], now) :: s.challenges[t];
    Log(s.(challenges := kept[token := ChallengeRow(session, action, 0, None, now + CHALLENGE_LIFETIME)]),
        ChallengeOpened(token, session.Some?))
  }

  function EndSignIns(s: Account): Account {
    s.(challenges := map t | t in s.challenges && s.challenges[t].session.Some? :: s.challenges[t])
  }

  /** The challenge a token opened, when it can still be answered by this session
      or, at sign-in, by none. */
  function Find(s: Account, token: Token, session: Option<Token>, now: Time): (r: Option<ChallengeRow>)
    ensures r.Some? ==> token in s.challenges && r.value == s.challenges[token] && Answerable(r.value, now)
                        && r.value.session == session
  {
    if token in s.challenges && Answerable(s.challenges[token], now) && s.challenges[token].session == session
    then Some(s.challenges[token]) else None
  }

  function Attempted(c: ChallengeRow, now: Time): ChallengeRow {
    c.(attempts := c.attempts + 1, used := if c.attempts + 1 >= CHALLENGE_ATTEMPTS then Some(now) else c.used)
  }

  /** What a challenge accepts. */
  datatype Offer = Offer(methods: set<Method>, recovery: bool, emailFactor: bool, codesLocked: bool)

  predicate Locks(codesLocked: bool, m: Method) { codesLocked && (m == App || m == Email) }

  predicate Has(factors: seq<Factor>, m: Method) { exists f :: f in factors && MethodOf(f) == m }

  function MethodsOf(s: Account): (r: set<Method>)
    ensures forall m :: m in r <==> Has(s.factors, m)
  {
    set f | f in s.factors :: MethodOf(f)
  }

  function Offers(s: Account, action: Option<Action>): Offer {
    var codesLocked := s.failures >= FAILURES_LOCKED;
    var own := set m | m in MethodsOf(s) && Permits(s.kind, m, Verify) && !Locks(codesLocked, m);
    var address := action.Some? && StepUpFor(s.kind, action.value, s.factors != []).email && !codesLocked;
    Offer(own + (if address then {Email} else {}),
          exists c :: c in s.recovery && s.recovery[c].None?,
          Email in MethodsOf(s),
          codesLocked)
  }

  /** Whether an answer with m is an answer with one of the account's second
      factors, which the run of failures counts. */
  predicate IsSecondFactor(o: Offer, m: Method) {
    match m case Email => o.emailFactor case UnknownMethod => false case _ => true
  }

  // Codes by e-mail (internal/identity/emailcode.go).

  function PurposeOf(session: Option<Token>): Purpose {
    if session.None? then SignInCode else StepUpCode
  }

  /** emailCodeHash: what a typed code is compared as, when it is six digits. */
  function TypedCode(typed: string): Option<string> {
    var code := StripSpaces(typed);
    if |code| == 6 && AllDigits(code) then Some(code) else None
  }

  predicate LiveCode(row: CodeRow, purpose: Purpose, now: Time) {
    row.purpose == purpose && row.used.None? && now < row.expires && row.attempts < CODE_ATTEMPTS
  }

  /** The last live code of a purpose. */
  function FindCode(codes: seq<CodeRow>, purpose: Purpose, now: Time): (r: Option<nat>)
    ensures r.Some? ==> r.value < |codes| && LiveCode(codes[r.value], purpose, now)
    ensures forall i :: 0 <= i < |codes| && LiveCode(codes[i], purpose, now) ==> r.Some? && i <= r.value
  {
    if codes == [] then None
    else if LiveCode(codes[|codes| - 1], purpose, now) then Some(|codes| - 1)
    else FindCode(codes[..|codes| - 1], purpose, now)
  }

  function UseCode(s: Account, purpose: Purpose, typed: string, now: Time): (Account, bool) {
    match FindCode(s.codes, purpose, now)
    case None => (s, false)
    case Some(i) =>
      var row := s.codes[i];
      if TypedCode(typed) == Some(row.code) then
        (Log(s.(codes := s.codes[i := row.(used := Some(now))]), Compared(row.id, purpose, true, now)), true)
      else
        (Log(s.(codes := s.codes[i := row.(attempts := row.attempts + 1)]), Compared(row.id, purpose, false, now)),
         false)
  }

  /** How many codes were sent after a moment. */
  function SentSince(codes: seq<CodeRow>, since: int): nat {
    if codes == [] then 0
    else SentSince(codes[..|codes| - 1], since) + if codes[|codes| - 1].created > since then 1 else 0
  }

  /** The rows the hourly limit still counts. */
  function Pruned(codes: seq<CodeRow>, now: Time): (r: seq<CodeRow>)
    ensures |r| <= |codes|
  {
    if codes == [] then []
    else
      Pruned(codes[..|codes| - 1], now) + if codes[|codes| - 1].created > now - HOUR then [codes[|codes| - 1]] else []
  }

  /** The earlier codes of a purpose, spent because a new one is sent. */
  function Retired(codes: seq<CodeRow>, purpose: Purpose, now: Time): (r: seq<CodeRow>)
    ensures |r| == |codes|
    ensures forall i :: 0 <= i < |codes| ==> r[i] == Retire(codes[i], purpose, now)
  {
    seq(|codes|, i requires 0 <= i < |codes| => Retire(codes[i], purpose, now))
  }

  function Retire(row: CodeRow, purpose: Purpose, now: Time): CodeRow {
    if row.purpose == purpose && row.used.None? then row.(used := Some(now)) else row
  }

  function InsertCode(s: Account, purpose: Purpose, id: nat, code: string, now: Time): Account {
    var row := CodeRow(id, purpose, code, now, now + CODE_LIFETIME, 0, None);
    Log(s.(codes := Retired(Pruned(s.codes, now), purpose, now) + [row]), CodeSent(id, purpose, now))
  }

  function SendCode(s: Account, purpose: Purpose, id: nat, code: string, now: Time): (Account, Reply) {
    if SentSince(s.codes, now - CODE_EVERY) > 0 then (s, CodeTooSoon)
    else if SentSince(s.codes, now - HOUR) >= CODES_PER_HOUR then (s, CodeTooMany)
    else (InsertCode(s, purpose, id, code, now), Done)
  }

  // Apps and recovery codes.

  /** The first app whose code this is, and the step it is the code of. */
  function FindApp(apps: Totp.AppCodes, factors: seq<Factor>, typed: string, now: Time): (r: Option<(nat, nat)>)
    ensures r.Some? ==> r.value.0 < |factors| && factors[r.value.0].AppFactor?
                        && factors[r.value.0].lastStep < r.value.1
                        && Totp.StepOf(now) - 1 <= r.value.1 <= Totp.StepOf(now) + 1
  {
    FindAppFrom(apps, factors, 0, typed, now)
  }

  function FindAppFrom(apps: Totp.AppCodes, factors: seq<Factor>, i: nat, typed: string,
                       now: Time): (r: Option<(nat, nat)>)
    requires i <= |factors|
    ensures r.Some? ==> i <= r.value.0 < |factors| && factors[r.value.0].AppFactor?
                        && factors[r.value.0].lastStep < r.value.1
                        && Totp.StepOf(now) - 1 <= r.value.1 <= Totp.StepOf(now) + 1
    decreases |factors| - i
  {
    if i == |factors| then None
    else
      var step :=
        if factors[i].AppFactor? then Totp.Match(apps, factors[i].secret, typed, now, factors[i].lastStep) else None;
      if step.Some? then Some((i, step.value)) else FindAppFrom(apps, factors, i + 1, typed, now)
  }

  function CheckApp(apps: Totp.AppCodes, s: Account, typed: string, now: Time): (Account, bool) {
    match FindApp(apps, s.factors, typed, now)
    case None => (s, false)
    case Some((i, step)) =>
      (Log(s.(factors := s.factors[i := s.factors[i].(lastStep := step)]), AppAccepted(s.factors[i].id, step, now)),
       true)
  }

  function UseRecovery(s: Account, typed: string, now: Time): (Account, bool) {
    match RecoveryCode.Canonical(typed)
    case None => (s, false)
    case Some(code) =>
      if code in s.recovery && s.recovery[code].None? then
        (Log(s.(recovery := s.recovery[code := Some(now)]), RecoveryAccepted(code)), true)
      else (s, false)
  }

  function ReplaceRecovery(s: Account, codes: set<string>): Account {
    Log(s.(recovery := map c | c in codes :: None), RecoveryIssued(codes))
  }

  // Answers (internal/identity/challenge.go, failures.go).

  /** checkOffered: whether an answer proves what the challenge offered, spending
      what it used. A method that is not offered is refused unchecked. */
  function Check(apps: Totp.AppCodes, s: Account, session: Option<Token>, o: Offer, a: Answer,
                 now: Time): (Account, bool)
  {
    if a.m == Recovery then (if o.recovery then UseRecovery(s, a.typed, now) else (s, false))
    else if a.m !in o.methods then (s, false)
    else match a.m
      case App => CheckApp(apps, s, a.typed, now)
      case Email => UseCode(s, PurposeOf(session), a.typed, now)
      case Key => (s, a.keyProves)
      case _ => (s, false)
  }

  /** Counts a failed answer, and tells the owner at exactly two counts. */
  function Failed(s: Account): Account {
    var counted := s.(failures := s.failures + 1);
    if counted.failures == FAILURES_NOTIFIED then Log(counted, Noticed)
    else if counted.failures == FAILURES_LOCKED then Log(counted, LockNoticed)
    else counted
  }

  function Wrong(s: Account, token: Token, o: Offer, m: Method, now: Time): Account
    requires token in s.challenges
  {
    var attempted := s.(challenges := s.challenges[token := Attempted(s.challenges[token], now)]);
    var counts := IsSecondFactor(o, m);
    var logged := Log(attempted, Answered(token, m, false, counts, now));
    if counts then Failed(logged) else logged
  }

  function WrongReply(ch: ChallengeRow, o: Offer, m: Method): Reply {
    if ch.attempts + 1 >= CHALLENGE_ATTEMPTS then ChallengeExhausted
    else if Locks(o.codesLocked, m) then CodesLocked
    else CodeWrong
  }

  function Right(s: Account, token: Token, o: Offer, m: Method, now: Time): Account
    requires token in s.challenges
  {
    var spent := s.(challenges := s.challenges[token := s.challenges[token].(used := Some(now))]);
    Log(spent, Answered(token, m, true, IsSecondFactor(o, m), now))
  }

  /** A right answer with a second factor ends the run of failures. */
  function EndRun(s: Account, o: Offer, m: Method): Account {
    if IsSecondFactor(o, m) then s.(failures := 0) else s
  }

  lemma CheckKeepsChallenges(apps: Totp.AppCodes, s: Account, session: Option<Token>, o: Offer, a: Answer, now: Time)
    ensures Check(apps, s, session, o, a, now).0.challenges == s.challenges
  {
  }

  /** answerChallenge up to what its caller does with a right answer: whether the
      answer was right, and the rows with the challenge spent or the attempt
      counted. */
  function AnswerChallenge(apps: Totp.AppCodes, s: Account, token: Token, session: Option<Token>, a: Answer,
                           now: Time): (Account, bool)
    requires token in s.challenges
  {
    var o := Offers(s, s.challenges[token].action);
    var checked := Check(apps, s, session, o, a, now);
    CheckKeepsChallenges(apps, s, session, o, a, now);
    if checked.1 then (Right(checked.0, token, o, a.m, now), true)
    else (Wrong(checked.0, token, o, a.m, now), false)
  }

  function CompleteSignIn(apps: Totp.AppCodes, s: Account, token: Token, a: Answer, next: Token,
                          now: Time): (Account, Reply)
  {
    match Find(s, token, None, now)
    case None => (s, ChallengeInvalid)
    case Some(ch) =>
      var o := Offers(s, ch.action);
      var answered := AnswerChallenge(apps, s, token, None, a, now);
      if !answered.1 then (answered.0, WrongReply(ch, o, a.m))
      else
        var signedIn := InsertSession(answered.0, next, BySecondStep(token, a.m), now);
        (EndRun(MarkSteppedUp(signedIn, next, now), o, a.m), Done)
  }

  function StepUp(apps: Totp.AppCodes, s: Account, session: Session, token: Token, a: Answer,
                  now: Time): (Account, Reply)
  {
    match Find(s, token, Some(session.id), now)
    case None => (s, ChallengeInvalid)
    case Some(ch) =>
      var o := Offers(s, ch.action);
      var answered := AnswerChallenge(apps, s, token, Some(session.id), a, now);
      if !answered.1 then (answered.0, WrongReply(ch, o, a.m))
      else
        var marked :=
          if a.m == Email && Email !in MethodsOf(answered.0) then MarkEmailConfirmed(answered.0, session.id, now)
          else MarkSteppedUp(answered.0, session.id, now);
        (EndRun(marked, o, a.m), Done)
  }

  function BeginStepUp(s: Account, session: Session, action: Action, next: Token, now: Time): (Account, Reply) {
    var o := Offers(s, Some(action));
    if o.methods == {} && !o.recovery && !o.codesLocked then (s, NoSecondFactor)
    else (InsertChallenge(s, next, Some(session.id), Some(action), now), Done)
  }

  function SendChallengeCode(s: Account, token: Token, session: Option<Token>, id: nat, code: string,
                             now: Time): (Account, Reply)
  {
    match Find(s, token, session, now)
    case None => (s, ChallengeInvalid)
    case Some(ch) =>
      var o := Offers(s, ch.action);
      if Email !in o.methods then (s, if o.codesLocked then CodesLocked else NotPermitted)
      else SendCode(s, PurposeOf(session), id, code, now)
  }

  // Passwords (internal/identity/identity.go).

  function ReadPassword(s: Account): Account { Log(s, Read(s.secret)) }

  /** The second transaction of SignIn, for a password verified against read; a
      hash made with other parameters is replaced by rehash. */
  function FinishSignIn(s: Account, read: Secret, rehash: Option<Secret>, next: Token, now: Time): (Account, Reply) {
    if s.secret != read then (s, Credentials)
    else
      var kept := if rehash.Some? then Log(s.(secret := rehash.value), Stored(rehash.value, false)) else s;
      if s.factors != [] then (InsertChallenge(kept, next, None, None, now), SecondStep)
      else (InsertSession(kept, next, ByPassword(read), now), Done)
  }

  /** The first transaction of ChangePassword, once its gate is passed. */
  function BeginChange(s: Account, session: Session, now: Time): (Account, Reply) {
    if NeedsStepUp(s.kind, session, Password, now) then (s, StepUpNeeded)
    else (Log(s, ChangeBegun(session, s.secret, now)), Done)
  }

  /** The second transaction of ChangePassword, for a current password verified
      against read and a new one hashed to secret. */
  function FinishChange(s: Account, session: Session, read: Secret, secret: Secret, next: Token,
                        now: Time): (Account, Reply)
  {
    if s.secret != read then (s, Credentials)
    else
      var ended := EndSignIns(s);
      var changed := RevokeAll(Log(ended.(secret := secret), Stored(secret, true)), now);
      var signedIn := InsertSession(changed, next, ByChange(session), now);
      var kept := if session.steppedUp.Some? then MarkSteppedUp(signedIn, next, session.steppedUp.value) else signedIn;
      (kept.(failures := 0), Done)
  }

  // Factors (internal/identity/factors.go).

  predicate Gated(s: Account, session: Session, now: Time) { NeedsStepUp(s.kind, session, Factors, now) }

  function BeginApp(s: Account, session: Session, secret: seq<Byte>, now: Time): (Account, Reply) {
    if !Permits(s.kind, App, Enrol) then (s, NotPermitted)
    else if Gated(s, session, now) then (s, StepUpNeeded)
    else (s.(enrolments := s.enrolments[session.id := AppEnrolment(secret, now + ENROLMENT_LIFETIME)]), Done)
  }

  function BeginKey(s: Account, session: Session, now: Time): (Account, Reply) {
    if !Permits(s.kind, Key, Enrol) then (s, NotPermitted)
    else if Gated(s, session, now) then (s, StepUpNeeded)
    else (s.(enrolments := s.enrolments[session.id := KeyEnrolment(now + ENROLMENT_LIFETIME)]), Done)
  }

  function AddFactor(s: Account, f: Factor): Account {
    Log(s.(factors := s.factors + [f]), FactorAdded(f.id, MethodOf(f)))
  }

  /** The first recovery set, for an account that holds no codes. */
  function FirstSet(s: Account, codes: set<string>): (Account, Reply) {
    if s.recovery != map[] then (s, Done) else (ReplaceRecovery(s, codes), CodesShown)
  }

  function ConfirmApp(apps: Totp.AppCodes, s: Account, session: Session, typed: string, id: nat, codes: set<string>,
                      now: Time): (Account, Reply)
  {
    if !Permits(s.kind, App, Enrol) then (s, NotPermitted)
    else if Gated(s, session, now) then (s, StepUpNeeded)
    else if !(session.id in s.enrolments && s.enrolments[session.id].AppEnrolment?
              && now < s.enrolments[session.id].expires)
    then (s, NoEnrolment)
    else
      var secret := s.enrolments[session.id].secret;
      match Totp.Match(apps, secret, typed, now, 0)
      case None => (s, CodeWrong)
      case Some(step) =>
        var added := AddFactor(Log(s, FactorsChanged(session, now)), AppFactor(id, secret, step));
        var accepted := Log(added, AppAccepted(id, step, now));
        FirstSet(accepted.(enrolments := accepted.enrolments - {session.id}), codes)
  }

  function ConfirmKey(s: Account, session: Session, keyProves: bool, id: nat, codes: set<string>,
                      now: Time): (Account, Reply)
  {
    if !Permits(s.kind, Key, Enrol) then (s, NotPermitted)
    else if Gated(s, session, now) then (s, StepUpNeeded)
    else if !(session.id in s.enrolments && s.enrolments[session.id].KeyEnrolment?
              && now < s.enrolments[session.id].expires)
    then (s, NoEnrolment)
    else if !keyProves then (s, KeyRefused)
    else
      var added := AddFactor(Log(s, FactorsChanged(session, now)), KeyFactor(id));
      FirstSet(added.(enrolments := added.enrolments - {session.id}), codes)
  }

  function BeginEmail(s: Account, session: Session, id: nat, code: string, now: Time): (Account, Reply) {
    if !Permits(s.kind, Email, Enrol) then (s, NotPermitted)
    else if Gated(s, session, now) then (s, StepUpNeeded)
    else if Email in MethodsOf(s) then (s, AlreadyEnrolled)
    else SendCode(s, EnrolCode, id, code, now)
  }

  function ConfirmEmail(s: Account, session: Session, typed: string, id: nat, now: Time): (Account, Reply) {
    if !Permits(s.kind, Email, Enrol) then (s, NotPermitted)
    else if Gated(s, session, now) then (s, StepUpNeeded)
    else if Email in MethodsOf(s) then (s, AlreadyEnrolled)
    else
      var used := UseCode(s, EnrolCode, typed, now);
      if !used.1 then (used.0, CodeWrong)
      else (AddFactor(Log(used.0, FactorsChanged(session, now)), EmailFactor(id)), Done)
  }

  /** The factors without the one of an identifier. */
  function Without(factors: seq<Factor>, id: nat): (r: seq<Factor>)
    ensures forall f :: f in r <==> f in factors && f.id != id
    ensures |r| <= |factors|
  {
    if factors == [] then []
    else (if factors[0].id == id then [] else [factors[0]]) + Without(factors[1..], id)
  }

  /** Removing the last factor ends 2FA and deletes the recovery codes, unless
      the account must keep one: then nothing is committed. */
  function RemoveFactor(s: Account, session: Session, id: nat, now: Time): (Account, Reply) {
    if Gated(s, session, now) then (s, StepUpNeeded)
    else if forall f :: f in s.factors ==> f.id != id then (s, FactorUnknown)
    else
      var left := Without(s.factors, id);
      if left == [] && Required(s.kind) then (s, FactorRequired)
      else
        var removed := Log(Log(s.(factors := left), FactorsChanged(session, now)), FactorRemoved(id));
        (if left == [] then removed.(recovery := map[]) else removed, Done)
  }

  function Regenerate(s: Account, session: Session, codes: set<string>, now: Time): (Account, Reply) {
    if Gated(s, session, now) then (s, StepUpNeeded)
    else if s.factors == [] then (s, NoSecondFactor)
    else (ReplaceRecovery(Log(s, FactorsChanged(session, now)), codes), CodesShown)
  }
}
