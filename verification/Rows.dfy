/** What the database holds about one account, and the history of what its
    transactions committed. Tokens, password hashes, codes and identifiers are
    values nobody held before; a session's row is known by its token's hash. */
module Rows {
  import opened Base
  import opened Bytes
  import opened Policy

  type Token = nat

  /** A stored password hash (credential.secret). */
  type Secret = nat

  /** A row of session. */
  datatype SessionRow = SessionRow(
    created: Time,
    seen: Time,
    revoked: Option<Time>,
    steppedUp: Option<Time>,
    emailConfirmed: Option<Time>)

  /** A row of sign_in_challenge; a step-up names its session and its action. */
  datatype ChallengeRow = ChallengeRow(
    session: Option<Token>,
    action: Option<Action>,
    attempts: nat,
    used: Option<Time>,
    expires: Time)

  /** A row of second_factor. An app's last step is 0 until one is accepted. */
  datatype Factor =
    | AppFactor(id: nat, secret: seq<Byte>, lastStep: nat)
    | KeyFactor(id: nat)
    | EmailFactor(id: nat)

  function MethodOf(f: Factor): Method {
    match f case AppFactor(_, _, _) => App case KeyFactor(_) => Key case EmailFactor(_) => Email
  }

  datatype Purpose = SignInCode | StepUpCode | EnrolCode

  /** A row of email_code; the hash of six digits is the six digits. */
  datatype CodeRow = CodeRow(
    id: nat,
    purpose: Purpose,
    code: string,
    created: Time,
    expires: Time,
    attempts: nat,
    used: Option<Time>)

  /** A row of factor_enrolment. */
  datatype Enrolment =
    | AppEnrolment(secret: seq<Byte>, expires: Time)
    | KeyEnrolment(expires: Time)

  /** How a session came to be opened. */
  datatype How =
    | ByPassword(read: Secret)
    | BySecondStep(challenge: Token, m: Method)
    | ByChange(former: Session)

  /** What a committed transaction did. */
  datatype Event =
    | Stored(secret: Secret, change: bool)
    | Read(secret: Secret)
    | ChangeBegun(session: Session, secret: Secret, at: Time)
    | HandedOut(session: Session)
    | Opened(token: Token, how: How)
    | ChallengeOpened(token: Token, stepUp: bool)
    | Answered(token: Token, m: Method, right: bool, counts: bool, at: Time)
    | Noticed
    | LockNoticed
    | CodeSent(id: nat, purpose: Purpose, at: Time)
    | SessionEnded(token: Token, at: Time)
    | Compared(id: nat, purpose: Purpose, right: bool, at: Time)
    | FactorAdded(id: nat, m: Method)
    | FactorRemoved(id: nat)
    | AppAccepted(id: nat, step: nat, at: Time)
    | RecoveryIssued(codes: set<string>)
    | RecoveryAccepted(code: string)
    | FactorsChanged(session: Session, at: Time)

  /** What was committed, in order. */
  datatype History = Nothing | Then(past: History, last: Event)

  /** Whether an event is in a history. */
  ghost predicate Happened(h: History, e: Event) {
    h.Then? && (h.last == e || Happened(h.past, e))
  }

  /** When an event was, for those that say. */
  function TimeOf(e: Event): Time {
    match e
    case ChangeBegun(_, _, at) => at
    case Answered(_, _, _, _, at) => at
    case CodeSent(_, _, at) => at
    case SessionEnded(_, at) => at
    case Compared(_, _, _, at) => at
    case AppAccepted(_, _, at) => at
    case FactorsChanged(_, at) => at
    case _ => 0
  }

  /** The latest moment a history tells of: the clock is there or later. */
  function LatestTime(h: History): Time {
    if h.Nothing? then 0
    else if TimeOf(h.last) > LatestTime(h.past) then TimeOf(h.last) else LatestTime(h.past)
  }

  /** Everything the database holds about one account. Recovery codes and codes
      by e-mail are the account's own rows; no failure row is a count of zero. */
  datatype Account = Account(
    kind: Kind,
    secret: Secret,
    sessions: map<Token, SessionRow>,
    challenges: map<Token, ChallengeRow>,
    factors: seq<Factor>,
    recovery: map<string, Option<Time>>,
    codes: seq<CodeRow>,
    failures: nat,
    enrolments: map<Token, Enrolment>,
    history: History)

  /** An account just created, with its first password. */
  function Created(kind: Kind, secret: Secret): Account {
    Account(kind, secret, map[], map[], [], map[], [], 0, map[], Then(Nothing, Stored(secret, false)))
  }

  function Log(s: Account, e: Event): Account {
    s.(history := Then(s.history, e))
  }
}
