/** Section 18.2 of the requirements as every flow asks it
    (internal/identity/factorpolicy.go, internal/identity/stepup.go). */
module Policy {
  import opened Base

  /** Whose account it is. Unknown is any kind the policy does not name. */
  datatype Kind = Buyer | Staff | Store | UnknownKind

  /** How a second step is answered; Recovery is not a kind of second factor, and an
      answer may name a method that nothing knows. */
  datatype Method = Key | App | Email | Recovery | UnknownMethod

  predicate IsFactorMethod(m: Method) { m == Key || m == App || m == Email }

  datatype Use = Enrol | Verify | UnknownUse

  datatype Action = Password | Factors | AddCard | ChangeEmail | StoreAction | UnknownAction

  /** What an action asks of a session: a recent step-up, and whether a code to
      the account's own address answers it. */
  datatype Asks = Asks(asked: bool, email: bool)

  predicate Permits(kind: Kind, m: Method, use: Use) {
    IsFactorMethod(m) && use != UnknownUse &&
    match kind
    case Buyer => true
    case Store => true
    case Staff => m != Email
    case UnknownKind => false
  }

  predicate Required(kind: Kind) { kind != Buyer && kind != Store }

  function StepUpFor(kind: Kind, action: Action, hasFactor: bool): Asks {
    if action == Password || action == Factors then
      Asks(hasFactor || (Required(kind) && kind != Staff), false)
    else
      Asks(true, Permits(kind, Email, Verify))
  }

  /** A session as an authenticated request carries it: a copy of what its row
      and its account said when the request was authenticated. */
  datatype Session = Session(
    id: nat,
    secondFactor: bool,
    steppedUp: Option<Time>,
    emailConfirmed: Option<Time>)

  const STEP_UP_LIFETIME: nat := 10 * MINUTE

  predicate Recent(at: Option<Time>, now: Time) {
    at.Some? && now < at.value + STEP_UP_LIFETIME
  }

  predicate NeedsStepUp(kind: Kind, session: Session, action: Action, now: Time) {
    var asks := StepUpFor(kind, action, session.secondFactor);
    asks.asked && !Recent(session.steppedUp, now) && (!asks.email || !Recent(session.emailConfirmed, now))
  }

  /** A code to an address that is no factor never opens the way to the
      password or the factors: whatever it proved and whenever, an account that
      has 2FA passes only with a second factor proved less than ten minutes ago. */
  lemma OnlyAFactorOpensPasswordAndFactors(kind: Kind, session: Session, action: Action, now: Time)
    requires action == Password || action == Factors
    requires session.secondFactor
    ensures !NeedsStepUp(kind, session, action, now)
       <==> session.steppedUp.Some? && now < session.steppedUp.value + 10 * MINUTE
    ensures forall confirmed: Option<Time> ::
              NeedsStepUp(kind, session.(emailConfirmed := confirmed), action, now)
              == NeedsStepUp(kind, session, action, now)
  {
  }

  /** Staff never use an e-mail code: not to enrol, not to answer, and no action
      of theirs accepts one. */
  lemma StaffNeverUseEmail(kind: Kind, use: Use, action: Action, hasFactor: bool)
    requires Required(kind)
    ensures !Permits(kind, Email, use)
    ensures !StepUpFor(kind, action, hasFactor).email
  {
  }

  /** Which methods an account may have and use: any kind that the policy knows may an app
      or a key, and all but staff a code by e-mail; for no other use. */
  lemma PermitsExactly(kind: Kind, m: Method, use: Use)
    ensures Permits(kind, m, use)
       <==> (use == Enrol || use == Verify)
            && ((m == Key && kind in {Buyer, Staff, Store}) || (m == App && kind in {Buyer, Staff, Store})
                || (m == Email && kind in {Buyer, Store}))
  {
  }

  /** Every other action asks for a proof, and of those that may use e-mail takes either. */
  lemma OtherActionsTakeEither(kind: Kind, session: Session, action: Action, now: Time)
    requires action != Password && action != Factors
    ensures !NeedsStepUp(kind, session, action, now)
       <==> (session.steppedUp.Some? && now < session.steppedUp.value + 10 * MINUTE)
            || ((kind == Buyer || kind == Store)
                && session.emailConfirmed.Some? && now < session.emailConfirmed.value + 10 * MINUTE)
  {
  }

  /** The order the second step offers methods in. */
  function Rank(m: Method): nat {
    match m case Key => 0 case App => 1 case Email => 2 case _ => 3
  }

  predicate StrongestFirst(methods: seq<Method>) {
    forall i, j :: 0 <= i < j < |methods| ==> Rank(methods[i]) < Rank(methods[j])
  }

  /** A key comes before all others and e-mail after them. */
  predicate NoWeaker(m: Method, n: Method) { m != Email && n != Key }

  lemma KeysFirstEmailLast(methods: seq<Method>)
    requires StrongestFirst(methods) && forall m :: m in methods ==> IsFactorMethod(m)
    ensures forall i, j :: 0 <= i < j < |methods| ==> NoWeaker(methods[i], methods[j])
  {
    forall i, j | 0 <= i < j < |methods| ensures NoWeaker(methods[i], methods[j]) {
      assert methods[i] in methods && methods[j] in methods && Rank(methods[i]) < Rank(methods[j]);
    }
  }

  /** Strongest returns the methods given, each once, strongest first. */
  method Strongest(methods: seq<Method>) returns (ordered: seq<Method>)
    ensures forall m :: m in ordered <==> m in methods && IsFactorMethod(m)
    ensures StrongestFirst(ordered)
    ensures forall i, j :: 0 <= i < j < |ordered| ==> NoWeaker(ordered[i], ordered[j])
  {
    var strength := [Key, App, Email];
    ordered := [];
    for i := 0 to |strength|
      invariant forall m :: m in ordered <==> m in methods && m in strength[..i]
      invariant forall m :: m in ordered ==> Rank(m) < i
      invariant StrongestFirst(ordered)
    {
      if strength[i] in methods {
        ordered := ordered + [strength[i]];
      }
    }
    assert strength[..|strength|] == strength;
    assert forall m: Method :: m in strength <==> IsFactorMethod(m) by {
      assert strength[0] == Key && strength[1] == App && strength[2] == Email;
    }
    KeysFirstEmailLast(ordered);
  }
}
