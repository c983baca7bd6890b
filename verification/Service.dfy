/** The service's transactions on one account, statement by statement as they
    update its rows, each proved to do what its step specifies. A transaction is
    one method: what an error returned from it had changed is put back. */
module Service {
  import opened Base
  import opened Bytes
  import opened Policy
  import opened Rows
  import Steps
  import Totp
  import RecoveryCode

  /** What a challenge accepts, the methods in the order its page shows them. */
  datatype Offered = Offered(methods: seq<Method>, recovery: bool, emailFactor: bool, codesLocked: bool)

  function SetOf<T(==)>(items: seq<T>): set<T> { set x | x in items }

  ghost function OfferOf(o: Offered): Steps.Offer {
    Steps.Offer(SetOf(o.methods), o.recovery, o.emailFactor, o.codesLocked)
  }

  function Left(recovery: map<string, Option<Time>>): set<string> {
    set code | code in recovery && recovery[code].None?
  }

  class AccountRows {
    const kind: Kind
    /** The HMAC of the one-time codes. */
    const mac: Totp.Mac
    var secret: Secret
    var sessions: map<Token, SessionRow>
    var challenges: map<Token, ChallengeRow>
    var factors: seq<Factor>
    var recovery: map<string, Option<Time>>
    var codes: seq<CodeRow>
    var failures: nat
    var enrolments: map<Token, Enrolment>
    ghost var history: History

    constructor (kind: Kind, mac: Totp.Mac, secret: Secret)
      ensures Rows() == Created(kind, secret) && this.mac == mac
    {
      this.kind, this.mac, this.secret := kind, mac, secret;
      sessions, challenges, factors, recovery := map[], map[], [], map[];
      codes, failures, enrolments := [], 0, map[];
      history := Then(Nothing, Stored(secret, false));
    }

    ghost function Rows(): Account
      reads this
    {
      Account(kind, secret, sessions, challenges, factors, recovery, codes, failures, enrolments, history)
    }

    /** What an authenticator app with a secret shows at a step. */
    function Apps(): Totp.AppCodes { Totp.CodesOf(mac) }

    lemma AppsShowSixDigits()
      ensures forall key: seq<Byte>, step: nat :: Totp.SixDigits(Apps()(key, step))
    {
      forall key: seq<Byte>, step: nat ensures Totp.SixDigits(Apps()(key, step)) {
        Totp.CodesAreSixDigits(mac, key, step);
      }
    }

    // Sessions.

    method InsertSession(token: Token, how: How, now: Time)
      modifies `sessions, `history
      ensures Rows() == Steps.InsertSession(old(Rows()), token, how, now)
    {
      sessions := sessions[token := SessionRow(now, now, None, None, None)];
      history := Then(history, Opened(token, how));
    }

    method MarkSteppedUp(session: Token, at: Time)
      modifies `sessions
      ensures Rows() == Steps.MarkSteppedUp(old(Rows()), session, at)
    {
      if session in sessions {
        sessions := sessions[session := sessions[session].(steppedUp := Some(at))];
      }
    }

    method MarkEmailConfirmed(session: Token, at: Time)
      modifies `sessions
      ensures Rows() == Steps.MarkEmailConfirmed(old(Rows()), session, at)
    {
      if session in sessions {
        sessions := sessions[session := sessions[session].(emailConfirmed := Some(at))];
      }
    }

    method RevokeSessions(now: Time)
      modifies `sessions
      ensures Rows() == Steps.RevokeAll(old(Rows()), now)
    {
      sessions := map t | t in sessions :: Steps.Revoked(sessions[t], now);
    }

    /** end: signing out, or a session replaced by signing in again. */
    method End(token: Token, now: Time)
      modifies `sessions, `history
      ensures Rows() == Steps.Revoke(old(Rows()), token, now)
    {
      if token in sessions && sessions[token].revoked.None? {
        sessions := sessions[token := sessions[token].(revoked := Some(now))];
        history := Then(history, SessionEnded(token, now));
      }
    }

    method Authenticate(token: Token, now: Time) returns (r: Option<Session>)
      modifies `sessions, `history
      ensures (Rows(), r) == Steps.Authenticate(old(Rows()), token, now)
    {
      if token !in sessions || sessions[token].revoked.Some? {
        return None;
      }
      var row := sessions[token];
      if now - row.seen > Steps.SESSION_IDLE || now - row.created > Steps.SESSION_LIFETIME {
        return None;
      }
      if now - row.seen > Steps.TOUCH_EVERY {
        sessions := sessions[token := row.(seen := now)];
      }
      r := Some(Session(token, factors != [], row.steppedUp, row.emailConfirmed));
      history := Then(history, HandedOut(r.value));
    }

    // Challenges.

    /** The challenges that can no longer be answered go. */
    method DropSpent(now: Time)
      modifies `challenges
      ensures challenges == map t | t in old(challenges) && !Steps.Spent(old(challenges)[t], now) :: old(challenges)[t]
    {
      challenges := map t | t in challenges && !Steps.Spent(challenges[t], now) :: challenges[t];
    }

    method InsertChallenge(token: Token, session: Option<Token>, action: Option<Action>, now: Time)
      modifies `challenges, `history
      ensures Rows() == Steps.InsertChallenge(old(Rows()), token, session, action, now)
    {
      DropSpent(now);
      challenges := challenges[token := ChallengeRow(session, action, 0, None, now + Steps.CHALLENGE_LIFETIME)];
      history := Then(history, ChallengeOpened(token, session.Some?));
    }

    method EndSignIns()
      modifies `challenges
      ensures Rows() == Steps.EndSignIns(old(Rows()))
    {
      challenges := map t | t in challenges && challenges[t].session.Some? :: challenges[t];
    }

    /** challenge: the live challenge a token opened, for the session that asks. */
    method Challenge(token: Token, session: Option<Token>, now: Time) returns (r: Option<ChallengeRow>)
      ensures r == Steps.Find(Rows(), token, session, now)
    {
      if token !in challenges {
        return None;
      }
      var ch := challenges[token];
      if ch.used.Some? || ch.expires <= now || ch.attempts >= Steps.CHALLENGE_ATTEMPTS {
        return None;
      }
      if ch.session != session {
        return None;
      }
      return Some(ch);
    }

    /** challengeAttempt: how many wrong answers there have been, this one with them. */
    method ChallengeAttempt(token: Token, now: Time) returns (attempts: nat)
      requires token in challenges
      modifies `challenges
      ensures challenges == old(challenges)[token := Steps.Attempted(old(challenges[token]), now)]
      ensures attempts == old(challenges[token]).attempts + 1
    {
      var row := challenges[token];
      attempts := row.attempts + 1;
      var used := if attempts >= Steps.CHALLENGE_ATTEMPTS then Some(now) else row.used;
      challenges := challenges[token := row.(attempts := attempts, used := used)];
    }

    /** The challenge is answered: nobody finds it again at any time, and every
        other is found as it was. */
    method SpendChallenge(token: Token, now: Time)
      requires token in challenges
      modifies `challenges
      ensures challenges == old(challenges)[token := old(challenges[token]).(used := Some(now))]
      ensures forall owner: Option<Token>, at: Time :: Steps.Find(Rows(), token, owner, at).None?
      ensures forall t: Token, owner: Option<Token>, at: Time ::
                t != token ==> Steps.Find(Rows(), t, owner, at) == Steps.Find(old(Rows()), t, owner, at)
    {
      challenges := challenges[token := challenges[token].(used := Some(now))];
    }

    /** offers, looping over the account's factors. */
    method Offers(action: Option<Action>) returns (o: Offered)
      ensures OfferOf(o) == Steps.Offers(Rows(), action)
      ensures StrongestFirst(o.methods)
    {
      var codesLocked, emailFactor := failures >= Steps.FAILURES_LOCKED, false;
      var methods: seq<Method> := [];
      for i := 0 to |factors|
        invariant emailFactor == Steps.Has(factors[..i], Email)
        invariant forall m :: m in methods
                              <==> Steps.Has(factors[..i], m) && Permits(kind, m, Verify)
                                   && !Steps.Locks(codesLocked, m)
      {
        var m := MethodOf(factors[i]);
        OneMore(i);
        emailFactor := emailFactor || m == Email;
        if Permits(kind, m, Verify) && !Steps.Locks(codesLocked, m) {
          methods := methods + [m];
        }
      }
      assert factors[..|factors|] == factors;
      if action.Some? && StepUpFor(kind, action.value, |factors| > 0).email && !codesLocked {
        methods := methods + [Email];
      }
      var ordered := Strongest(methods);
      o := Offered(ordered, Left(recovery) != {}, emailFactor, codesLocked);
      OfferIsSame(o, action, methods);
    }

    lemma OneMore(i: nat)
      requires i < |factors|
      ensures forall m :: Steps.Has(factors[..i + 1], m) <==> Steps.Has(factors[..i], m) || m == MethodOf(factors[i])
    {
      assert factors[..i + 1] == factors[..i] + [factors[i]];
      assert factors[i] in factors[..i + 1];
    }

    lemma OfferIsSame(o: Offered, action: Option<Action>, methods: seq<Method>)
      requires o.codesLocked == (failures >= Steps.FAILURES_LOCKED)
      requires o.emailFactor == Steps.Has(factors, Email) && o.recovery == (Left(recovery) != {})
      requires forall m :: m in methods <==>
                 (Steps.Has(factors, m) && Permits(kind, m, Verify) && !Steps.Locks(o.codesLocked, m))
                 || (m == Email && action.Some? && StepUpFor(kind, action.value, factors != []).email && !o.codesLocked)
      requires forall m :: m in o.methods <==> m in methods && IsFactorMethod(m)
      ensures OfferOf(o) == Steps.Offers(Rows(), action)
    {
      var spec := Steps.Offers(Rows(), action);
      forall m ensures m in OfferOf(o).methods <==> m in spec.methods {
        assert m in Steps.MethodsOf(Rows()) <==> Steps.Has(factors, m);
      }
      assert OfferOf(o).methods == spec.methods;
      if o.recovery {
        var code :| code in Left(recovery);
        assert code in recovery && recovery[code].None?;
      }
      if spec.recovery {
        var code :| code in recovery && recovery[code].None?;
        assert code in Left(recovery);
      }
    }

    // Codes by e-mail.

    method InsertEmailCode(purpose: Purpose, id: nat, code: string, now: Time)
      modifies `codes, `history
      ensures Rows() == Steps.InsertCode(old(Rows()), purpose, id, code, now)
    {
      codes := Steps.Pruned(codes, now);
      codes := Steps.Retired(codes, purpose, now);
      codes := codes + [CodeRow(id, purpose, code, now, now + Steps.CODE_LIFETIME, 0, None)];
      history := Then(history, CodeSent(id, purpose, now));
    }

    method SendCode(purpose: Purpose, id: nat, code: string, now: Time) returns (reply: Steps.Reply)
      modifies `codes, `history
      ensures (Rows(), reply) == Steps.SendCode(old(Rows()), purpose, id, code, now)
    {
      if Steps.SentSince(codes, now - Steps.CODE_EVERY) > 0 {
        return Steps.CodeTooSoon;
      }
      if Steps.SentSince(codes, now - HOUR) >= Steps.CODES_PER_HOUR {
        return Steps.CodeTooMany;
      }
      InsertEmailCode(purpose, id, code, now);
      return Steps.Done;
    }

    method UseEmailCode(purpose: Purpose, typed: string, now: Time) returns (ok: bool)
      modifies `codes, `history
      ensures (Rows(), ok) == Steps.UseCode(old(Rows()), purpose, typed, now)
    {
      var found := Steps.FindCode(codes, purpose, now);
      if found.None? {
        return false;
      }
      var i := found.value;
      var row, hash := codes[i], Steps.TypedCode(typed);
      ok := hash.Some? && hash.value == row.code;
      if ok {
        codes := codes[i := row.(used := Some(now))];
      } else {
        codes := codes[i := row.(attempts := row.attempts + 1)];
      }
      history := Then(history, Compared(row.id, purpose, ok, now));
    }

    // Apps and recovery codes.

    /** checkApp: the first app whose code was typed, tried one by one. */
    method CheckApp(typed: string, now: Time) returns (ok: bool)
      modifies `factors, `history
      ensures (Rows(), ok) == Steps.CheckApp(Apps(), old(Rows()), typed, now)
    {
      AppsShowSixDigits();
      for i := 0 to |factors|
        invariant unchanged(this)
        invariant Steps.FindApp(Apps(), factors, typed, now) == Steps.FindAppFrom(Apps(), factors, i, typed, now)
      {
        if factors[i].AppFactor? {
          var app := factors[i];
          var matched := Totp.MatchTotp(Apps(), app.secret, typed, now, app.lastStep);
          if matched.Some? {
            factors := factors[i := app.(lastStep := matched.value)];
            history := Then(history, AppAccepted(app.id, matched.value, now));
            return true;
          }
        }
      }
      return false;
    }

    method UseRecoveryCode(typed: string, now: Time) returns (ok: bool)
      modifies `recovery, `history
      ensures (Rows(), ok) == Steps.UseRecovery(old(Rows()), typed, now)
    {
      var hash := RecoveryCode.Canonical(typed);
      if hash.None? || hash.value !in recovery || recovery[hash.value].Some? {
        return false;
      }
      recovery := recovery[hash.value := Some(now)];
      history := Then(history, RecoveryAccepted(hash.value));
      return true;
    }

    /** replaceRecoveryCodes: the old set goes, the new one is inserted code by
        code. */
    method ReplaceRecoveryCodes(hashes: seq<string>)
      modifies `recovery, `history
      ensures Rows() == Steps.ReplaceRecovery(old(Rows()), SetOf(hashes))
    {
      recovery := map[];
      for i := 0 to |hashes|
        invariant forall code :: code in recovery <==> code in hashes[..i]
        invariant forall code :: code in recovery ==> recovery[code] == None
        invariant history == old(history)
      {
        recovery := recovery[hashes[i] := None];
      }
      assert hashes[..|hashes|] == hashes;
      history := Then(history, RecoveryIssued(SetOf(hashes)));
    }

    method FirstRecoverySet(hashes: seq<string>) returns (reply: Steps.Reply)
      modifies `recovery, `history
      ensures (Rows(), reply) == Steps.FirstSet(old(Rows()), SetOf(hashes))
    {
      if |recovery| > 0 {
        return Steps.Done;
      }
      ReplaceRecoveryCodes(hashes);
      return Steps.CodesShown;
    }

    // Answers.

    /** checkOffered. */
    method Check(session: Option<Token>, o: Offered, a: Steps.Answer, now: Time) returns (ok: bool)
      modifies `factors, `recovery, `codes, `history
      ensures (Rows(), ok) == Steps.Check(Apps(), old(Rows()), session, OfferOf(o), a, now)
    {
      if a.m == Recovery {
        if !o.recovery {
          return false;
        }
        ok := UseRecoveryCode(a.typed, now);
        return;
      }
      if a.m !in o.methods {
        return false;
      }
      match a.m
      case App => ok := CheckApp(a.typed, now);
      case Email => ok := UseEmailCode(Steps.PurposeOf(session), a.typed, now);
      case Key => ok := a.keyProves;
      case _ => ok := false;
    }

    method CountFailure() returns (count: nat)
      modifies `failures
      ensures failures == count == old(failures) + 1
    {
      failures := failures + 1;
      count := failures;
    }

    method ClearFailures()
      modifies `failures
      ensures failures == 0
    {
      failures := 0;
    }

    /** failed: the owner is told at exactly two counts. */
    method Failed()
      modifies `failures, `history
      ensures Rows() == Steps.Failed(old(Rows()))
    {
      var count := CountFailure();
      if count == Steps.FAILURES_NOTIFIED {
        history := Then(history, Noticed);
      } else if count == Steps.FAILURES_LOCKED {
        history := Then(history, LockNoticed);
      }
    }

    /** secondFactor: whether an answer with a method is one of the account's factors'. */
    method SecondFactor(o: Offered, m: Method) returns (counts: bool)
      ensures counts == Steps.IsSecondFactor(OfferOf(o), m)
    {
      match m
      case Email => return o.emailFactor;
      case UnknownMethod => return false;
      case _ => return true;
    }

    /** A wrong answer, and which of three replies it gets. */
    method WrongAnswer(token: Token, o: Offered, m: Method, counts: bool, now: Time) returns (reply: Steps.Reply)
      requires token in challenges && counts == Steps.IsSecondFactor(OfferOf(o), m)
      modifies `challenges, `failures, `history
      ensures Rows() == Steps.Wrong(old(Rows()), token, OfferOf(o), m, now)
      ensures reply == Steps.WrongReply(old(challenges[token]), OfferOf(o), m)
    {
      var attempts := ChallengeAttempt(token, now);
      history := Then(history, Answered(token, m, false, counts, now));
      if counts {
        Failed();
      }
      if attempts >= Steps.CHALLENGE_ATTEMPTS {
        return Steps.ChallengeExhausted;
      }
      return if Steps.Locks(o.codesLocked, m) then Steps.CodesLocked else Steps.CodeWrong;
    }

    /** answerChallenge, up to what its caller does with a right answer. */
    method AnswerChallenge(token: Token, session: Option<Token>, a: Steps.Answer, now: Time)
      returns (reply: Steps.Reply, counts: bool)
      modifies `challenges, `factors, `recovery, `codes, `failures, `history
      ensures match Steps.Find(old(Rows()), token, session, now)
              case None => reply == Steps.ChallengeInvalid && Rows() == old(Rows())
              case Some(ch) =>
                var o := Steps.Offers(old(Rows()), ch.action);
                var answered := Steps.AnswerChallenge(Apps(), old(Rows()), token, session, a, now);
                && Rows() == answered.0
                && reply == (if answered.1 then Steps.Done else Steps.WrongReply(ch, o, a.m))
                && counts == Steps.IsSecondFactor(o, a.m)
    {
      var found := Challenge(token, session, now);
      if found.None? {
        return Steps.ChallengeInvalid, false;
      }
      var o := Offers(found.value.action);
      counts := SecondFactor(o, a.m);
      Steps.CheckKeepsChallenges(Apps(), Rows(), session, OfferOf(o), a, now);
      var ok := Check(session, o, a, now);
      if !ok {
        reply := WrongAnswer(token, o, a.m, counts, now);
        return;
      }
      SpendChallenge(token, now);
      history := Then(history, Answered(token, a.m, true, counts, now));
      return Steps.Done, counts;
    }

    method CompleteSignIn(token: Token, a: Steps.Answer, next: Token, now: Time) returns (reply: Steps.Reply)
      modifies this
      ensures (Rows(), reply) == Steps.CompleteSignIn(Apps(), old(Rows()), token, a, next, now)
    {
      var counts;
      reply, counts := AnswerChallenge(token, None, a, now);
      if reply == Steps.Done {
        InsertSession(next, BySecondStep(token, a.m), now);
        MarkSteppedUp(next, now);
        if counts {
          ClearFailures();
        }
      }
    }

    method StepUp(session: Session, token: Token, a: Steps.Answer, now: Time) returns (reply: Steps.Reply)
      modifies this
      ensures (Rows(), reply) == Steps.StepUp(Apps(), old(Rows()), session, token, a, now)
    {
      var counts;
      reply, counts := AnswerChallenge(token, Some(session.id), a, now);
      if reply == Steps.Done {
        var factor := true;
        if a.m == Email {
          factor := HasEmailFactor();
        }
        if factor {
          MarkSteppedUp(session.id, now);
        } else {
          MarkEmailConfirmed(session.id, now);
        }
        if counts {
          ClearFailures();
        }
      }
    }

    method HasEmailFactor() returns (has: bool)
      ensures has <==> Email in Steps.MethodsOf(Rows())
    {
      has := exists f :: f in factors && MethodOf(f) == Email;
    }

    method BeginStepUp(session: Session, action: Action, next: Token, now: Time) returns (reply: Steps.Reply)
      modifies `challenges, `history
      ensures (Rows(), reply) == Steps.BeginStepUp(old(Rows()), session, action, next, now)
    {
      var o := Offers(Some(action));
      assert o.methods == [] <==> OfferOf(o).methods == {} by {
        assert o.methods != [] ==> o.methods[0] in OfferOf(o).methods;
      }
      if |o.methods| == 0 && !o.recovery && !o.codesLocked {
        return Steps.NoSecondFactor;
      }
      InsertChallenge(next, Some(session.id), Some(action), now);
      return Steps.Done;
    }

    method SendChallengeCode(token: Token, session: Option<Token>, id: nat, code: string, now: Time)
      returns (reply: Steps.Reply)
      modifies `codes, `history
      ensures (Rows(), reply) == Steps.SendChallengeCode(old(Rows()), token, session, id, code, now)
    {
      var found := Challenge(token, session, now);
      if found.None? {
        return Steps.ChallengeInvalid;
      }
      var o := Offers(found.value.action);
      if Email !in o.methods {
        return if o.codesLocked then Steps.CodesLocked else Steps.NotPermitted;
      }
      reply := SendCode(Steps.PurposeOf(session), id, code, now);
    }

    // Passwords: each flow is two transactions, with others between them.

    /** The password hash that SignIn reads and verifies a password against. */
    method Credentials() returns (read: Secret)
      modifies `history
      ensures read == old(secret) && Rows() == Steps.ReadPassword(old(Rows()))
    {
      read := secret;
      history := Then(history, Read(read));
    }

    /** SignIn's second transaction, after the password was verified against
        what the first one read; rehash is the hash that replaces a stale one. */
    method FinishSignIn(read: Secret, rehash: Option<Secret>, next: Token, now: Time) returns (reply: Steps.Reply)
      modifies `secret, `sessions, `challenges, `history
      ensures (Rows(), reply) == Steps.FinishSignIn(old(Rows()), read, rehash, next, now)
    {
      if secret != read {
        return Steps.Credentials;
      }
      if rehash.Some? {
        secret := rehash.value;
        history := Then(history, Stored(secret, false));
      }
      if |factors| > 0 {
        InsertChallenge(next, None, None, now);
        return Steps.SecondStep;
      }
      InsertSession(next, ByPassword(read), now);
      return Steps.Done;
    }

    /** ChangePassword's gate and its first transaction. */
    method BeginChange(session: Session, now: Time) returns (reply: Steps.Reply, read: Secret)
      modifies `history
      ensures (Rows(), reply) == Steps.BeginChange(old(Rows()), session, now)
      ensures reply == Steps.Done ==> read == old(secret)
    {
      read := secret;
      if NeedsStepUp(kind, session, Password, now) {
        return Steps.StepUpNeeded, read;
      }
      history := Then(history, ChangeBegun(session, read, now));
      return Steps.Done, read;
    }

    /** ChangePassword's second transaction. */
    method FinishChange(session: Session, read: Secret, replacement: Secret, next: Token, now: Time)
      returns (reply: Steps.Reply)
      modifies `secret, `sessions, `challenges, `failures, `history
      ensures (Rows(), reply) == Steps.FinishChange(old(Rows()), session, read, replacement, next, now)
    {
      if secret != read {
        return Steps.Credentials;
      }
      EndSignIns();
      secret := replacement;
      history := Then(history, Stored(replacement, true));
      RevokeSessions(now);
      InsertSession(next, ByChange(session), now);
      if session.steppedUp.Some? {
        MarkSteppedUp(next, session.steppedUp.value);
      }
      ClearFailures();
      return Steps.Done;
    }

    // Factors.

    method PutEnrolment(session: Token, e: Enrolment)
      modifies `enrolments
      ensures enrolments == old(enrolments)[session := e]
    {
      enrolments := enrolments[session := e];
    }

    method DropEnrolment(session: Token)
      modifies `enrolments
      ensures enrolments == old(enrolments) - {session}
    {
      enrolments := enrolments - {session};
    }

    method InsertFactor(f: Factor)
      modifies `factors, `history
      ensures Rows() == Steps.AddFactor(old(Rows()), f)
    {
      factors := factors + [f];
      history := Then(history, FactorAdded(f.id, MethodOf(f)));
    }

    method BeginApp(session: Session, key: seq<Byte>, now: Time) returns (reply: Steps.Reply)
      modifies `enrolments
      ensures (Rows(), reply) == Steps.BeginApp(old(Rows()), session, key, now)
    {
      if !Permits(kind, App, Enrol) {
        return Steps.NotPermitted;
      }
      if NeedsStepUp(kind, session, Factors, now) {
        return Steps.StepUpNeeded;
      }
      PutEnrolment(session.id, AppEnrolment(key, now + Steps.ENROLMENT_LIFETIME));
      return Steps.Done;
    }

    method BeginKey(session: Session, now: Time) returns (reply: Steps.Reply)
      modifies `enrolments
      ensures (Rows(), reply) == Steps.BeginKey(old(Rows()), session, now)
    {
      if !Permits(kind, Key, Enrol) {
        return Steps.NotPermitted;
      }
      if NeedsStepUp(kind, session, Factors, now) {
        return Steps.StepUpNeeded;
      }
      PutEnrolment(session.id, KeyEnrolment(now + Steps.ENROLMENT_LIFETIME));
      return Steps.Done;
    }

    method ConfirmApp(session: Session, typed: string, id: nat, hashes: seq<string>, now: Time)
      returns (reply: Steps.Reply)
      modifies `factors, `enrolments, `recovery, `history
      ensures (Rows(), reply) == Steps.ConfirmApp(Apps(), old(Rows()), session, typed, id, SetOf(hashes), now)
    {
      if !Permits(kind, App, Enrol) {
        return Steps.NotPermitted;
      }
      if NeedsStepUp(kind, session, Factors, now) {
        return Steps.StepUpNeeded;
      }
      if session.id !in enrolments || !enrolments[session.id].AppEnrolment? || enrolments[session.id].expires <= now {
        return Steps.NoEnrolment;
      }
      var key := enrolments[session.id].secret;
      AppsShowSixDigits();
      var matched := Totp.MatchTotp(Apps(), key, typed, now, 0);
      if matched.None? {
        return Steps.CodeWrong;
      }
      history := Then(history, FactorsChanged(session, now));
      InsertFactor(AppFactor(id, key, matched.value));
      history := Then(history, AppAccepted(id, matched.value, now));
      DropEnrolment(session.id);
      reply := FirstRecoverySet(hashes);
    }

    method ConfirmKey(session: Session, keyProves: bool, id: nat, hashes: seq<string>, now: Time)
      returns (reply: Steps.Reply)
      modifies `factors, `enrolments, `recovery, `history
      ensures (Rows(), reply) == Steps.ConfirmKey(old(Rows()), session, keyProves, id, SetOf(hashes), now)
    {
      if !Permits(kind, Key, Enrol) {
        return Steps.NotPermitted;
      }
      if NeedsStepUp(kind, session, Factors, now) {
        return Steps.StepUpNeeded;
      }
      if session.id !in enrolments || !enrolments[session.id].KeyEnrolment? || enrolments[session.id].expires <= now {
        return Steps.NoEnrolment;
      }
      if !keyProves {
        return Steps.KeyRefused;
      }
      history := Then(history, FactorsChanged(session, now));
      InsertFactor(KeyFactor(id));
      DropEnrolment(session.id);
      reply := FirstRecoverySet(hashes);
    }

    method BeginEmail(session: Session, id: nat, code: string, now: Time) returns (reply: Steps.Reply)
      modifies `codes, `history
      ensures (Rows(), reply) == Steps.BeginEmail(old(Rows()), session, id, code, now)
    {
      if !Permits(kind, Email, Enrol) {
        return Steps.NotPermitted;
      }
      if NeedsStepUp(kind, session, Factors, now) {
        return Steps.StepUpNeeded;
      }
      var has := HasEmailFactor();
      if has {
        return Steps.AlreadyEnrolled;
      }
      reply := SendCode(EnrolCode, id, code, now);
    }

    method ConfirmEmail(session: Session, typed: string, id: nat, now: Time) returns (reply: Steps.Reply)
      modifies `codes, `factors, `history
      ensures (Rows(), reply) == Steps.ConfirmEmail(old(Rows()), session, typed, id, now)
    {
      if !Permits(kind, Email, Enrol) {
        return Steps.NotPermitted;
      }
      if NeedsStepUp(kind, session, Factors, now) {
        return Steps.StepUpNeeded;
      }
      var has := HasEmailFactor();
      if has {
        return Steps.AlreadyEnrolled;
      }
      var ok := UseEmailCode(EnrolCode, typed, now);
      if !ok {
        return Steps.CodeWrong;
      }
      history := Then(history, FactorsChanged(session, now));
      InsertFactor(EmailFactor(id));
      return Steps.Done;
    }

    /** The factor goes first; an account that must keep one puts it back, as the
        transaction rolls back. */
    method RemoveFactor(session: Session, id: nat, now: Time) returns (reply: Steps.Reply)
      modifies `factors, `recovery, `history
      ensures (Rows(), reply) == Steps.RemoveFactor(old(Rows()), session, id, now)
    {
      if NeedsStepUp(kind, session, Factors, now) {
        return Steps.StepUpNeeded;
      }
      if forall f :: f in factors ==> f.id != id {
        return Steps.FactorUnknown;
      }
      var held := factors;
      factors := Steps.Without(factors, id);
      if |factors| == 0 {
        if Required(kind) {
          factors := held;
          return Steps.FactorRequired;
        }
        recovery := map[];
      }
      history := Then(Then(history, FactorsChanged(session, now)), FactorRemoved(id));
      return Steps.Done;
    }

    method RegenerateRecoveryCodes(session: Session, hashes: seq<string>, now: Time) returns (reply: Steps.Reply)
      modifies `recovery, `history
      ensures (Rows(), reply) == Steps.Regenerate(old(Rows()), session, SetOf(hashes), now)
    {
      if NeedsStepUp(kind, session, Factors, now) {
        return Steps.StepUpNeeded;
      }
      if |factors| == 0 {
        return Steps.NoSecondFactor;
      }
      history := Then(history, FactorsChanged(session, now));
      ReplaceRecoveryCodes(hashes);
      return Steps.CodesShown;
    }
  }
}
