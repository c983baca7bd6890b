/** The service's methods are the steps of a run: whichever is called, in whatever
    order, the account stays safe. */
module ServiceRuns {
  import opened Base
  import opened Rows
  import opened Runs
  import opened Service
  import Guarantees
  import Totp

  /** The codes a step stores come to its method as a list. */
  ghost predicate Lists(step: Step, hashes: seq<string>) {
    step.ConfirmApp? || step.ConfirmKey? || step.Regenerate? ==> step.codes == SetOf(hashes)
  }

  predicate Enrols(step: Step) { step.BeginApp? || step.ConfirmApp? || step.BeginKey? || step.ConfirmKey? }

  predicate ChangesFactors(step: Step)
  {
    step.BeginEmail? || step.ConfirmEmail? || step.RemoveFactor? || step.Regenerate?
  }

  /** Calls the method of a step. */
  method Perform(service: AccountRows, step: Step, hashes: seq<string>)
    requires Lists(step, hashes)
    modifies service
    ensures service.Rows() == Apply(service.Apps(), old(service.Rows()), step)
  {
    if Enrols(step) {
      Enrol(service, step, hashes);
    } else if ChangesFactors(step) {
      ChangeFactors(service, step, hashes);
    } else {
      SignOrStep(service, step);
    }
  }

  /** The methods of signing in and out, stepping up and changing the password. */
  method SignOrStep(service: AccountRows, step: Step)
    requires !Enrols(step) && !ChangesFactors(step)
    modifies service
    ensures service.Rows() == Apply(service.Apps(), old(service.Rows()), step)
  {
    match step
    case Authenticate(token, now) => var session := service.Authenticate(token, now);
    case ReadPassword => var read := service.Credentials();
    case SignIn(read, rehash, next, now) => var reply := service.FinishSignIn(read, rehash, next, now);
    case CompleteSignIn(token, a, next, now) => var reply := service.CompleteSignIn(token, a, next, now);
    case BeginStepUp(session, action, next, now) => var reply := service.BeginStepUp(session, action, next, now);
    case StepUp(session, token, a, now) => var reply := service.StepUp(session, token, a, now);
    case SendChallengeCode(token, owner, id, code, now) =>
      var reply := service.SendChallengeCode(token, owner, id, code, now);
    case BeginChange(session, now) => var reply, read := service.BeginChange(session, now);
    case FinishChange(session, read, secret, next, now) =>
      var reply := service.FinishChange(session, read, secret, next, now);
    case End(token, now) => service.End(token, now);
  }

  /** The methods that add a factor, or begin to. */
  method Enrol(service: AccountRows, step: Step, hashes: seq<string>)
    requires Enrols(step) && Lists(step, hashes)
    modifies service
    ensures service.Rows() == Apply(service.Apps(), old(service.Rows()), step)
  {
    match step
    case BeginApp(session, key, now) => var reply := service.BeginApp(session, key, now);
    case ConfirmApp(session, typed, id, codes, now) => var reply := service.ConfirmApp(session, typed, id, hashes, now);
    case BeginKey(session, now) => var reply := service.BeginKey(session, now);
    case ConfirmKey(session, keyProves, id, codes, now) =>
      var reply := service.ConfirmKey(session, keyProves, id, hashes, now);
  }

  /** The other methods that change the factors. */
  method ChangeFactors(service: AccountRows, step: Step, hashes: seq<string>)
    requires ChangesFactors(step) && Lists(step, hashes)
    modifies service
    ensures service.Rows() == Apply(service.Apps(), old(service.Rows()), step)
  {
    match step
    case BeginEmail(session, id, code, now) => var reply := service.BeginEmail(session, id, code, now);
    case ConfirmEmail(session, typed, id, now) => var reply := service.ConfirmEmail(session, typed, id, now);
    case RemoveFactor(session, id, now) => var reply := service.RemoveFactor(session, id, now);
    case Regenerate(session, codes, now) => var reply := service.RegenerateRecoveryCodes(session, hashes, now);
  }

  lemma {:induction false} LegalPrefix(apps: Totp.AppCodes, s: Account, run: seq<Step>, n: nat)
    requires n <= |run| && Legal(apps, s, run)
    ensures Legal(apps, s, run[..n])
    decreases |run|
  {
    if n == |run| {
      assert run[..n] == run;
    } else {
      var front := run[..|run| - 1];
      LegalPrefix(apps, s, front, n);
      assert front[..n] == run[..n];
    }
  }

  lemma NextIsEnabled(apps: Totp.AppCodes, s: Account, run: seq<Step>, i: nat)
    requires i < |run| && Legal(apps, s, run)
    ensures Enabled(Execute(apps, s, run[..i]), run[i])
    ensures Execute(apps, s, run[..i + 1]) == Apply(apps, Execute(apps, s, run[..i]), run[i])
  {
    LegalPrefix(apps, s, run, i + 1);
    assert run[..i + 1][..i] == run[..i];
  }

  /** A service whose account is safe keeps it so over any calls its callers may
      make. */
  method Serve(service: AccountRows, steps: seq<Step>, hashes: seq<seq<string>>)
    requires |hashes| == |steps| && forall i :: 0 <= i < |steps| ==> Lists(steps[i], hashes[i])
    requires Guarantees.Safe(service.Rows()) && Legal(service.Apps(), service.Rows(), steps)
    modifies service
    ensures service.Rows() == Execute(service.Apps(), old(service.Rows()), steps)
    ensures Guarantees.Safe(service.Rows())
  {
    ghost var start := service.Rows();
    for i := 0 to |steps|
      invariant service.Rows() == Execute(service.Apps(), start, steps[..i])
      invariant Guarantees.Safe(service.Rows())
    {
      NextIsEnabled(service.Apps(), start, steps, i);
      Guarantees.StepIsSafe(service.Apps(), service.Rows(), steps[i]);
      Perform(service, steps[i], hashes[i]);
    }
    assert steps[..|steps|] == steps;
  }
}
