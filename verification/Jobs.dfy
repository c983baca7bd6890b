/** The lease that lets one run of a job at a time
    (internal/platform/jobs/jobs.go). Moments are the database's clock, which
    does not go back. */
module Jobs {
  import opened Base

  const LEASE: nat := 600_000_000_000

  /** A row of job_lock. */
  datatype Lock = Lock(holder: string, until: Time, finished: Option<Time>)

  type Locks = map<string, Lock>

  /** take: nobody ever ran the job, or its lease has expired. */
  function Take(locks: Locks, name: string, holder: string, now: Time): (Locks, bool) {
    if name !in locks then (locks[name := Lock(holder, now + LEASE, None)], true)
    else if locks[name].until < now then (locks[name := locks[name].(holder := holder, until := now + LEASE)], true)
    else (locks, false)
  }

  /** release: only what this holder holds. */
  function Release(locks: Locks, name: string, holder: string, now: Time): Locks {
    if name in locks && locks[name].holder == holder
      then locks[name := locks[name].(until := now, finished := Some(now))]
    else locks
  }

  datatype Reply = UnknownJob | Busy | Ran(failed: bool)

  class Runner {
    var locks: Locks
    var jobs: set<string>
    const holder: string

    constructor (holder: string)
      ensures this.holder == holder && locks == map[] && jobs == {}
    {
      this.holder, locks, jobs := holder, map[], {};
    }

    method Register(name: string)
      modifies `jobs
      ensures jobs == old(jobs) + {name}
    {
      jobs := jobs + {name};
    }

    method TakeLock(name: string, now: Time) returns (taken: bool)
      modifies `locks
      ensures (locks, taken) == Take(old(locks), name, holder, now)
    {
      if name !in locks {
        locks := locks[name := Lock(holder, now + LEASE, None)];
        return true;
      }
      if locks[name].until < now {
        locks := locks[name := locks[name].(holder := holder, until := now + LEASE)];
        return true;
      }
      return false;
    }

    method ReleaseLock(name: string, now: Time)
      modifies `locks
      ensures locks == Release(old(locks), name, holder, now)
    {
      if name in locks && locks[name].holder == holder {
        locks := locks[name := locks[name].(until := now, finished := Some(now))];
      }
    }

    /** Run. While the job works other instances make of the locks what they may;
        the lease is given back then, whether the job failed or not, if it is still
        this holder's. */
    method Run(name: string, now: Time, meanwhile: Locks, ends: Time, fails: bool) returns (reply: Reply)
      modifies `locks
      ensures reply == UnknownJob <==> name !in jobs
      ensures reply == Busy <==> name in jobs && !Take(old(locks), name, holder, now).1
      ensures reply.Ran? ==> reply.failed == fails && locks == Release(meanwhile, name, holder, ends)
      ensures !reply.Ran? ==> locks == old(locks)
    {
      if name !in jobs {
        return UnknownJob;
      }
      var taken := TakeLock(name, now);
      if !taken {
        return Busy;
      }
      locks := meanwhile;
      ReleaseLock(name, ends);
      return Ran(fails);
    }
  }

  // Runs of one job, on any instances.

  /** A run that took the lock. */
  datatype Run = Run(holder: string, started: Time, ended: bool, released: bool)

  /** The lock of one job, the runs that took it in order, and the clock. */
  datatype State = State(locks: Locks, runs: seq<Run>, clock: Time)

  /** Somebody asks for the job; the work of a run ends; and its instance gives the
      lock back, at once or later, or never. */
  datatype Step = Ask(holder: string, now: Time) | End(i: nat, now: Time) | GiveBack(i: nat, now: Time)

  function Apply(s: State, name: string, step: Step): State {
    match step
    case Ask(holder, now) =>
      var taken := Take(s.locks, name, holder, now);
      State(taken.0, if taken.1 then s.runs + [Run(holder, now, false, false)] else s.runs, now)
    case End(i, now) =>
      s.(runs := if i < |s.runs| then s.runs[i := s.runs[i].(ended := true)] else s.runs, clock := now)
    case GiveBack(i, now) =>
      if i < |s.runs| then
        State(Release(s.locks, name, s.runs[i].holder, now), s.runs[i := s.runs[i].(released := true)], now)
      else s.(clock := now)
  }

  /** No run is still at work past its lease. */
  predicate Timely(s: State, now: Time) {
    forall i :: 0 <= i < |s.runs| && !s.runs[i].ended ==> now <= s.runs[i].started + LEASE
  }

  /** What giving back the lock of the i-th run frees is nobody's who still works:
      it is the latest run's own, or the latest has ended, or holds the lock under
      another name, or is at the end of its lease. */
  predicate Harmless(s: State, i: nat, now: Time)
    requires i < |s.runs|
  {
    var last := s.runs[|s.runs| - 1];
    i == |s.runs| - 1 || last.ended || last.holder != s.runs[i].holder || last.started + LEASE <= now
  }

  /** A run gives the lock back once, after its work. */
  predicate Owes(s: State, i: nat) { i < |s.runs| && s.runs[i].ended && !s.runs[i].released }

  predicate Enabled(s: State, step: Step) {
    s.clock <= step.now && Timely(s, step.now) && (step.GiveBack? ==> Owes(s, step.i) && Harmless(s, step.i, step.now))
  }

  function Execute(name: string, steps: seq<Step>): State {
    if steps == [] then State(map[], [], 0) else Apply(Execute(name, steps[..|steps| - 1]), name, steps[|steps| - 1])
  }

  predicate Legal(name: string, steps: seq<Step>) {
    steps == []
      || (Legal(name, steps[..|steps| - 1]) && Enabled(Execute(name, steps[..|steps| - 1]), steps[|steps| - 1]))
  }

  predicate Alone(s: State) {
    forall i, j :: 0 <= i < j < |s.runs| ==> s.runs[i].ended || s.runs[j].ended
  }

  /** Every earlier run has ended, and the lock is the latest's for its lease, until
      that ends too. */
  ghost predicate Inv(s: State, name: string) {
    && (s.runs == [] ==> name !in s.locks)
    && (s.runs != [] ==>
          var last := s.runs[|s.runs| - 1];
          && name in s.locks && s.locks[name].holder == last.holder
          && (!last.ended ==> s.locks[name].until == last.started + LEASE))
    && (forall i :: 0 <= i < |s.runs| - 1 ==> s.runs[i].ended)
  }

  lemma AskKeeps(s: State, name: string, holder: string, now: Time)
    requires Inv(s, name) && Timely(s, now)
    ensures Inv(Apply(s, name, Ask(holder, now)), name)
  {
    var later := Apply(s, name, Ask(holder, now));
    if later.runs != s.runs && s.runs != [] {
      assert s.runs[|s.runs| - 1].ended;
    }
  }

  lemma StepKeeps(s: State, name: string, step: Step)
    requires Inv(s, name) && Enabled(s, step)
    ensures Inv(Apply(s, name, step), name)
  {
    if step.Ask? {
      AskKeeps(s, name, step.holder, step.now);
    }
  }

  lemma {:induction false} EveryRunKeeps(name: string, steps: seq<Step>)
    requires Legal(name, steps)
    ensures Inv(Execute(name, steps), name)
  {
    if steps != [] {
      EveryRunKeeps(name, steps[..|steps| - 1]);
      StepKeeps(Execute(name, steps[..|steps| - 1]), name, steps[|steps| - 1]);
    }
  }

  /** Two runs of one job are never at work at once, over any run of the protocol
      in which each ends within its lease and each release is harmless. */
  lemma RunsNeverOverlap(name: string, steps: seq<Step>)
    requires Legal(name, steps)
    ensures Alone(Execute(name, steps))
  {
    EveryRunKeeps(name, steps);
  }

  /** And a release that is not harmless lets the next to ask overlap, within its
      lease and the latest run's: this is the exact condition. */
  lemma ReleaseIsHarmlessExactly(s: State, name: string, i: nat, now: Time)
    requires Inv(s, name) && Owes(s, i) && s.clock <= now && Timely(s, now)
    ensures var freed := Apply(s, name, GiveBack(i, now));
            Harmless(s, i, now) <==> forall holder: string, later: Time :: now <= later && Timely(freed, later)
                                       ==> Alone(Apply(freed, name, Ask(holder, later)))
  {
    var freed := Apply(s, name, GiveBack(i, now));
    if Harmless(s, i, now) {
      StepKeeps(s, name, GiveBack(i, now));
      forall holder: string, later: Time | now <= later && Timely(freed, later)
        ensures Alone(Apply(freed, name, Ask(holder, later)))
      {
        AskKeeps(freed, name, holder, later);
      }
    } else {
      var overlapping := Apply(freed, name, Ask("", now + 1));
      var k := |s.runs| - 1;
      assert Timely(freed, now + 1);
      assert !overlapping.runs[k].ended && !overlapping.runs[k + 1].ended;
    }
  }

  // Releases that are harmless whoever else runs.

  /** A run gives the lock back within its own lease, or under a name that the
      latest run does not hold it by. */
  predicate Prompt(s: State, step: Step) {
    && s.clock <= step.now && Timely(s, step.now)
    && (step.GiveBack? ==>
          && Owes(s, step.i)
          && (step.i == |s.runs| - 1 || step.now <= s.runs[step.i].started + LEASE
              || s.runs[step.i].holder != s.runs[|s.runs| - 1].holder))
  }

  predicate AllPrompt(name: string, steps: seq<Step>) {
    steps == []
      || (AllPrompt(name, steps[..|steps| - 1]) && Prompt(Execute(name, steps[..|steps| - 1]), steps[|steps| - 1]))
  }

  /** Besides, every earlier run gave the lock back or lost it by its lease's end. */
  ghost predicate Settled(s: State, name: string) {
    && (s.runs != [] ==>
          var last := s.runs[|s.runs| - 1];
          && name in s.locks && (!last.released ==> s.locks[name].until == last.started + LEASE)
          && (last.released ==> s.locks[name].until <= s.clock))
    && (forall i :: 0 <= i < |s.runs| - 1 ==> s.runs[i].released || s.runs[i].started + LEASE < s.clock)
  }

  lemma PromptIsHarmless(s: State, name: string, step: Step)
    requires Inv(s, name) && Settled(s, name) && Prompt(s, step)
    ensures Enabled(s, step) && Settled(Apply(s, name, step), name)
  {
  }

  /** Releases within the lease, or by holders with names of their own, are all
      harmless: such runs never overlap. */
  lemma {:induction false} PromptRunsAreLegal(name: string, steps: seq<Step>)
    requires AllPrompt(name, steps)
    ensures Legal(name, steps) && Settled(Execute(name, steps), name) && Alone(Execute(name, steps))
  {
    if steps != [] {
      var front := steps[..|steps| - 1];
      PromptRunsAreLegal(name, front);
      EveryRunKeeps(name, front);
      PromptIsHarmless(Execute(name, front), name, steps[|steps| - 1]);
    }
    RunsNeverOverlap(name, steps);
  }

  /** Whether the job is free: nobody ran it yet, or the latest run gave the lock back, or
      its ten minutes are over. */
  predicate Free(s: State, now: Time) {
    s.runs == [] || s.runs[|s.runs| - 1].released || s.runs[|s.runs| - 1].started + 10 * MINUTE < now
  }

  /** Somebody who asks, at a later moment than anything before, is let run for ten
      minutes exactly when the job is free, after any run of prompt releases. */
  lemma TakenExactly(name: string, steps: seq<Step>, holder: string, now: Time)
    requires AllPrompt(name, steps) && Execute(name, steps).clock < now
    ensures var s := Execute(name, steps);
            var later := Apply(s, name, Ask(holder, now));
            if Free(s, now) then
              && later.runs == s.runs + [Run(holder, now, false, false)]
              && name in later.locks && later.locks[name].holder == holder
              && later.locks[name].until == now + 10 * MINUTE
            else later.runs == s.runs && later.locks == s.locks
  {
    PromptRunsAreLegal(name, steps);
    EveryRunKeeps(name, steps);
  }

  /** The latest run that gives the lock back leaves it free, and when it finished. */
  lemma GivingBackFrees(name: string, steps: seq<Step>, now: Time)
    requires AllPrompt(name, steps) && Execute(name, steps).runs != []
    ensures var s := Execute(name, steps);
            var last := |s.runs| - 1;
            Apply(s, name, GiveBack(last, now)).locks == s.locks[name := Lock(s.runs[last].holder, now, Some(now))]
  {
    PromptRunsAreLegal(name, steps);
    EveryRunKeeps(name, steps);
  }

  /** What a late release frees is a lease of its own holder, and no other's. */
  lemma LateReleaseFreesNobodyElse(s: State, name: string, i: nat, now: Time)
    requires i < |s.runs| && name in s.locks && s.locks[name].holder != s.runs[i].holder
    ensures Apply(s, name, GiveBack(i, now)).locks == s.locks
  {
  }

  /** Instances that name themselves alike are not told apart: a run that gives
      the lock back after its lease ended frees its successor's, and a third run
      starts while the second is still at work, though each ends within its own
      lease. */
  lemma AlikeHoldersOverlap(name: string, version: string)
    ensures var s := Execute(name, [Ask(version, 0), End(0, MINUTE), Ask(version, 11 * MINUTE),
                                    GiveBack(0, 12 * MINUTE), Ask(version, 13 * MINUTE)]);
            && |s.runs| == 3 && !s.runs[1].ended && !s.runs[2].ended && !Alone(s)
            && Timely(s, s.clock)
  {
    var s1 := [Ask(version, 0)];
    var s2 := s1 + [End(0, MINUTE)];
    var s3 := s2 + [Ask(version, 11 * MINUTE)];
    var s4 := s3 + [GiveBack(0, 12 * MINUTE)];
    var s5 := s4 + [Ask(version, 13 * MINUTE)];
    OneMoreStep(name, [], Ask(version, 0));
    assert [] + s1 == s1;
    OneMoreStep(name, s1, End(0, MINUTE));
    OneMoreStep(name, s2, Ask(version, 11 * MINUTE));
    OneMoreStep(name, s3, GiveBack(0, 12 * MINUTE));
    OneMoreStep(name, s4, Ask(version, 13 * MINUTE));
    assert s5 == [Ask(version, 0), End(0, MINUTE), Ask(version, 11 * MINUTE),
                  GiveBack(0, 12 * MINUTE), Ask(version, 13 * MINUTE)];
  }

  lemma OneMoreStep(name: string, steps: seq<Step>, step: Step)
    ensures Execute(name, steps + [step]) == Apply(Execute(name, steps), name, step)
  {
    assert (steps + [step])[..|steps|] == steps;
  }
}
