/**
 * The supervising side of jobrunner (A3/running.c): one poll over the jobs
 * (moniter_jobs), the fork loop and the polling loop of run_jobs with its
 * SIGHUP handling. waitpid results, fork pids and the SIGHUP flag are inputs;
 * signals sent and lines written to stderr are outputs.
 */
module Supervisor {
  import opened Wrappers
  import opened Jobs
  import Decimal
  import PipeCheck
  import Launcher

  const SIGABRT := 6
  const SIGKILL := 9

  /** What waitpid(pid, &status, WNOHANG) reports: -1, 0 (still running), or a normal exit or death by signal. */
  datatype WaitResult = NoChild | StillRunning | Exited(status: int) | Signalled(signal: int)

  /** A signal sent to a process, or a line written to stderr. */
  datatype Action = Kill(pid: int, signal: int) | Report(line: string)

  /** One job after one poll: the record, what was done, and whether its end was observed. */
  datatype Polled = Polled(job: Job, actions: seq<Action>, reaped: bool)

  function ExitedLine(j: int, status: int): string {
    "Job " + Decimal.IntToString(j + 1) + " exited with status " + Decimal.IntToString(status)
  }

  function SignalledLine(j: int, signal: int): string {
    "Job " + Decimal.IntToString(j + 1) + " terminated with signal " + Decimal.IntToString(signal)
  }

  /** The poll finds the end of an enabled job. */
  predicate Reaps(job: Job, ob: WaitResult) {
    job.enabled && (ob.Exited? || ob.Signalled?)
  }

  /** The body of moniter_jobs for job j (0-based) seen at `seconds`. */
  function PollJob(j: nat, job: Job, ob: WaitResult, seconds: int): Polled {
    if !job.enabled then Polled(job, [], false)
    else match ob
      case NoChild => Polled(job, [], false)
      case StillRunning =>
        if job.runningTime == -1 then Polled(job, [Kill(job.jobPid, SIGKILL)], false)
        else if job.runningTime != 0 && seconds > job.runningTime then
          Polled(job.(runningTime := -1), [Kill(job.jobPid, SIGABRT)], false)
        else Polled(job, [], false)
      case Exited(status) => Polled(job.(terminated := true), [Report(ExitedLine(j, status))], true)
      case Signalled(signal) => Polled(job.(terminated := true), [Report(SignalledLine(j, signal))], true)
  }

  /**
   * What one poll does to a job: a disabled job, or one waitpid does not
   * know, is left alone; only the timeout and terminated fields change; an
   * observed end is reported once; a job whose abort was sent (runningTime
   * -1) is killed at every poll that finds it running; one past its timeout
   * gets SIGABRT once; a job with no timeout gets no signal.
   */
  lemma PollJobSpec(j: nat, job: Job, ob: WaitResult, seconds: int)
    ensures var r := PollJob(j, job, ob, seconds);
      && (!job.enabled || ob == NoChild ==> r == Polled(job, [], false))
      && r.job == job.(runningTime := r.job.runningTime, terminated := r.job.terminated)
      && (r.reaped <==> Reaps(job, ob))
      && (r.reaped ==> r.job.terminated && |r.actions| == 1 && r.actions[0].Report?)
      && (!r.reaped ==> r.job.terminated == job.terminated && forall a :: a in r.actions ==> a.Kill? && a.pid == job.jobPid)
      && (Kill(job.jobPid, SIGABRT) in r.actions <==>
          job.enabled && ob == StillRunning && job.runningTime != -1 && job.runningTime != 0 && seconds > job.runningTime)
      && (r.job.runningTime != job.runningTime ==> r.job.runningTime == -1 && r.actions == [Kill(job.jobPid, SIGABRT)])
      && (job.enabled && ob == StillRunning && job.runningTime == -1 ==> r.actions == [Kill(job.jobPid, SIGKILL)])
      && (job.runningTime == 0 ==> forall a :: a in r.actions ==> !a.Kill?)
  {
  }

  // ---------------------------------------------------------------------
  // moniter_jobs

  function PolledJobs(js: seq<Job>, obs: seq<WaitResult>, seconds: int): (r: seq<Job>)
    requires |obs| == |js|
    ensures |r| == |js|
  {
    seq(|js|, j requires 0 <= j < |js| => PollJob(j, js[j], obs[j], seconds).job)
  }

  /** The signals and lines of one poll over the first n jobs, in job order. */
  function PollActions(js: seq<Job>, obs: seq<WaitResult>, seconds: int, n: nat): seq<Action>
    requires |obs| == |js| && n <= |js|
  {
    if n == 0 then [] else PollActions(js, obs, seconds, n - 1) + PollJob(n - 1, js[n - 1], obs[n - 1], seconds).actions
  }

  /** How many of the first n jobs the poll finds ended. */
  function Reaped(js: seq<Job>, obs: seq<WaitResult>, n: nat): nat
    requires |obs| == |js| && n <= |js|
  {
    if n == 0 then 0 else Reaped(js, obs, n - 1) + (if Reaps(js[n - 1], obs[n - 1]) then 1 else 0)
  }

  /** moniter_jobs: obs[j] is what waitpid reports for job j; returns the new number of active jobs. */
  method MoniterJobs(jobList: array<Job>, obs: seq<WaitResult>, activeJobs: int, seconds: int)
    returns (active: int, actions: seq<Action>)
    requires |obs| == jobList.Length
    modifies jobList
    ensures jobList[..] == PolledJobs(old(jobList[..]), obs, seconds)
    ensures actions == PollActions(old(jobList[..]), obs, seconds, jobList.Length)
    ensures active == activeJobs - Reaped(old(jobList[..]), obs, jobList.Length)
  {
    ghost var js := jobList[..];
    active, actions := activeJobs, [];
    var j := 0;
    while j < jobList.Length
      invariant 0 <= j <= jobList.Length
      invariant forall k :: 0 <= k < j ==> jobList[k] == PollJob(k, js[k], obs[k], seconds).job
      invariant forall k :: j <= k < jobList.Length ==> jobList[k] == js[k]
      invariant actions == PollActions(js, obs, seconds, j)
      invariant active == activeJobs - Reaped(js, obs, j)
    {
      assert jobList[j] == js[j];
      ghost var polled := PollJob(j, js[j], obs[j], seconds);
      var reaped, acts := PollOne(jobList, j, obs[j], seconds);
      assert acts == polled.actions && reaped == Reaps(js[j], obs[j]);
      actions := actions + acts;
      if reaped {
        active := active - 1;
      }
      j := j + 1;
    }
    assert jobList[..] == PolledJobs(js, obs, seconds);
  }

  /** The loop body of moniter_jobs for job j. */
  method PollOne(jobList: array<Job>, j: nat, ob: WaitResult, seconds: int) returns (reaped: bool, actions: seq<Action>)
    requires j < jobList.Length
    modifies jobList
    ensures jobList[j] == PollJob(j, old(jobList[j]), ob, seconds).job
    ensures forall k :: 0 <= k < jobList.Length && k != j ==> jobList[k] == old(jobList[k])
    ensures actions == PollJob(j, old(jobList[j]), ob, seconds).actions
    ensures reaped == Reaps(old(jobList[j]), ob)
  {
    reaped, actions := false, [];
    if !jobList[j].enabled {
      return;
    }
    match ob
    case NoChild =>
    case StillRunning =>
      if jobList[j].runningTime == -1 {
        actions := [Kill(jobList[j].jobPid, SIGKILL)];
      } else if jobList[j].runningTime != 0 {
        if seconds > jobList[j].runningTime {
          actions := [Kill(jobList[j].jobPid, SIGABRT)];
          jobList[j] := jobList[j].(runningTime := -1);
        }
      }
    case Exited(status) =>
      actions := [Report(ExitedLine(j, status))];
      jobList[j] := jobList[j].(terminated := true);
      reaped := true;
    case Signalled(signal) =>
      actions := [Report(SignalledLine(j, signal))];
      jobList[j] := jobList[j].(terminated := true);
      reaped := true;
  }

  // ---------------------------------------------------------------------
  // Counting active jobs

  /** The jobs that may still be running: enabled and not yet seen to end. */
  function ActiveCount(js: seq<Job>): (n: nat)
    ensures n <= |js|
  {
    if js == [] then 0
    else ActiveCount(js[..|js| - 1]) + (if js[|js| - 1].enabled && !js[|js| - 1].terminated then 1 else 0)
  }

  /** A job already seen to end is not reported again: waitpid no longer knows it. */
  predicate ReapedOnce(js: seq<Job>, obs: seq<WaitResult>)
    requires |obs| == |js|
  {
    forall j :: 0 <= j < |js| && js[j].terminated ==> obs[j] == NoChild
  }

  lemma {:induction false} PollCountsPrefix(js: seq<Job>, obs: seq<WaitResult>, seconds: int, n: nat)
    requires |obs| == |js| && n <= |js| && ReapedOnce(js, obs)
    ensures ActiveCount(PolledJobs(js, obs, seconds)[..n]) + Reaped(js, obs, n) == ActiveCount(js[..n])
  {
    if n > 0 {
      PollCountsPrefix(js, obs, seconds, n - 1);
      var polled := PolledJobs(js, obs, seconds);
      var p, q := polled[..n], js[..n];
      assert p[..n - 1] == polled[..n - 1];
      assert q[..n - 1] == js[..n - 1];
      assert p[n - 1] == PollJob(n - 1, js[n - 1], obs[n - 1], seconds).job && q[n - 1] == js[n - 1];
      PollJobCount(n - 1, js[n - 1], obs[n - 1], seconds);
    }
  }

  /** One job: its active count after the poll plus the ends observed is its active count before. */
  lemma PollJobCount(j: nat, job: Job, ob: WaitResult, seconds: int)
    requires job.terminated ==> ob == NoChild
    ensures var after := PollJob(j, job, ob, seconds).job;
      (if after.enabled && !after.terminated then 1 else 0) + (if Reaps(job, ob) then 1 else 0)
      == (if job.enabled && !job.terminated then 1 else 0)
  {
  }

  /**
   * One poll lowers the number of enabled, unfinished jobs by exactly the
   * number of ends it observes, so an activeJobs equal to that number stays
   * equal to it.
   */
  lemma PollKeepsCount(js: seq<Job>, obs: seq<WaitResult>, seconds: int, activeJobs: int)
    requires |obs| == |js| && ReapedOnce(js, obs) && activeJobs == ActiveCount(js)
    ensures activeJobs - Reaped(js, obs, |js|) == ActiveCount(PolledJobs(js, obs, seconds))
  {
    PollCountsPrefix(js, obs, seconds, |js|);
    assert js[..|js|] == js;
    assert PolledJobs(js, obs, seconds)[..|js|] == PolledJobs(js, obs, seconds);
  }

  lemma {:induction false} ActiveCountZero(js: seq<Job>)
    ensures ActiveCount(js) == 0 <==> forall j :: 0 <= j < |js| ==> js[j].enabled ==> js[j].terminated
  {
    if js != [] {
      ActiveCountZero(js[..|js| - 1]);
    }
  }

  /** Before any job is seen to end, the active jobs are the enabled ones. */
  lemma {:induction false} ActiveCountFresh(js: seq<Job>)
    requires forall j :: 0 <= j < |js| ==> !js[j].terminated
    ensures ActiveCount(js) == CountEnabled(js)
  {
    if js != [] {
      ActiveCountFresh(js[..|js| - 1]);
    }
  }

  // ---------------------------------------------------------------------
  // The timeout of one job over many polls

  /** The job polled once per entry of obs, at the matching entry of secs. */
  function PollMany(j: nat, job: Job, obs: seq<WaitResult>, secs: seq<int>): Polled
    requires |obs| == |secs|
    decreases |obs|
  {
    if obs == [] then Polled(job, [], false)
    else
      var first := PollJob(j, job, obs[0], secs[0]);
      PollJobSpec(j, job, obs[0], secs[0]);
      var rest := PollMany(j, first.job, obs[1..], secs[1..]);
      Polled(rest.job, first.actions + rest.actions, first.reaped || rest.reaped)
  }

  function CountAborts(actions: seq<Action>): nat {
    if actions == [] then 0
    else CountAborts(actions[..|actions| - 1]) + (if actions[|actions| - 1].Kill? && actions[|actions| - 1].signal == SIGABRT then 1 else 0)
  }

  lemma {:induction false} CountAbortsConcat(a: seq<Action>, b: seq<Action>)
    ensures CountAborts(a + b) == CountAborts(a) + CountAborts(b)
    decreases |b|
  {
    if b == [] {
      assert a + b == a;
    } else {
      CountAbortsConcat(a, b[..|b| - 1]);
      assert (a + b)[..|a + b| - 1] == a + b[..|b| - 1];
      assert (a + b)[|a + b| - 1] == b[|b| - 1];
      assert CountAborts(b) == CountAborts(b[..|b| - 1]) + (if b[|b| - 1].Kill? && b[|b| - 1].signal == SIGABRT then 1 else 0);
    }
  }

  lemma {:induction false} CountAbortsNone(a: seq<Action>)
    requires forall x :: x in a ==> !(x.Kill? && x.signal == SIGABRT)
    ensures CountAborts(a) == 0
  {
    if a != [] {
      assert forall x :: x in a[..|a| - 1] ==> x in a;
      CountAbortsNone(a[..|a| - 1]);
    }
  }

  /** Once the abort was sent (runningTime -1), no later poll sends it again. */
  lemma {:induction false} NoAbortAfterAbort(j: nat, job: Job, obs: seq<WaitResult>, secs: seq<int>)
    requires |obs| == |secs| && job.runningTime == -1
    ensures CountAborts(PollMany(j, job, obs, secs).actions) == 0
    ensures PollMany(j, job, obs, secs).job.runningTime == -1
    decreases |obs|
  {
    if obs != [] {
      var first := PollJob(j, job, obs[0], secs[0]);
      PollJobSpec(j, job, obs[0], secs[0]);
      NoAbortAfterAbort(j, first.job, obs[1..], secs[1..]);
      CountAbortsNone(first.actions);
      CountAbortsConcat(first.actions, PollMany(j, first.job, obs[1..], secs[1..]).actions);
    }
  }

  /** However many polls a job goes through, it is sent SIGABRT at most once. */
  lemma {:induction false} AbortAtMostOnce(j: nat, job: Job, obs: seq<WaitResult>, secs: seq<int>)
    requires |obs| == |secs|
    ensures CountAborts(PollMany(j, job, obs, secs).actions) <= 1
    decreases |obs|
  {
    if obs != [] {
      var first := PollJob(j, job, obs[0], secs[0]);
      PollJobSpec(j, job, obs[0], secs[0]);
      var rest := PollMany(j, first.job, obs[1..], secs[1..]);
      CountAbortsConcat(first.actions, rest.actions);
      if Kill(job.jobPid, SIGABRT) in first.actions {
        NoAbortAfterAbort(j, first.job, obs[1..], secs[1..]);
        assert first.actions == [Kill(job.jobPid, SIGABRT)];
      } else {
        AbortAtMostOnce(j, first.job, obs[1..], secs[1..]);
        CountAbortsNone(first.actions);
      }
    }
  }

  /** A job without a timeout (runningTime 0) is never sent a signal by the polls. */
  lemma {:induction false} NoTimeoutNoKill(j: nat, job: Job, obs: seq<WaitResult>, secs: seq<int>)
    requires |obs| == |secs| && job.runningTime == 0
    ensures forall a :: a in PollMany(j, job, obs, secs).actions ==> !a.Kill?
    decreases |obs|
  {
    if obs != [] {
      var first := PollJob(j, job, obs[0], secs[0]);
      PollJobSpec(j, job, obs[0], secs[0]);
      NoTimeoutNoKill(j, first.job, obs[1..], secs[1..]);
    }
  }

  // ---------------------------------------------------------------------
  // run_jobs

  /** The SIGKILLs sent on SIGHUP: one per enabled job not yet seen to end, in job order. */
  function HangupKills(js: seq<Job>): seq<Action> {
    if js == [] then []
    else
      var n := |js| - 1;
      HangupKills(js[..n]) + (if js[n].enabled && !js[n].terminated then [Kill(js[n].jobPid, SIGKILL)] else [])
  }

  /** On SIGHUP, exactly the enabled, unfinished jobs are sent SIGKILL, and nothing else happens. */
  lemma {:induction false} HangupKillsSpec(js: seq<Job>, a: Action)
    ensures a in HangupKills(js) <==>
      exists j :: 0 <= j < |js| && js[j].enabled && !js[j].terminated && a == Kill(js[j].jobPid, SIGKILL)
  {
    if js != [] {
      var n := |js| - 1;
      HangupKillsSpec(js[..n], a);
      if exists j :: 0 <= j < |js| && js[j].enabled && !js[j].terminated && a == Kill(js[j].jobPid, SIGKILL) {
        var j :| 0 <= j < |js| && js[j].enabled && !js[j].terminated && a == Kill(js[j].jobPid, SIGKILL);
        if j < n {
          assert js[..n][j] == js[j];
        }
      }
    }
  }

  method SendHangupKills(jobList: array<Job>) returns (kills: seq<Action>)
    ensures kills == HangupKills(jobList[..])
  {
    kills := [];
    var i := 0;
    while i < jobList.Length
      invariant 0 <= i <= jobList.Length
      invariant kills == HangupKills(jobList[..i])
    {
      assert jobList[..i + 1][..i] == jobList[..i];
      if jobList[i].enabled && !jobList[i].terminated {
        kills := kills + [Kill(jobList[i].jobPid, SIGKILL)];
      }
      i := i + 1;
    }
    assert jobList[..i] == jobList[..];
  }

  /** The fork loop of run_jobs: each enabled job gets the pid fork() returned for it. */
  function Launched(js: seq<Job>, pids: seq<int>): (r: seq<Job>)
    requires |pids| == |js|
    ensures |r| == |js|
  {
    seq(|js|, i requires 0 <= i < |js| => if js[i].enabled then js[i].(jobPid := pids[i]) else js[i])
  }

  method Launch(jobList: array<Job>, pids: seq<int>) returns (activeJobs: nat)
    requires |pids| == jobList.Length
    modifies jobList
    ensures jobList[..] == Launched(old(jobList[..]), pids)
    ensures activeJobs == CountEnabled(old(jobList[..]))
  {
    ghost var js := jobList[..];
    activeJobs := 0;
    var i := 0;
    while i < jobList.Length
      invariant 0 <= i <= jobList.Length
      invariant forall k :: 0 <= k < i ==> jobList[k] == Launched(js, pids)[k]
      invariant forall k :: i <= k < jobList.Length ==> jobList[k] == js[k]
      invariant activeJobs == CountEnabled(js[..i])
    {
      assert js[..i + 1][..i] == js[..i];
      if jobList[i].enabled {
        activeJobs := activeJobs + 1;
        jobList[i] := jobList[i].(jobPid := pids[i]);
      }
      i := i + 1;
    }
    assert js[..i] == js;
  }

  /** One round of the polling loop: whether SIGHUP has arrived, and what waitpid reports per job. */
  datatype Poll = Poll(hangup: bool, obs: seq<WaitResult>)

  /** The supervisor's state: the jobs, activeJobs, the seconds counter, and everything done so far. */
  datatype State = State(jobs: seq<Job>, active: int, seconds: int, actions: seq<Action>)

  predicate PollsFit(polls: seq<Poll>, n: nat) {
    forall k :: 0 <= k < |polls| ==> |polls[k].obs| == n
  }

  /** One round: SIGKILLs on SIGHUP, one second more, then one poll at the new second count. */
  function Round(s: State, p: Poll): (r: State)
    requires |p.obs| == |s.jobs|
    ensures |r.jobs| == |s.jobs|
  {
    var kills := if p.hangup then HangupKills(s.jobs) else [];
    var seconds := s.seconds + 1;
    State(PolledJobs(s.jobs, p.obs, seconds), s.active - Reaped(s.jobs, p.obs, |s.jobs|), seconds,
          s.actions + kills + PollActions(s.jobs, p.obs, seconds, |s.jobs|))
  }

  /** The polling loop: rounds while some job is active and rounds are left to observe. */
  function Supervise(s: State, polls: seq<Poll>): (r: State)
    requires PollsFit(polls, |s.jobs|)
    ensures |r.jobs| == |s.jobs|
    decreases |polls|
  {
    if s.active == 0 || polls == [] then s else Supervise(Round(s, polls[0]), polls[1..])
  }

  method SuperviseLoop(jobList: array<Job>, activeJobs: int, polls: seq<Poll>)
    returns (active: int, seconds: int, actions: seq<Action>)
    requires PollsFit(polls, jobList.Length)
    modifies jobList
    ensures State(jobList[..], active, seconds, actions) == Supervise(State(old(jobList[..]), activeJobs, 0, []), polls)
  {
    ghost var target := Supervise(State(jobList[..], activeJobs, 0, []), polls);
    active, seconds, actions := activeJobs, 0, [];
    var k := 0;
    while active != 0 && k < |polls|
      invariant 0 <= k <= |polls|
      invariant PollsFit(polls[k..], jobList.Length)
      invariant Supervise(State(jobList[..], active, seconds, actions), polls[k..]) == target
      decreases |polls| - k
    {
      ghost var before := State(jobList[..], active, seconds, actions);
      ghost var rest := polls[k..];
      assert rest[0] == polls[k];
      assert Supervise(before, rest) == Supervise(Round(before, rest[0]), rest[1..]);
      active, seconds, actions := OneRound(jobList, active, seconds, actions, polls[k]);
      assert rest[1..] == polls[k + 1..];
      k := k + 1;
    }
    assert active == 0 || polls[k..] == [];
  }

  /** One round of the polling loop of run_jobs. */
  method OneRound(jobList: array<Job>, active0: int, seconds0: int, actions0: seq<Action>, p: Poll)
    returns (active: int, seconds: int, actions: seq<Action>)
    requires |p.obs| == jobList.Length
    modifies jobList
    ensures State(jobList[..], active, seconds, actions) == Round(State(old(jobList[..]), active0, seconds0, actions0), p)
  {
    ghost var js := jobList[..];
    var kills: seq<Action> := [];
    if p.hangup {
      kills := SendHangupKills(jobList);
    }
    assert kills == (if p.hangup then HangupKills(js) else []);
    seconds := seconds0 + 1;
    var polled;
    active, polled := MoniterJobs(jobList, p.obs, active0, seconds);
    actions := actions0 + kills + polled;
  }

  /**
   * The runs that can happen: in every round, a job already seen to end is
   * not reported again.
   */
  predicate Consistent(s: State, polls: seq<Poll>)
    requires PollsFit(polls, |s.jobs|)
    decreases |polls|
  {
    s.active == 0 || polls == [] || (ReapedOnce(s.jobs, polls[0].obs) && Consistent(Round(s, polls[0]), polls[1..]))
  }

  /**
   * activeJobs stays the number of enabled jobs not yet seen to end, so the
   * loop stops exactly when every enabled job has ended.
   */
  lemma {:induction false} SuperviseKeepsCount(s: State, polls: seq<Poll>)
    requires PollsFit(polls, |s.jobs|) && Consistent(s, polls) && s.active == ActiveCount(s.jobs)
    ensures Supervise(s, polls).active == ActiveCount(Supervise(s, polls).jobs)
    ensures Supervise(s, polls).active == 0 <==>
      forall j :: 0 <= j < |s.jobs| ==> Supervise(s, polls).jobs[j].enabled ==> Supervise(s, polls).jobs[j].terminated
    decreases |polls|
  {
    if s.active != 0 && polls != [] {
      var next := Round(s, polls[0]);
      PollKeepsCount(s.jobs, polls[0].obs, s.seconds + 1, s.active);
      assert next.active == ActiveCount(next.jobs);
      SuperviseKeepsCount(next, polls[1..]);
      assert Supervise(s, polls) == Supervise(next, polls[1..]);
    } else {
      assert Supervise(s, polls) == s;
      ActiveCountZero(s.jobs);
    }
  }

  /**
   * run_jobs after validation: create the pipes, fork every enabled job,
   * close the parent's copies of the descriptors, then poll until no job is
   * active (exit status 0) or the observed rounds run out (exit is None).
   */
  method RunJobs(jobList: array<Job>, pipeResults: seq<Option<Launcher.PipeFds>>, pids: seq<int>, polls: seq<Poll>)
    returns (exit: Option<Exit>, closed: seq<int>, finalState: State)
    requires |PipeCheck.Pipes(jobList[..])| <= |pipeResults| && |pids| == jobList.Length
    requires PollsFit(polls, jobList.Length)
    modifies jobList
    ensures var js := old(jobList[..]);
      var n := |PipeCheck.Pipes(js)|;
      if Launcher.Succeeded(pipeResults, n) < n then
        exit == Some(Exit(-1, "")) && jobList[..] == Launcher.Wired(js, pipeResults)
      else
        var launched := Launched(Launcher.Wired(js, pipeResults), pids);
        closed == Launcher.ClosedFds(launched) &&
        finalState == Supervise(State(launched, CountEnabled(js), 0, []), polls) &&
        jobList[..] == finalState.jobs &&
        exit == (if finalState.active == 0 then Some(Exit(0, "")) else None)
  {
    closed := [];
    finalState := State([], 0, 0, []);
    exit := Launcher.CreatePipes(jobList, pipeResults);
    if exit.Some? {
      return;
    }
    ghost var wired := jobList[..];
    var activeJobs := Launch(jobList, pids);
    assert CountEnabled(wired) == CountEnabled(old(jobList[..])) by {
      EnabledKept(old(jobList[..]), wired);
    }
    closed := Launcher.CloseFds(jobList);
    var active, seconds, actions := SuperviseLoop(jobList, activeJobs, polls);
    finalState := State(jobList[..], active, seconds, actions);
    if active == 0 {
      exit := Some(Exit(0, ""));
    }
  }

  /** Two job lists with the same enabled flags have the same number of enabled jobs. */
  lemma {:induction false} EnabledKept(a: seq<Job>, b: seq<Job>)
    requires |a| == |b| && forall i :: 0 <= i < |a| ==> a[i].enabled == b[i].enabled
    ensures CountEnabled(a) == CountEnabled(b)
  {
    if a != [] {
      EnabledKept(a[..|a| - 1], b[..|b| - 1]);
    }
  }

  /**
   * A run that starts right after the fork loop keeps activeJobs equal to the
   * number of enabled jobs not yet seen to end.
   */
  lemma RunCountsActive(js: seq<Job>, pids: seq<int>, polls: seq<Poll>)
    requires |pids| == |js| && PollsFit(polls, |js|)
    requires forall j :: 0 <= j < |js| ==> !js[j].terminated
    requires Consistent(State(Launched(js, pids), CountEnabled(js), 0, []), polls)
    ensures var r := Supervise(State(Launched(js, pids), CountEnabled(js), 0, []), polls);
      r.active == ActiveCount(r.jobs)
  {
    var launched := Launched(js, pids);
    EnabledKept(js, launched);
    ActiveCountFresh(launched);
    SuperviseKeepsCount(State(launched, CountEnabled(js), 0, []), polls);
  }
}
