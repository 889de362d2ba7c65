/**
 * Job validation of jobrunner (A3/parse.c): opening the input and output
 * files of each job, the pipe usage rule (exactly one reader and one writer),
 * the single cascade pass over linked jobs, and the "no runnable jobs" exit.
 * The job list is an array of job records updated in place.
 */
module PipeCheck {
  import opened Wrappers
  import opened Jobs
  import opened PipeRegistry
  import JobParse

  const NO_RUNNABLE := "jobrunner: no runnable jobs"

  /** The job takes from or sends to the given name. */
  predicate Uses(job: Job, name: string) {
    job.takeFrom == name || job.sendTo == name
  }

  function EnabledOf(js: seq<Job>): seq<bool> {
    seq(|js|, i requires 0 <= i < |js| => js[i].enabled)
  }

  function WithEnabled(js: seq<Job>, en: seq<bool>): seq<Job>
    requires |en| == |js|
  {
    seq(|js|, i requires 0 <= i < |js| => js[i].(enabled := en[i]))
  }

  // ---------------------------------------------------------------------
  // disable_jobs

  /** Every job that takes from or sends to name is disabled; nothing else changes. */
  function Disabled(js: seq<Job>, name: string): seq<Job> {
    seq(|js|, i requires 0 <= i < |js| => if Uses(js[i], name) then js[i].(enabled := false) else js[i])
  }

  method DisableJobs(pipeName: string, jobList: array<Job>)
    modifies jobList
    ensures jobList[..] == Disabled(old(jobList[..]), pipeName)
  {
    var i := 0;
    while i < jobList.Length
      invariant 0 <= i <= jobList.Length
      invariant forall k :: 0 <= k < i ==> jobList[k] == Disabled(old(jobList[..]), pipeName)[k]
      invariant forall k :: i <= k < jobList.Length ==> jobList[k] == old(jobList[k])
    {
      if pipeName == jobList[i].takeFrom {
        jobList[i] := jobList[i].(enabled := false);
      }
      if pipeName == jobList[i].sendTo {
        jobList[i] := jobList[i].(enabled := false);
      }
      i := i + 1;
    }
  }

  // ---------------------------------------------------------------------
  // make_inout_arrs

  method MakeInOutArrs(jobList: array<Job>) returns (ins: seq<Option<string>>, outs: seq<Option<string>>)
    ensures ins == Ins(jobList[..]) && outs == Outs(jobList[..])
  {
    ins, outs := [], [];
    var i := 0;
    while i < jobList.Length
      invariant 0 <= i <= jobList.Length
      invariant |ins| == i && |outs| == i
      invariant forall k :: 0 <= k < i ==> ins[k] == InPipe(jobList[k]) && outs[k] == OutPipe(jobList[k])
    {
      if jobList[i].takeFrom != [] && jobList[i].takeFrom[0] == '@' {
        ins := ins + [Some(jobList[i].takeFrom)];
      } else {
        ins := ins + [None];
      }
      if jobList[i].sendTo != [] && jobList[i].sendTo[0] == '@' {
        outs := outs + [Some(jobList[i].sendTo)];
      } else {
        outs := outs + [None];
      }
      i := i + 1;
    }
  }

  // ---------------------------------------------------------------------
  // check_pipes: the counting pass

  /** The distinct pipe names of a job list, in order of first reference. */
  function Pipes(js: seq<Job>): seq<string> {
    Dedup(Refs(Ins(js), Outs(js)))
  }

  /** Every name in the pipe list starts with '@'. */
  lemma PipesAreNamed(js: seq<Job>)
    ensures forall k :: 0 <= k < |Pipes(js)| ==> IsPipeName(Pipes(js)[k])
  {
    GetPipesSpec(Ins(js), Outs(js));
    forall k | 0 <= k < |Pipes(js)| ensures IsPipeName(Pipes(js)[k]) {
      assert Pipes(js)[k] in Pipes(js);
      assert Referenced(Ins(js), Outs(js), Pipes(js)[k]);
    }
  }

  function InvalidPipeMessage(name: string): string
    requires |name| > 0
  {
    "Invalid pipe usage \"" + name[1..] + "\""
  }

  /** The messages of the counting pass: one per invalid pipe, in list order. */
  function PipeErrors(ins: seq<Option<string>>, outs: seq<Option<string>>, pipes: seq<string>): seq<string>
    requires forall k :: 0 <= k < |pipes| ==> |pipes[k]| > 0
  {
    if pipes == [] then []
    else
      var n := |pipes| - 1;
      PipeErrors(ins, outs, pipes[..n]) + (if ValidPipe(ins, outs, pipes[n]) then [] else [InvalidPipeMessage(pipes[n])])
  }

  /** The jobs after the counting pass: every user of an invalid pipe is disabled. */
  function MarkInvalid(js: seq<Job>, ins: seq<Option<string>>, outs: seq<Option<string>>, pipes: seq<string>): (r: seq<Job>)
    ensures |r| == |js|
  {
    if pipes == [] then js
    else
      var n := |pipes| - 1;
      var marked := MarkInvalid(js, ins, outs, pipes[..n]);
      if ValidPipe(ins, outs, pipes[n]) then marked else Disabled(marked, pipes[n])
  }

  /** The pipe list after the counting pass: invalid pipes become NULL. */
  function ValidList(ins: seq<Option<string>>, outs: seq<Option<string>>, pipes: seq<string>): seq<Option<string>> {
    seq(|pipes|, k requires 0 <= k < |pipes| => if ValidPipe(ins, outs, pipes[k]) then Some(pipes[k]) else None)
  }

  /** The number of readers and the number of writers of name. */
  method CountUsers(ins: seq<Option<string>>, outs: seq<Option<string>>, name: string)
    returns (inMatches: nat, outMatches: nat)
    requires |ins| == |outs|
    ensures inMatches == CountRefs(ins, name) && outMatches == CountRefs(outs, name)
  {
    inMatches, outMatches := 0, 0;
    var jobNum := 0;
    while jobNum < |ins|
      invariant 0 <= jobNum <= |ins|
      invariant inMatches == CountRefs(ins[..jobNum], name)
      invariant outMatches == CountRefs(outs[..jobNum], name)
    {
      assert ins[..jobNum + 1][..jobNum] == ins[..jobNum];
      assert outs[..jobNum + 1][..jobNum] == outs[..jobNum];
      if ins[jobNum].Some? && ins[jobNum].value == name {
        inMatches := inMatches + 1;
      }
      if outs[jobNum].Some? && outs[jobNum].value == name {
        outMatches := outMatches + 1;
      }
      jobNum := jobNum + 1;
    }
    assert ins[..jobNum] == ins && outs[..jobNum] == outs;
  }

  // ---------------------------------------------------------------------
  // check_cascade

  /** The index of the last entry of xs naming p. */
  function LastIndex(xs: seq<Option<string>>, p: string): (r: nat)
    requires Some(p) in xs
    ensures r < |xs| && xs[r] == Some(p)
    ensures forall j :: r < j < |xs| ==> xs[j] != Some(p)
  {
    var n := |xs| - 1;
    if xs[n] == Some(p) then n
    else
      assert xs == xs[..n] + [xs[n]];
      LastIndex(xs[..n], p)
  }

  /** Every pipe left in the list has a reader and a writer. */
  predicate Linkable(ins: seq<Option<string>>, outs: seq<Option<string>>, valid: seq<Option<string>>) {
    forall k :: 0 <= k < |valid| && valid[k].Some? ==> Some(valid[k].value) in ins && Some(valid[k].value) in outs
  }

  /** One pipe of the cascade: if its reader or its writer is disabled, both are. */
  function CascadeStep(en: seq<bool>, ins: seq<Option<string>>, outs: seq<Option<string>>, p: string): (r: seq<bool>)
    requires |ins| == |en| && |outs| == |en| && Some(p) in ins && Some(p) in outs
    ensures |r| == |en|
  {
    var firstMatch, secondMatch := LastIndex(ins, p), LastIndex(outs, p);
    if !en[firstMatch] || !en[secondMatch] then en[firstMatch := false][secondMatch := false] else en
  }

  /** The cascade: one step per pipe left in the list, in list order. */
  function Cascade(en: seq<bool>, ins: seq<Option<string>>, outs: seq<Option<string>>, valid: seq<Option<string>>): (r: seq<bool>)
    requires |ins| == |en| && |outs| == |en| && Linkable(ins, outs, valid)
    ensures |r| == |en|
  {
    if valid == [] then en
    else
      var n := |valid| - 1;
      var e := Cascade(en, ins, outs, valid[..n]);
      if valid[n].None? then e else CascadeStep(e, ins, outs, valid[n].value)
  }

  /** The inner loop of check_cascade: the last reader and the last writer of p. */
  method FindLinks(ins: seq<Option<string>>, outs: seq<Option<string>>, p: string)
    returns (firstMatch: int, secondMatch: int)
    requires |ins| == |outs| && Some(p) in ins && Some(p) in outs
    ensures firstMatch == LastIndex(ins, p) && secondMatch == LastIndex(outs, p)
  {
    firstMatch, secondMatch := -1, -1;
    var jobNum := 0;
    while jobNum < |ins|
      invariant 0 <= jobNum <= |ins|
      invariant -1 <= firstMatch < jobNum && -1 <= secondMatch < jobNum
      invariant firstMatch >= 0 ==> ins[firstMatch] == Some(p)
      invariant secondMatch >= 0 ==> outs[secondMatch] == Some(p)
      invariant forall j :: firstMatch < j < jobNum ==> ins[j] != Some(p)
      invariant forall j :: secondMatch < j < jobNum ==> outs[j] != Some(p)
    {
      if ins[jobNum].Some? && ins[jobNum].value == p {
        firstMatch := jobNum;
      }
      if outs[jobNum].Some? && outs[jobNum].value == p {
        secondMatch := jobNum;
      }
      jobNum := jobNum + 1;
    }
  }

  method CheckCascade(ins: seq<Option<string>>, outs: seq<Option<string>>, jobList: array<Job>, allPipes: seq<Option<string>>)
    requires |ins| == jobList.Length && |outs| == jobList.Length && Linkable(ins, outs, allPipes)
    modifies jobList
    ensures jobList[..] == WithEnabled(old(jobList[..]), Cascade(EnabledOf(old(jobList[..])), ins, outs, allPipes))
  {
    ghost var js := jobList[..];
    var pipeNum := 0;
    while pipeNum < |allPipes|
      invariant 0 <= pipeNum <= |allPipes|
      invariant jobList[..] == WithEnabled(js, Cascade(EnabledOf(js), ins, outs, allPipes[..pipeNum]))
    {
      assert allPipes[..pipeNum + 1][..pipeNum] == allPipes[..pipeNum];
      if allPipes[pipeNum].Some? {
        var firstMatch, secondMatch := FindLinks(ins, outs, allPipes[pipeNum].value);
        if !jobList[firstMatch].enabled || !jobList[secondMatch].enabled {
          jobList[firstMatch] := jobList[firstMatch].(enabled := false);
          jobList[secondMatch] := jobList[secondMatch].(enabled := false);
        }
      }
      pipeNum := pipeNum + 1;
    }
    assert allPipes[..pipeNum] == allPipes;
  }

  // ---------------------------------------------------------------------
  // check_pipes

  /** A valid pipe has a reader and a writer, so the pipes left after counting can be linked. */
  lemma ValidListLinkable(ins: seq<Option<string>>, outs: seq<Option<string>>, pipes: seq<string>)
    ensures Linkable(ins, outs, ValidList(ins, outs, pipes))
  {
    forall k | 0 <= k < |pipes| && ValidPipe(ins, outs, pipes[k])
      ensures Some(pipes[k]) in ins && Some(pipes[k]) in outs
    {
      CountRefsZero(ins, pipes[k]);
      CountRefsZero(outs, pipes[k]);
    }
  }

  /** The jobs after check_pipes: the counting pass, then the cascade over the valid pipes. */
  function PipeCheckResult(js: seq<Job>): (r: seq<Job>)
    ensures |r| == |js|
  {
    var ins, outs, pipes := Ins(js), Outs(js), Pipes(js);
    var marked := MarkInvalid(js, ins, outs, pipes);
    ValidListLinkable(ins, outs, pipes);
    WithEnabled(marked, Cascade(EnabledOf(marked), ins, outs, ValidList(ins, outs, pipes)))
  }

  /** What check_pipes writes to stderr. */
  function PipeLog(js: seq<Job>): seq<string> {
    PipesAreNamed(js);
    PipeErrors(Ins(js), Outs(js), Pipes(js))
  }

  method CheckPipes(jobList: array<Job>) returns (log: seq<string>)
    modifies jobList
    ensures jobList[..] == PipeCheckResult(old(jobList[..]))
    ensures log == PipeLog(old(jobList[..]))
  {
    ghost var js := jobList[..];
    var ins, outs := MakeInOutArrs(jobList);
    var allPipes := GetPipes(ins, outs);
    PipesAreNamed(js);
    assert allPipes == Pipes(js);
    var valid;
    log, valid := CountingPass(ins, outs, allPipes, jobList);
    ValidListLinkable(ins, outs, allPipes);
    CheckCascade(ins, outs, jobList, valid);
  }

  /** The pipe list once the first n pipes were counted: the invalid ones among them are NULL. */
  function Pending(ins: seq<Option<string>>, outs: seq<Option<string>>, pipes: seq<string>, n: nat): (r: seq<Option<string>>)
    ensures |r| == |pipes|
  {
    seq(|pipes|, k requires 0 <= k < |pipes| => if k < n && !ValidPipe(ins, outs, pipes[k]) then None else Some(pipes[k]))
  }

  lemma PendingDone(ins: seq<Option<string>>, outs: seq<Option<string>>, pipes: seq<string>)
    ensures Pending(ins, outs, pipes, |pipes|) == ValidList(ins, outs, pipes)
  {
  }

  /** One more pipe counted: what it adds to the log, the disabled jobs and the pipe list. */
  lemma PassSnoc(js: seq<Job>, ins: seq<Option<string>>, outs: seq<Option<string>>, pipes: seq<string>, n: nat)
    requires n < |pipes| && forall k :: 0 <= k < |pipes| ==> |pipes[k]| > 0
    ensures var valid := ValidPipe(ins, outs, pipes[n]);
      && PipeErrors(ins, outs, pipes[..n + 1]) ==
        PipeErrors(ins, outs, pipes[..n]) + (if valid then [] else [InvalidPipeMessage(pipes[n])])
      && MarkInvalid(js, ins, outs, pipes[..n + 1]) ==
        (if valid then MarkInvalid(js, ins, outs, pipes[..n]) else Disabled(MarkInvalid(js, ins, outs, pipes[..n]), pipes[n]))
      && Pending(ins, outs, pipes, n + 1) ==
        (if valid then Pending(ins, outs, pipes, n) else Pending(ins, outs, pipes, n)[n := None])
  {
    assert pipes[..n + 1][..n] == pipes[..n];
  }

  /**
   * One pass of the pipe loop: count the users of pipe number pipeNum and,
   * when it is invalid, report it, disable its users and drop it from the list.
   */
  method CountPipe(ins: seq<Option<string>>, outs: seq<Option<string>>, allPipes: seq<string>, pipeNum: nat,
                   jobList: array<Job>, pipeList: array<Option<string>>, ghost js: seq<Job>, log: seq<string>)
    returns (log': seq<string>)
    requires |ins| == |outs| && pipeNum < |allPipes|
    requires forall k :: 0 <= k < |allPipes| ==> |allPipes[k]| > 0
    requires jobList[..] == MarkInvalid(js, ins, outs, allPipes[..pipeNum])
    requires log == PipeErrors(ins, outs, allPipes[..pipeNum])
    requires pipeList[..] == Pending(ins, outs, allPipes, pipeNum)
    modifies jobList, pipeList
    ensures jobList[..] == MarkInvalid(js, ins, outs, allPipes[..pipeNum + 1])
    ensures log' == PipeErrors(ins, outs, allPipes[..pipeNum + 1])
    ensures pipeList[..] == Pending(ins, outs, allPipes, pipeNum + 1)
  {
    PassSnoc(js, ins, outs, allPipes, pipeNum);
    var name := allPipes[pipeNum];
    var inMatches, outMatches := CountUsers(ins, outs, name);
    log' := log;
    if inMatches != 1 || outMatches != 1 {
      log' := log + [InvalidPipeMessage(name)];
      DisableJobs(name, jobList);
      pipeList[pipeNum] := None;
    }
  }

  /**
   * The pipe loop of check_pipes: counts the readers and writers of each pipe;
   * for an invalid one, reports it, disables its users and drops it from the list.
   */
  method CountingPass(ins: seq<Option<string>>, outs: seq<Option<string>>, allPipes: seq<string>, jobList: array<Job>)
    returns (log: seq<string>, valid: seq<Option<string>>)
    requires |ins| == |outs|
    requires forall k :: 0 <= k < |allPipes| ==> |allPipes[k]| > 0
    modifies jobList
    ensures jobList[..] == MarkInvalid(old(jobList[..]), ins, outs, allPipes)
    ensures log == PipeErrors(ins, outs, allPipes)
    ensures valid == ValidList(ins, outs, allPipes)
  {
    ghost var js := jobList[..];
    var pipeList := new Option<string>[|allPipes|](k requires 0 <= k < |allPipes| => Some(allPipes[k]));
    log := [];
    var pipeNum := 0;
    while pipeNum < |allPipes|
      invariant 0 <= pipeNum <= |allPipes|
      invariant jobList[..] == MarkInvalid(js, ins, outs, allPipes[..pipeNum])
      invariant log == PipeErrors(ins, outs, allPipes[..pipeNum])
      invariant pipeList[..] == Pending(ins, outs, allPipes, pipeNum)
    {
      log := CountPipe(ins, outs, allPipes, pipeNum, jobList, pipeList, js, log);
      pipeNum := pipeNum + 1;
    }
    assert allPipes[..pipeNum] == allPipes;
    PendingDone(ins, outs, allPipes);
    valid := pipeList[..];
  }

  // ---------------------------------------------------------------------
  // open_err and check_jobs

  /** A job's input or output is a file when it is neither "-" nor a pipe name. */
  predicate NeedsOpen(name: string) {
    name != "-" && !IsPipeName(name)
  }

  /** A job after an attempt to open one of its files, and what was written to stderr. */
  datatype Opened = Opened(job: Job, errors: seq<string>)

  /**
   * open_err: fd is what open() returned for the job's input (STDIN) or
   * output (STDOUT) file. A failure disables the job and is reported; a
   * success stores the descriptor in the matching slot.
   */
  function OpenErr(fileType: int, job: Job, fd: int): (r: Opened)
    ensures fileType == STDIN || fileType == STDOUT ==>
      (r.errors != [] <==> fd < 0) && (r.job.enabled <==> job.enabled && fd >= 0)
    ensures fileType == STDIN && fd >= 0 ==> r.job.inOutClose.input == fd
    ensures fileType == STDOUT && fd >= 0 ==> r.job.inOutClose.output == fd
    ensures r.job == job.(enabled := r.job.enabled, inOutClose := r.job.inOutClose)
  {
    if fileType == STDIN then
      if fd < 0 then Opened(job.(enabled := false), ["Unable to open \"" + job.takeFrom + "\" for reading"])
      else Opened(job.(inOutClose := job.inOutClose.(input := fd)), [])
    else if fileType == STDOUT then
      if fd < 0 then Opened(job.(enabled := false), ["Unable to open \"" + job.sendTo + "\" for writing"])
      else Opened(job.(inOutClose := job.inOutClose.(output := fd)), [])
    else Opened(job, [])
  }

  /** The first loop of check_jobs for one job: open its input file, then its output file. */
  function OpenJob(job: Job, inFd: int, outFd: int): Opened {
    var a := if NeedsOpen(job.takeFrom) then OpenErr(STDIN, job, inFd) else Opened(job, []);
    var b := if NeedsOpen(a.job.sendTo) then OpenErr(STDOUT, a.job, outFd) else Opened(a.job, []);
    Opened(b.job, a.errors + b.errors)
  }

  function OpenAll(js: seq<Job>, inFds: seq<int>, outFds: seq<int>): (r: seq<Job>)
    requires |inFds| == |js| && |outFds| == |js|
    ensures |r| == |js|
  {
    seq(|js|, i requires 0 <= i < |js| => OpenJob(js[i], inFds[i], outFds[i]).job)
  }

  /** The jobs once the first i of them had their files opened. */
  function Partial(js: seq<Job>, inFds: seq<int>, outFds: seq<int>, i: nat): (r: seq<Job>)
    requires |inFds| == |js| && |outFds| == |js|
    ensures |r| == |js|
  {
    seq(|js|, k requires 0 <= k < |js| => if k < i then OpenJob(js[k], inFds[k], outFds[k]).job else js[k])
  }

  lemma PartialDone(js: seq<Job>, inFds: seq<int>, outFds: seq<int>)
    requires |inFds| == |js| && |outFds| == |js|
    ensures Partial(js, inFds, outFds, |js|) == OpenAll(js, inFds, outFds)
  {
  }

  lemma PartialStep(js: seq<Job>, inFds: seq<int>, outFds: seq<int>, i: nat)
    requires i < |js| && |inFds| == |js| && |outFds| == |js|
    ensures Partial(js, inFds, outFds, i)[i := OpenJob(js[i], inFds[i], outFds[i]).job] == Partial(js, inFds, outFds, i + 1)
    ensures Partial(js, inFds, outFds, i)[i] == js[i]
  {
  }

  /** The open failures of the first n jobs, in job order. */
  function OpenLog(js: seq<Job>, inFds: seq<int>, outFds: seq<int>, n: nat): seq<string>
    requires n <= |js| && |inFds| == |js| && |outFds| == |js|
  {
    if n == 0 then [] else OpenLog(js, inFds, outFds, n - 1) + OpenJob(js[n - 1], inFds[n - 1], outFds[n - 1]).errors
  }

  /** The jobs after check_jobs: file opens, then check_pipes. */
  function Validated(js: seq<Job>, inFds: seq<int>, outFds: seq<int>): seq<Job>
    requires |inFds| == |js| && |outFds| == |js|
  {
    PipeCheckResult(OpenAll(js, inFds, outFds))
  }

  /** The runnable-jobs count of check_jobs. */
  method CountRunnable(jobList: array<Job>) returns (runnableJobs: nat)
    ensures runnableJobs == CountEnabled(jobList[..])
  {
    runnableJobs := 0;
    var k := 0;
    while k < jobList.Length
      invariant 0 <= k <= jobList.Length
      invariant runnableJobs == CountEnabled(jobList[..k])
    {
      assert jobList[..k + 1][..k] == jobList[..k];
      if jobList[k].enabled {
        runnableJobs := runnableJobs + 1;
      }
      k := k + 1;
    }
    assert jobList[..k] == jobList[..];
  }

  /** The first loop of check_jobs: open every job's files, in job order. */
  method OpenFiles(jobList: array<Job>, inFds: seq<int>, outFds: seq<int>) returns (log: seq<string>)
    requires |inFds| == jobList.Length && |outFds| == jobList.Length
    modifies jobList
    ensures jobList[..] == OpenAll(old(jobList[..]), inFds, outFds)
    ensures log == OpenLog(old(jobList[..]), inFds, outFds, jobList.Length)
  {
    ghost var js := jobList[..];
    log := [];
    var i := 0;
    while i < jobList.Length
      invariant 0 <= i <= jobList.Length
      invariant jobList[..] == Partial(js, inFds, outFds, i)
      invariant log == OpenLog(js, inFds, outFds, i)
    {
      var attempt := OpenJob(jobList[i], inFds[i], outFds[i]);
      PartialStep(js, inFds, outFds, i);
      jobList[i] := attempt.job;
      log := log + attempt.errors;
      i := i + 1;
    }
    PartialDone(js, inFds, outFds);
  }

  /**
   * check_jobs: inFds[i] and outFds[i] are what open() returns for job i's
   * input and output file (unused when it has none). Returns what is written
   * to stderr and, when no job is left enabled, the exit with status 4.
   */
  method CheckJobs(jobList: array<Job>, verboseMode: bool, inFds: seq<int>, outFds: seq<int>)
    returns (log: seq<string>, exit: Option<Exit>)
    requires |inFds| == jobList.Length && |outFds| == jobList.Length
    modifies jobList
    ensures jobList[..] == Validated(old(jobList[..]), inFds, outFds)
    ensures exit == (if CountEnabled(jobList[..]) == 0 then Some(Exit(4, NO_RUNNABLE)) else None)
    ensures log == OpenLog(old(jobList[..]), inFds, outFds, jobList.Length)
      + PipeLog(OpenAll(old(jobList[..]), inFds, outFds))
      + (if exit.None? && verboseMode then JobParse.VerbosePrint(jobList[..]) else [])
  {
    log := OpenFiles(jobList, inFds, outFds);
    var pipeLog := CheckPipes(jobList);
    log := log + pipeLog;
    var runnableJobs := CountRunnable(jobList);
    if runnableJobs == 0 {
      exit := Some(Exit(4, NO_RUNNABLE));
    } else {
      exit := None;
      if verboseMode {
        log := log + JobParse.VerbosePrint(jobList[..]);
      }
    }
  }
}
