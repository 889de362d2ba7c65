/**
 * Launcher bookkeeping of jobrunner (A3/running.c): one OS pipe per pipe
 * name and its ends stored in the jobs' descriptor slots, the argument
 * vector handed to execvp, and the descriptors closed after the forks.
 * Each pipe() call is an input: the two descriptors it returns, or None
 * when it fails.
 */
module Launcher {
  import opened Wrappers
  import opened Jobs
  import opened PipeRegistry
  import opened CStrings
  import PipeCheck

  const READ_END := 0
  const WRITE_END := 1

  /** What one successful pipe() call stores: fds[READ_END] and fds[WRITE_END]. */
  datatype PipeFds = PipeFds(readEnd: int, writeEnd: int)

  // ---------------------------------------------------------------------
  // create_pipes

  /**
   * The inner loop of create_pipes for one job and the pipe p: a reader
   * stores the read end and marks the write end to close; a writer stores
   * the write end and marks the read end to close.
   */
  function WirePipe(job: Job, p: string, fds: PipeFds): (r: Job)
    ensures r == job.(inOutClose := r.inOutClose)
  {
    var j1 := if InPipe(job) == Some(p)
      then job.(inOutClose := job.inOutClose.(input := fds.readEnd, toClose := fds.writeEnd))
      else job;
    if OutPipe(j1) == Some(p)
    then j1.(inOutClose := j1.inOutClose.(output := fds.writeEnd, toClose := fds.readEnd))
    else j1
  }

  /** A job after the first n pipes of the list were created and wired. */
  function WireJob(job: Job, pipes: seq<string>, results: seq<Option<PipeFds>>, n: nat): (r: Job)
    requires n <= |pipes| && n <= |results|
    requires forall i :: 0 <= i < n ==> results[i].Some?
    ensures r == job.(inOutClose := r.inOutClose)
  {
    if n == 0 then job
    else WirePipe(WireJob(job, pipes, results, n - 1), pipes[n - 1], results[n - 1].value)
  }

  /** The number of pipe() calls, out of the first n, that succeed before the first failure. */
  function Succeeded(results: seq<Option<PipeFds>>, n: nat): (k: nat)
    requires n <= |results|
    ensures k <= n && forall i :: 0 <= i < k ==> results[i].Some?
    ensures k < n ==> results[k].None?
  {
    if n == 0 then 0
    else
      var k := Succeeded(results, n - 1);
      if k == n - 1 && results[n - 1].Some? then n else k
  }

  /** The jobs after create_pipes: wired for every pipe created before a failure, if any. */
  function Wired(js: seq<Job>, results: seq<Option<PipeFds>>): (r: seq<Job>)
    requires |PipeCheck.Pipes(js)| <= |results|
    ensures |r| == |js|
  {
    var pipes := PipeCheck.Pipes(js);
    var k := Succeeded(results, |pipes|);
    seq(|js|, j requires 0 <= j < |js| => WireJob(js[j], pipes, results, k))
  }

  /** The inner loop of create_pipes: every job using p gets the matching end. */
  method WireAll(jobList: array<Job>, ins: seq<Option<string>>, outs: seq<Option<string>>, p: string, fds: PipeFds)
    requires |ins| == jobList.Length && |outs| == jobList.Length
    requires forall j :: 0 <= j < jobList.Length ==> ins[j] == InPipe(jobList[j]) && outs[j] == OutPipe(jobList[j])
    modifies jobList
    ensures forall j :: 0 <= j < jobList.Length ==> jobList[j] == WirePipe(old(jobList[j]), p, fds)
  {
    var jobNum := 0;
    while jobNum < jobList.Length
      invariant 0 <= jobNum <= jobList.Length
      invariant forall j :: 0 <= j < jobNum ==> jobList[j] == WirePipe(old(jobList[j]), p, fds)
      invariant forall j :: jobNum <= j < jobList.Length ==> jobList[j] == old(jobList[j])
    {
      if ins[jobNum].Some? && ins[jobNum].value == p {
        jobList[jobNum] := jobList[jobNum].(inOutClose := jobList[jobNum].inOutClose.(input := fds.readEnd, toClose := fds.writeEnd));
      }
      if outs[jobNum].Some? && outs[jobNum].value == p {
        jobList[jobNum] := jobList[jobNum].(inOutClose := jobList[jobNum].inOutClose.(output := fds.writeEnd, toClose := fds.readEnd));
      }
      jobNum := jobNum + 1;
    }
  }

  /**
   * create_pipes: one pipe() call per distinct pipe name of all jobs,
   * enabled or not, valid or not. A failing call exits with status -1.
   */
  method CreatePipes(jobList: array<Job>, pipeResults: seq<Option<PipeFds>>) returns (exit: Option<Exit>)
    requires |PipeCheck.Pipes(jobList[..])| <= |pipeResults|
    modifies jobList
    ensures jobList[..] == Wired(old(jobList[..]), pipeResults)
    ensures var n := |PipeCheck.Pipes(old(jobList[..]))|;
      exit == (if Succeeded(pipeResults, n) < n then Some(Exit(-1, "")) else None)
  {
    ghost var js := jobList[..];
    var ins, outs := PipeCheck.MakeInOutArrs(jobList);
    var allPipes := GetPipes(ins, outs);
    assert allPipes == PipeCheck.Pipes(js);
    var made := PipeLoop(jobList, ins, outs, allPipes, pipeResults);
    assert jobList[..] == Wired(js, pipeResults);
    if made < |allPipes| {
      exit := Some(Exit(-1, ""));
    } else {
      exit := None;
    }
  }

  /** The pipe loop of create_pipes: returns how many pipe() calls succeeded before it stopped. */
  method PipeLoop(jobList: array<Job>, ins: seq<Option<string>>, outs: seq<Option<string>>,
                  allPipes: seq<string>, pipeResults: seq<Option<PipeFds>>) returns (made: nat)
    requires |allPipes| <= |pipeResults|
    requires |ins| == jobList.Length && |outs| == jobList.Length
    requires forall j :: 0 <= j < jobList.Length ==> ins[j] == InPipe(jobList[j]) && outs[j] == OutPipe(jobList[j])
    modifies jobList
    ensures made == Succeeded(pipeResults, |allPipes|)
    ensures forall j :: 0 <= j < jobList.Length ==> jobList[j] == WireJob(old(jobList[j]), allPipes, pipeResults, made)
  {
    var pipeNum := 0;
    while pipeNum < |allPipes|
      invariant 0 <= pipeNum <= |allPipes|
      invariant forall i :: 0 <= i < pipeNum ==> pipeResults[i].Some?
      invariant forall j :: 0 <= j < jobList.Length ==> jobList[j] == WireJob(old(jobList[j]), allPipes, pipeResults, pipeNum)
      invariant forall j :: 0 <= j < jobList.Length ==> ins[j] == InPipe(jobList[j]) && outs[j] == OutPipe(jobList[j])
    {
      if pipeResults[pipeNum].None? {
        SucceededAt(pipeResults, |allPipes|, pipeNum);
        return pipeNum;
      }
      WireAll(jobList, ins, outs, allPipes[pipeNum], pipeResults[pipeNum].value);
      pipeNum := pipeNum + 1;
    }
    SucceededAt(pipeResults, |allPipes|, pipeNum);
    made := pipeNum;
  }

  /** The calls before k succeed and call k fails (or k is n): then k calls succeeded. */
  lemma SucceededAt(results: seq<Option<PipeFds>>, n: nat, k: nat)
    requires k <= n <= |results|
    requires forall i :: 0 <= i < k ==> results[i].Some?
    requires k < n ==> results[k].None?
    ensures Succeeded(results, n) == k
  {
  }

  // ---------------------------------------------------------------------
  // Where the slots end up

  /** The position of the job's input pipe among the first n pipes, or -1. */
  function InIndex(job: Job, pipes: seq<string>, n: nat): int
    requires n <= |pipes|
  {
    if InPipe(job).Some? && job.takeFrom in pipes[..n] then FirstIndex(pipes[..n], job.takeFrom) else -1
  }

  /** The position of the job's output pipe among the first n pipes, or -1. */
  function OutIndex(job: Job, pipes: seq<string>, n: nat): int
    requires n <= |pipes|
  {
    if OutPipe(job).Some? && job.sendTo in pipes[..n] then FirstIndex(pipes[..n], job.sendTo) else -1
  }

  /**
   * The slots a job holds once the first n pipes exist: the read end of its
   * input pipe, the write end of its output pipe, and as the end to close the
   * opposite end of whichever of the two was created later (the output when
   * both are the same pipe); a slot with no pipe keeps its value.
   */
  function SlotsAfter(job: Job, pipes: seq<string>, results: seq<Option<PipeFds>>, n: nat): FdSlots
    requires n <= |pipes| && n <= |results|
    requires forall i :: 0 <= i < n ==> results[i].Some?
  {
    var ki, ko := InIndex(job, pipes, n), OutIndex(job, pipes, n);
    FdSlots(
      if ki >= 0 then results[ki].value.readEnd else job.inOutClose.input,
      if ko >= 0 then results[ko].value.writeEnd else job.inOutClose.output,
      if ko >= 0 && ko >= ki then results[ko].value.readEnd
      else if ki >= 0 then results[ki].value.writeEnd
      else job.inOutClose.toClose)
  }

  lemma NextIndex(pipes: seq<string>, n: nat, x: string)
    requires n < |pipes| && NoDuplicates(pipes)
    ensures x in pipes[..n + 1] <==> x in pipes[..n] || x == pipes[n]
    ensures x == pipes[n] ==> FirstIndex(pipes[..n + 1], x) == n
    ensures x in pipes[..n] ==> FirstIndex(pipes[..n + 1], x) == FirstIndex(pipes[..n], x)
  {
    assert pipes[..n + 1] == pipes[..n] + [pipes[n]];
    if x in pipes[..n] {
      FirstIndexPrefix(pipes[..n + 1], n, x);
      assert pipes[..n + 1][..n] == pipes[..n];
    }
    if x == pipes[n] {
      var r := FirstIndex(pipes[..n + 1], x);
      assert pipes[r] == x;
    }
  }

  /** The wiring loop leaves each job with the slots SlotsAfter describes. */
  lemma {:induction false} WireJobSlots(job: Job, pipes: seq<string>, results: seq<Option<PipeFds>>, n: nat)
    requires n <= |pipes| && n <= |results| && NoDuplicates(pipes)
    requires forall i :: 0 <= i < n ==> results[i].Some?
    ensures WireJob(job, pipes, results, n) == job.(inOutClose := SlotsAfter(job, pipes, results, n))
  {
    if n > 0 {
      var m := n - 1;
      WireJobSlots(job, pipes, results, m);
      IndexStep(job, pipes, n);
      var prev := WireJob(job, pipes, results, m);
      assert InPipe(prev) == InPipe(job) && OutPipe(prev) == OutPipe(job);
    }
  }

  /** Creating pipe n - 1 makes it the job's input or output pipe exactly when the job names it. */
  lemma IndexStep(job: Job, pipes: seq<string>, n: nat)
    requires 0 < n <= |pipes| && NoDuplicates(pipes)
    ensures InIndex(job, pipes, n) == if InPipe(job) == Some(pipes[n - 1]) then n - 1 else InIndex(job, pipes, n - 1)
    ensures OutIndex(job, pipes, n) == if OutPipe(job) == Some(pipes[n - 1]) then n - 1 else OutIndex(job, pipes, n - 1)
  {
    NextIndex(pipes, n - 1, job.takeFrom);
    NextIndex(pipes, n - 1, job.sendTo);
  }

  /**
   * After create_pipes succeeds, a job reading pipe p holds the read end of
   * p's pipe, a job writing p holds its write end, the end to close is the
   * opposite end of the later of the two pipes, and a job using no pipe keeps
   * its slots.
   */
  lemma CreatePipesSlots(js: seq<Job>, results: seq<Option<PipeFds>>, j: nat)
    requires |PipeCheck.Pipes(js)| <= |results| && j < |js|
    requires Succeeded(results, |PipeCheck.Pipes(js)|) == |PipeCheck.Pipes(js)|
    ensures var pipes, s := PipeCheck.Pipes(js), Wired(js, results)[j].inOutClose;
      (IsPipeName(js[j].takeFrom) ==>
        (js[j].takeFrom in pipes && s.input == results[FirstIndex(pipes, js[j].takeFrom)].value.readEnd)) &&
      (IsPipeName(js[j].sendTo) ==>
        (js[j].sendTo in pipes && s.output == results[FirstIndex(pipes, js[j].sendTo)].value.writeEnd)) &&
      (IsPipeName(js[j].takeFrom) && !IsPipeName(js[j].sendTo) ==>
        s.toClose == results[FirstIndex(pipes, js[j].takeFrom)].value.writeEnd) &&
      (IsPipeName(js[j].sendTo) && !IsPipeName(js[j].takeFrom) ==>
        s.toClose == results[FirstIndex(pipes, js[j].sendTo)].value.readEnd) &&
      (IsPipeName(js[j].takeFrom) && IsPipeName(js[j].sendTo) ==>
        var ki, ko := FirstIndex(pipes, js[j].takeFrom), FirstIndex(pipes, js[j].sendTo);
        s.toClose == if ko >= ki then results[ko].value.readEnd else results[ki].value.writeEnd)
    ensures !IsPipeName(js[j].takeFrom) && !IsPipeName(js[j].sendTo) ==> Wired(js, results)[j] == js[j]
  {
    var pipes := PipeCheck.Pipes(js);
    GetPipesSpec(Ins(js), Outs(js));
    WireJobSlots(js[j], pipes, results, |pipes|);
    assert pipes[..|pipes|] == pipes;
    if IsPipeName(js[j].takeFrom) {
      assert Referenced(Ins(js), Outs(js), js[j].takeFrom);
    }
    if IsPipeName(js[j].sendTo) {
      assert Referenced(Ins(js), Outs(js), js[j].sendTo);
    }
  }

  // ---------------------------------------------------------------------
  // make_exec

  /** make_exec: the program name, then the job's arguments, then NULL. */
  function MakeExec(job: Job): (execArgs: seq<Option<string>>)
    ensures None in execArgs && CountArgs(execArgs) == |job.opArgs| + 1
    ensures execArgs[0] == Some(job.program)
    ensures forall i :: 0 <= i < |job.opArgs| ==> execArgs[i + 1] == Some(job.opArgs[i])
    ensures |execArgs| == |job.opArgs| + 2
  {
    var args := [Some(job.program)] + seq(|job.opArgs|, i requires 0 <= i < |job.opArgs| => Some(job.opArgs[i])) + [None];
    assert args[|args| - 1] == None;
    CountArgsAt(args, |job.opArgs| + 1);
    args
  }

  /** count_args stops at the first NULL. */
  lemma {:induction false} CountArgsAt(args: seq<Option<string>>, n: nat)
    requires n < |args| && args[n] == None && forall i :: 0 <= i < n ==> args[i].Some?
    ensures None in args && CountArgs(args) == n
  {
    if n > 0 {
      CountArgsAt(args[1..], n - 1);
    }
  }

  // ---------------------------------------------------------------------
  // close_fds

  /** The descriptors close_fds closes for one job, in call order. */
  function ClosedBy(job: Job): seq<int> {
    (if job.inOutClose.toClose != -1 then [job.inOutClose.toClose] else [])
    + (if job.inOutClose.input != STDIN then [job.inOutClose.input] else [])
    + (if job.inOutClose.output != STDOUT then [job.inOutClose.output] else [])
  }

  /** The close() calls of close_fds, every job in order, enabled or not. */
  function ClosedFds(js: seq<Job>): seq<int> {
    if js == [] then [] else ClosedFds(js[..|js| - 1]) + ClosedBy(js[|js| - 1])
  }

  method CloseFds(jobList: array<Job>) returns (closed: seq<int>)
    ensures closed == ClosedFds(jobList[..])
  {
    closed := [];
    var j := 0;
    while j < jobList.Length
      invariant 0 <= j <= jobList.Length
      invariant closed == ClosedFds(jobList[..j])
    {
      assert jobList[..j + 1][..j] == jobList[..j];
      ghost var before := closed;
      var slots := jobList[j].inOutClose;
      if slots.toClose != -1 {
        closed := closed + [slots.toClose];
      }
      if slots.input != STDIN {
        closed := closed + [slots.input];
      }
      if slots.output != STDOUT {
        closed := closed + [slots.output];
      }
      assert closed == before + ClosedBy(jobList[j]);
      j := j + 1;
    }
    assert jobList[..j] == jobList[..];
  }

  /** The job holds fd in a slot that close_fds closes. */
  predicate ClosesSlot(job: Job, fd: int) {
    (fd == job.inOutClose.toClose && fd != -1)
    || (fd == job.inOutClose.input && fd != STDIN)
    || (fd == job.inOutClose.output && fd != STDOUT)
  }

  /**
   * close_fds closes exactly the ends to close that are not -1, the inputs
   * that are not stdin and the outputs that are not stdout, over every job.
   */
  lemma {:induction false} ClosedFdsSpec(js: seq<Job>, fd: int)
    ensures fd in ClosedFds(js) <==> exists j :: 0 <= j < |js| && ClosesSlot(js[j], fd)
  {
    if js != [] {
      var n := |js| - 1;
      ClosedFdsSpec(js[..n], fd);
      ClosedBySpec(js[n], fd);
      ClosingSnoc(js, js[..n], fd);
    }
  }

  /** Some job of a non-empty list holds fd exactly when some job before the last does, or the last does. */
  lemma ClosingSnoc(js: seq<Job>, init: seq<Job>, fd: int)
    requires js != [] && init == js[..|js| - 1]
    ensures (exists j :: 0 <= j < |js| && ClosesSlot(js[j], fd)) <==>
      (exists j :: 0 <= j < |init| && ClosesSlot(init[j], fd)) || ClosesSlot(js[|js| - 1], fd)
  {
    var n := |init|;
    if exists j :: 0 <= j < |js| && ClosesSlot(js[j], fd) {
      var j :| 0 <= j < |js| && ClosesSlot(js[j], fd);
      if j < n {
        assert init[j] == js[j];
      }
    }
    if exists j :: 0 <= j < n && ClosesSlot(init[j], fd) {
      var j :| 0 <= j < n && ClosesSlot(init[j], fd);
      assert js[j] == init[j];
    }
  }

  /** One job's close() calls are exactly the slots it holds that are not the defaults. */
  lemma ClosedBySpec(job: Job, fd: int)
    ensures fd in ClosedBy(job) <==> ClosesSlot(job, fd)
  {
  }

  /**
   * Once create_pipes succeeded, both ends of a pipe with a reader and a
   * writer are closed by close_fds, provided pipe() did not hand out the
   * descriptors of the standard streams.
   */
  lemma LinkedPipeClosed(js: seq<Job>, results: seq<Option<PipeFds>>, a: nat, b: nat)
    requires |PipeCheck.Pipes(js)| <= |results| && a < |js| && b < |js|
    requires Succeeded(results, |PipeCheck.Pipes(js)|) == |PipeCheck.Pipes(js)|
    requires IsPipeName(js[a].takeFrom) && js[b].sendTo == js[a].takeFrom
    ensures js[a].takeFrom in PipeCheck.Pipes(js)
    ensures var fds := results[FirstIndex(PipeCheck.Pipes(js), js[a].takeFrom)].value;
      (fds.readEnd != STDIN ==> fds.readEnd in ClosedFds(Wired(js, results))) &&
      (fds.writeEnd != STDOUT ==> fds.writeEnd in ClosedFds(Wired(js, results)))
  {
    CreatePipesSlots(js, results, a);
    CreatePipesSlots(js, results, b);
    var fds := results[FirstIndex(PipeCheck.Pipes(js), js[a].takeFrom)].value;
    var wired := Wired(js, results);
    ClosedFdsSpec(wired, fds.readEnd);
    ClosedFdsSpec(wired, fds.writeEnd);
    assert ClosesSlot(wired[a], fds.readEnd) || fds.readEnd == STDIN;
    assert ClosesSlot(wired[b], fds.writeEnd) || fds.writeEnd == STDOUT;
  }
}
