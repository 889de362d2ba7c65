/**
 * What the validation of jobrunner (A3/parse.c check_pipes, check_cascade,
 * check_jobs) guarantees about which jobs stay enabled, and what it does not.
 */
module PipeCheckFacts {
  import opened Wrappers
  import opened Jobs
  import opened PipeRegistry
  import opened PipeCheck

  // ---------------------------------------------------------------------
  // The cascade

  /** The cascade only ever disables jobs; it never enables one. */
  lemma {:induction false} CascadeOnlyClears(en: seq<bool>, ins: seq<Option<string>>, outs: seq<Option<string>>, valid: seq<Option<string>>)
    requires |ins| == |en| && |outs| == |en| && Linkable(ins, outs, valid)
    ensures forall i :: 0 <= i < |en| && Cascade(en, ins, outs, valid)[i] ==> en[i]
  {
    if valid != [] {
      CascadeOnlyClears(en, ins, outs, valid[..|valid| - 1]);
    }
  }

  /** A job that neither reads nor writes a pipe is left as it is by the cascade. */
  lemma {:induction false} CascadeKeepsUnpiped(en: seq<bool>, ins: seq<Option<string>>, outs: seq<Option<string>>, valid: seq<Option<string>>, i: nat)
    requires |ins| == |en| && |outs| == |en| && Linkable(ins, outs, valid)
    requires i < |en| && ins[i] == None && outs[i] == None
    ensures Cascade(en, ins, outs, valid)[i] == en[i]
  {
    if valid != [] {
      CascadeKeepsUnpiped(en, ins, outs, valid[..|valid| - 1], i);
    }
  }

  /** When every job is enabled, the cascade has nothing to spread. */
  lemma {:induction false} CascadeAllEnabled(en: seq<bool>, ins: seq<Option<string>>, outs: seq<Option<string>>, valid: seq<Option<string>>)
    requires |ins| == |en| && |outs| == |en| && Linkable(ins, outs, valid)
    requires forall i :: 0 <= i < |en| ==> en[i]
    ensures Cascade(en, ins, outs, valid) == en
  {
    if valid != [] {
      CascadeAllEnabled(en, ins, outs, valid[..|valid| - 1]);
    }
  }

  /** Right after the step for pipe p, its reader and its writer are both enabled or both disabled. */
  lemma CascadeStepLinks(en: seq<bool>, ins: seq<Option<string>>, outs: seq<Option<string>>, p: string)
    requires |ins| == |en| && |outs| == |en| && Some(p) in ins && Some(p) in outs
    ensures CascadeStep(en, ins, outs, p)[LastIndex(ins, p)] == CascadeStep(en, ins, outs, p)[LastIndex(outs, p)]
    ensures CascadeStep(en, ins, outs, p)[LastIndex(ins, p)] <==> en[LastIndex(ins, p)] && en[LastIndex(outs, p)]
  {
  }

  // ---------------------------------------------------------------------
  // The counting pass

  /** The job uses one of the pipes in the list that does not have one reader and one writer. */
  predicate TouchesInvalid(job: Job, ins: seq<Option<string>>, outs: seq<Option<string>>, pipes: seq<string>) {
    exists k :: 0 <= k < |pipes| && !ValidPipe(ins, outs, pipes[k]) && Uses(job, pipes[k])
  }

  /** The counting pass disables exactly the users of invalid pipes and changes nothing else. */
  lemma {:induction false} MarkInvalidSpec(js: seq<Job>, ins: seq<Option<string>>, outs: seq<Option<string>>, pipes: seq<string>)
    ensures forall i :: 0 <= i < |js| ==>
      MarkInvalid(js, ins, outs, pipes)[i] == js[i].(enabled := js[i].enabled && !TouchesInvalid(js[i], ins, outs, pipes))
  {
    if pipes != [] {
      var n := |pipes| - 1;
      MarkInvalidSpec(js, ins, outs, pipes[..n]);
      forall i | 0 <= i < |js|
        ensures MarkInvalid(js, ins, outs, pipes)[i] == js[i].(enabled := js[i].enabled && !TouchesInvalid(js[i], ins, outs, pipes))
      {
        TouchesInvalidSnoc(js[i], ins, outs, pipes, pipes[..n]);
      }
    }
  }

  /** A job touches an invalid pipe of a list exactly when it touches one before the last, or the last. */
  lemma TouchesInvalidSnoc(job: Job, ins: seq<Option<string>>, outs: seq<Option<string>>, pipes: seq<string>, init: seq<string>)
    requires pipes != [] && init == pipes[..|pipes| - 1]
    ensures TouchesInvalid(job, ins, outs, pipes) <==>
      TouchesInvalid(job, ins, outs, init) || (!ValidPipe(ins, outs, pipes[|pipes| - 1]) && Uses(job, pipes[|pipes| - 1]))
  {
    var n := |init|;
    if TouchesInvalid(job, ins, outs, pipes) {
      var k :| 0 <= k < |pipes| && !ValidPipe(ins, outs, pipes[k]) && Uses(job, pipes[k]);
      if k < n {
        assert init[k] == pipes[k];
      }
    }
    if TouchesInvalid(job, ins, outs, init) {
      var k :| 0 <= k < n && !ValidPipe(ins, outs, init[k]) && Uses(job, init[k]);
      assert pipes[k] == init[k];
    }
  }

  /** Every pipe a job reads or writes is in the pipe list. */
  lemma JobPipesListed(js: seq<Job>, i: nat)
    requires i < |js|
    ensures IsPipeName(js[i].takeFrom) ==> js[i].takeFrom in Pipes(js)
    ensures IsPipeName(js[i].sendTo) ==> js[i].sendTo in Pipes(js)
  {
    GetPipesSpec(Ins(js), Outs(js));
    if IsPipeName(js[i].takeFrom) {
      assert Referenced(Ins(js), Outs(js), js[i].takeFrom);
    }
    if IsPipeName(js[i].sendTo) {
      assert Referenced(Ins(js), Outs(js), js[i].sendTo);
    }
  }

  /**
   * check_pipes changes only the enabled flags, only by clearing them; every
   * job that reads or writes a pipe without exactly one reader and one writer
   * ends disabled; a job that uses no pipe keeps its flag.
   */
  lemma PipeCheckSpec(js: seq<Job>, i: nat)
    requires i < |js|
    ensures PipeCheckResult(js)[i] == js[i].(enabled := PipeCheckResult(js)[i].enabled)
    ensures PipeCheckResult(js)[i].enabled ==> js[i].enabled
    ensures (IsPipeName(js[i].takeFrom) && !ValidPipe(Ins(js), Outs(js), js[i].takeFrom)) ||
            (IsPipeName(js[i].sendTo) && !ValidPipe(Ins(js), Outs(js), js[i].sendTo))
            ==> !PipeCheckResult(js)[i].enabled
    ensures !IsPipeName(js[i].takeFrom) && !IsPipeName(js[i].sendTo) ==> PipeCheckResult(js)[i].enabled == js[i].enabled
  {
    var ins, outs, pipes := Ins(js), Outs(js), Pipes(js);
    var marked := MarkInvalid(js, ins, outs, pipes);
    MarkInvalidSpec(js, ins, outs, pipes);
    ValidListLinkable(ins, outs, pipes);
    var valid := ValidList(ins, outs, pipes);
    var en := EnabledOf(marked);
    CascadeOnlyClears(en, ins, outs, valid);
    JobPipesListed(js, i);
    if IsPipeName(js[i].takeFrom) && !ValidPipe(ins, outs, js[i].takeFrom) {
      var k := FirstIndex(pipes, js[i].takeFrom);
      assert Uses(js[i], pipes[k]);
    }
    if IsPipeName(js[i].sendTo) && !ValidPipe(ins, outs, js[i].sendTo) {
      var k := FirstIndex(pipes, js[i].sendTo);
      assert Uses(js[i], pipes[k]);
    }
    if !IsPipeName(js[i].takeFrom) && !IsPipeName(js[i].sendTo) {
      PipesAreNamed(js);
      assert !TouchesInvalid(js[i], ins, outs, pipes);
      CascadeKeepsUnpiped(en, ins, outs, valid, i);
    }
  }

  /**
   * When every job is enabled and every pipe has exactly one reader and one
   * writer, check_pipes disables nothing.
   */
  lemma AllValidAllRun(js: seq<Job>)
    requires forall i :: 0 <= i < |js| ==> js[i].enabled
    requires forall i :: 0 <= i < |js| ==>
      (IsPipeName(js[i].takeFrom) ==> ValidPipe(Ins(js), Outs(js), js[i].takeFrom)) &&
      (IsPipeName(js[i].sendTo) ==> ValidPipe(Ins(js), Outs(js), js[i].sendTo))
    ensures PipeCheckResult(js) == js
  {
    var ins, outs, pipes := Ins(js), Outs(js), Pipes(js);
    var marked := MarkInvalid(js, ins, outs, pipes);
    MarkInvalidSpec(js, ins, outs, pipes);
    forall i | 0 <= i < |js| ensures !TouchesInvalid(js[i], ins, outs, pipes) {
      if TouchesInvalid(js[i], ins, outs, pipes) {
        var k :| 0 <= k < |pipes| && !ValidPipe(ins, outs, pipes[k]) && Uses(js[i], pipes[k]);
        PipesAreNamed(js);
      }
    }
    assert marked == js;
    ValidListLinkable(ins, outs, pipes);
    CascadeAllEnabled(EnabledOf(marked), ins, outs, ValidList(ins, outs, pipes));
    assert WithEnabled(js, EnabledOf(js)) == js;
  }

  // ---------------------------------------------------------------------
  // check_jobs

  /** A job is disabled by the file opens exactly when one of its files fails to open. */
  lemma OpenJobSpec(job: Job, inFd: int, outFd: int)
    ensures OpenJob(job, inFd, outFd).job.enabled <==>
      job.enabled && !(NeedsOpen(job.takeFrom) && inFd < 0) && !(NeedsOpen(job.sendTo) && outFd < 0)
    ensures OpenJob(job, inFd, outFd).job.takeFrom == job.takeFrom
    ensures OpenJob(job, inFd, outFd).job.sendTo == job.sendTo
    ensures |OpenJob(job, inFd, outFd).errors| ==
      (if NeedsOpen(job.takeFrom) && inFd < 0 then 1 else 0) + (if NeedsOpen(job.sendTo) && outFd < 0 then 1 else 0)
  {
  }

  /** A job whose input or output file cannot be opened does not run. */
  lemma OpenFailureDisables(js: seq<Job>, inFds: seq<int>, outFds: seq<int>, i: nat)
    requires |inFds| == |js| && |outFds| == |js| && i < |js|
    requires (NeedsOpen(js[i].takeFrom) && inFds[i] < 0) || (NeedsOpen(js[i].sendTo) && outFds[i] < 0)
    ensures !Validated(js, inFds, outFds)[i].enabled
  {
    OpenJobSpec(js[i], inFds[i], outFds[i]);
    PipeCheckSpec(OpenAll(js, inFds, outFds), i);
  }

  /**
   * A job that uses no pipe and whose files open keeps its enabled flag,
   * whatever happens to the other jobs.
   */
  lemma UnpipedJobUnaffected(js: seq<Job>, inFds: seq<int>, outFds: seq<int>, i: nat)
    requires |inFds| == |js| && |outFds| == |js| && i < |js|
    requires !IsPipeName(js[i].takeFrom) && !IsPipeName(js[i].sendTo)
    requires NeedsOpen(js[i].takeFrom) ==> inFds[i] >= 0
    requires NeedsOpen(js[i].sendTo) ==> outFds[i] >= 0
    ensures Validated(js, inFds, outFds)[i].enabled == js[i].enabled
  {
    OpenJobSpec(js[i], inFds[i], outFds[i]);
    PipeCheckSpec(OpenAll(js, inFds, outFds), i);
  }

  // ---------------------------------------------------------------------
  // Concrete job lists

  /** A job with the given input, output and enabled flag and no arguments. */
  function Sample(takeFrom: string, sendTo: string, enabled: bool): Job {
    Job("cat", takeFrom, sendTo, 0, enabled, FdSlots(0, 1, -1), -1, false, [])
  }

  /** A two-job chain: the first job writes "@a", the second reads "@a" and writes "@b". */
  function OpenChain(): seq<Job> {
    [Sample("-", "@a", true), Sample("@a", "@b", true)]
  }

  lemma OpenChainPipes()
    ensures Ins(OpenChain()) == [None, Some("@a")] && Outs(OpenChain()) == [Some("@a"), Some("@b")]
    ensures Pipes(OpenChain()) == ["@a", "@b"]
  {
    var js := OpenChain();
    var ins, outs := Ins(js), Outs(js);
    assert ins == [None, Some("@a")] && outs == [Some("@a"), Some("@b")];
    assert RefsUpTo(ins, outs, 1) == ["@a"];
    assert Refs(ins, outs) == ["@a", "@a", "@b"];
    DedupTriple();
  }

  lemma DedupTriple()
    ensures Dedup(["@a", "@a", "@b"]) == ["@a", "@b"]
  {
    var refs := ["@a", "@a", "@b"];
    assert "@a" != "@b" by { assert "@a"[1] != "@b"[1]; }
    assert refs[..2][..1] == ["@a"] && refs[..1] == ["@a"] && refs[..2] == ["@a", "@a"];
    assert Dedup(refs[..1]) == ["@a"];
    assert Dedup(refs[..2]) == ["@a"];
  }

  lemma OpenChainCounts()
    ensures ValidPipe(Ins(OpenChain()), Outs(OpenChain()), "@a")
    ensures !ValidPipe(Ins(OpenChain()), Outs(OpenChain()), "@b")
  {
    OpenChainPipes();
    var ins, outs := Ins(OpenChain()), Outs(OpenChain());
    assert "@a" != "@b" by { assert "@a"[1] != "@b"[1]; }
    assert ins[..1] == [None] && outs[..1] == [Some("@a")];
    assert CountRefs(ins[..1], "@a") == 0 && CountRefs(outs[..1], "@a") == 1;
    assert CountRefs(ins, "@a") == 1 && CountRefs(outs, "@a") == 1;
    assert CountRefs(ins[..1], "@b") == 0;
    assert CountRefs(ins, "@b") == 0;
  }

  /** The counting pass over the two-job chain disables the writer of "@b", and only "@a" is valid. */
  lemma ChainMarks()
    ensures MarkInvalid(OpenChain(), Ins(OpenChain()), Outs(OpenChain()), Pipes(OpenChain())) ==
      [Sample("-", "@a", true), Sample("@a", "@b", false)]
    ensures ValidList(Ins(OpenChain()), Outs(OpenChain()), Pipes(OpenChain())) == [Some("@a"), None]
  {
    var js := OpenChain();
    OpenChainPipes();
    OpenChainCounts();
    var ins, outs, pipes := Ins(js), Outs(js), Pipes(js);
    assert pipes[..1] == ["@a"];
    assert MarkInvalid(js, ins, outs, pipes[..1]) == js;
  }

  /**
   * A chain whose last pipe has no reader: "@b" is reported, its writer is
   * disabled, and the cascade over "@a" disables the first job too.
   */
  lemma ChainWithoutReader()
    ensures PipeLog(OpenChain()) == ["Invalid pipe usage \"b\""]
    ensures EnabledOf(PipeCheckResult(OpenChain())) == [false, false]
  {
    ChainLog();
    ChainCascade();
  }

  /** Only "@b" is reported, with its leading '@' dropped. */
  lemma ChainLog()
    ensures PipeLog(OpenChain()) == ["Invalid pipe usage \"b\""]
  {
    var js := OpenChain();
    OpenChainPipes();
    OpenChainCounts();
    var ins, outs, pipes := Ins(js), Outs(js), Pipes(js);
    assert pipes[..1] == ["@a"];
    assert PipeErrors(ins, outs, pipes[..1]) == [];
    assert "@b"[1..] == "b";
    PipesAreNamed(js);
    assert PipeErrors(ins, outs, pipes) == [InvalidPipeMessage("@b")];
    assert InvalidPipeMessage("@b") == "Invalid pipe usage \"b\"";
  }

  /** The writer of "@b" is disabled by the counting pass, and the cascade over "@a" disables its reader's writer. */
  lemma ChainCascade()
    ensures EnabledOf(PipeCheckResult(OpenChain())) == [false, false]
  {
    var js := OpenChain();
    OpenChainPipes();
    ChainMarks();
    var ins, outs, pipes := Ins(js), Outs(js), Pipes(js);
    var valid := ValidList(ins, outs, pipes);
    assert valid[..1] == [Some("@a")];
    assert LastIndex(ins, "@a") == 1 && LastIndex(outs, "@a") == 0;
    var marked := MarkInvalid(js, ins, outs, pipes);
    assert EnabledOf(marked) == [true, false];
    assert valid[..1][..0] == [];
    assert Cascade(EnabledOf(marked), ins, outs, valid[..1]) == [false, false];
  }

  /** The three-job chain of CascadeNotClosed, its last job already disabled. */
  function BrokenChain(): seq<Job> {
    [Sample("-", "@a", true), Sample("@a", "@b", true), Sample("@b", "out", false)]
  }

  lemma BrokenChainPipes()
    ensures Ins(BrokenChain()) == [None, Some("@a"), Some("@b")]
    ensures Outs(BrokenChain()) == [Some("@a"), Some("@b"), None]
    ensures Pipes(BrokenChain()) == ["@a", "@b"]
  {
    var js := BrokenChain();
    assert !IsPipeName("out");
    var ins, outs := Ins(js), Outs(js);
    assert ins == [None, Some("@a"), Some("@b")] && outs == [Some("@a"), Some("@b"), None];
    BrokenChainRefs(ins, outs);
    DedupPairs();
  }

  lemma BrokenChainRefs(ins: seq<Option<string>>, outs: seq<Option<string>>)
    requires ins == [None, Some("@a"), Some("@b")] && outs == [Some("@a"), Some("@b"), None]
    ensures Refs(ins, outs) == ["@a", "@a", "@b", "@b"]
  {
    assert RefsUpTo(ins, outs, 1) == ["@a"];
    assert RefsUpTo(ins, outs, 2) == ["@a", "@a", "@b"];
  }

  lemma DedupPairs()
    ensures Dedup(["@a", "@a", "@b", "@b"]) == ["@a", "@b"]
  {
    var refs := ["@a", "@a", "@b", "@b"];
    assert "@a" != "@b" by { assert "@a"[1] != "@b"[1]; }
    assert refs[..1] == ["@a"] && refs[..2] == ["@a", "@a"] && refs[..3] == ["@a", "@a", "@b"];
    assert refs[..2][..1] == refs[..1] && refs[..3][..2] == refs[..2] && refs[..|refs| - 1] == refs[..3];
    assert Dedup(refs[..1]) == ["@a"];
    assert Dedup(refs[..2]) == ["@a"];
    assert Dedup(refs[..3]) == ["@a", "@b"];
  }

  lemma BrokenChainCounts()
    ensures ValidPipe(Ins(BrokenChain()), Outs(BrokenChain()), "@a")
    ensures ValidPipe(Ins(BrokenChain()), Outs(BrokenChain()), "@b")
  {
    BrokenChainPipes();
    var ins, outs := Ins(BrokenChain()), Outs(BrokenChain());
    assert "@a" != "@b" by { assert "@a"[1] != "@b"[1]; }
    assert ins[..1] == [None] && ins[..2] == [None, Some("@a")] && ins[..2][..1] == ins[..1];
    assert outs[..1] == [Some("@a")] && outs[..2] == [Some("@a"), Some("@b")] && outs[..2][..1] == outs[..1];
    assert CountRefs(ins[..1], "@a") == 0 && CountRefs(ins[..2], "@a") == 1 && CountRefs(ins, "@a") == 1;
    assert CountRefs(outs[..1], "@a") == 1 && CountRefs(outs[..2], "@a") == 1 && CountRefs(outs, "@a") == 1;
    assert CountRefs(ins[..1], "@b") == 0 && CountRefs(ins[..2], "@b") == 0 && CountRefs(ins, "@b") == 1;
    assert CountRefs(outs[..1], "@b") == 0 && CountRefs(outs[..2], "@b") == 1 && CountRefs(outs, "@b") == 1;
  }

  /**
   * The cascade is a single pass, so it does not reach a fixpoint: the first
   * job writes "@a", the second reads "@a" and writes "@b", the third reads
   * "@b" and is already disabled (its output file failed to open). "@a" is
   * visited before "@b", so the second job is disabled after its link to the
   * first was already checked, and the first job stays enabled although the
   * only reader of its valid pipe "@a" will not run.
   */
  lemma CascadeNotClosed()
    ensures EnabledOf(PipeCheckResult(BrokenChain())) == [true, false, false]
    ensures ValidPipe(Ins(BrokenChain()), Outs(BrokenChain()), "@a")
  {
    var js := BrokenChain();
    BrokenChainPipes();
    BrokenChainCounts();
    var ins, outs, pipes := Ins(js), Outs(js), Pipes(js);
    assert "@a" != "@b" by { assert "@a"[1] != "@b"[1]; }
    assert pipes[..1] == ["@a"];
    assert MarkInvalid(js, ins, outs, pipes[..1]) == js;
    assert MarkInvalid(js, ins, outs, pipes) == js;
    var valid := ValidList(ins, outs, pipes);
    assert valid == [Some("@a"), Some("@b")];
    assert valid[..1] == [Some("@a")];
    assert ins[..2][..1] == ins[..1];
    assert LastIndex(ins, "@a") == 1 && LastIndex(outs, "@a") == 0;
    assert LastIndex(ins, "@b") == 2 && LastIndex(outs, "@b") == 1;
    assert EnabledOf(js) == [true, true, false];
    assert Cascade(EnabledOf(js), ins, outs, valid[..1]) == [true, true, false];
  }
}
