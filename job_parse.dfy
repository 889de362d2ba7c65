/**
 * Command line and job-file parsing of jobrunner (A3/parse.c): the usage
 * check, the timeout field, the per-line rules that turn a job-file line into
 * a job, the reading of all job files and the verbose job table.
 *
 * The library routines read_line and split_by_commas are not part of this
 * model: a job file is given as its lines, each line with the fields that
 * split_by_commas produces for it.
 */
module JobParse {
  import opened Wrappers
  import opened CType
  import opened Decimal
  import opened NumScan
  import opened CStrings
  import opened Jobs

  const USAGE := "Usage: jobrunner [-v] jobfile [jobfile ...]"

  // ---------------------------------------------------------------------
  // check_usage

  /**
   * The loop of check_usage from index i on, with count occurrences of "-v"
   * seen so far: a "-v" anywhere but index 1 is a usage error.
   */
  function UsageScan(args: seq<string>, i: nat, count: nat): Result<nat, Exit>
    requires 1 <= i <= |args|
    decreases |args| - i
  {
    if i == |args| then Ok(count)
    else if args[i] == "-v" then
      if i != 1 then Err(Exit(1, USAGE)) else UsageScan(args, i + 1, count + 1)
    else UsageScan(args, i + 1, count)
  }

  /** check_usage over argv (program name first): verbose mode, or the usage error. */
  function CheckUsage(args: seq<string>): Result<bool, Exit> {
    if |args| < 2 then Err(Exit(1, USAGE))
    else match UsageScan(args, 1, 0)
      case Err(e) => Err(e)
      case Ok(count) =>
        if count > 1 || count == |args| - 1 then Err(Exit(1, USAGE)) else Ok(count > 0)
  }

  lemma {:induction false} UsageScanSpec(args: seq<string>, i: nat, count: nat)
    requires 1 <= i <= |args|
    ensures UsageScan(args, i, count).Err? <==> exists k :: 2 <= k < |args| && i <= k && args[k] == "-v"
    ensures UsageScan(args, i, count).Err? ==> UsageScan(args, i, count).error == Exit(1, USAGE)
    ensures UsageScan(args, i, count).Ok? ==>
      UsageScan(args, i, count).value == count + (if i == 1 && |args| > 1 && args[1] == "-v" then 1 else 0)
    decreases |args| - i
  {
    if i < |args| {
      UsageScanSpec(args, i + 1, if args[i] == "-v" then count + 1 else count);
      if i != 1 && args[i] == "-v" {
        assert 2 <= i;
      }
    }
  }

  /**
   * check_usage fails with the usage message and exit status 1 exactly when there
   * is no argument, "-v" stands at an index of 2 or more, or "-v" is the only
   * argument; otherwise verbose mode is on exactly when argv[1] is "-v".
   */
  lemma CheckUsageSpec(args: seq<string>)
    ensures CheckUsage(args).Err? <==>
      |args| < 2 || (exists k :: 2 <= k < |args| && args[k] == "-v") || (|args| == 2 && args[1] == "-v")
    ensures CheckUsage(args).Err? ==> CheckUsage(args).error == Exit(1, USAGE)
    ensures CheckUsage(args).Ok? ==> CheckUsage(args).value == (args[1] == "-v")
  {
    if |args| >= 2 {
      UsageScanSpec(args, 1, 0);
    }
  }

  // ---------------------------------------------------------------------
  // check_timeout

  /** The loop of check_timeout from index i on. */
  function TimeoutFrom(time: string, i: nat): int
    requires i <= |time|
    decreases |time| - i
  {
    if i == |time| then 1
    else if !IsDigit(time[i]) then 0
    else TimeoutFrom(time, i + 1)
  }

  /** check_timeout: 1 when every character is a decimal digit, 0 otherwise. */
  function CheckTimeout(time: string): int {
    TimeoutFrom(time, 0)
  }

  lemma {:induction false} TimeoutFromSpec(time: string, i: nat)
    requires i <= |time|
    ensures TimeoutFrom(time, i) == 0 || TimeoutFrom(time, i) == 1
    ensures TimeoutFrom(time, i) == 1 <==> forall k :: i <= k < |time| ==> IsDigit(time[k])
    decreases |time| - i
  {
    if i < |time| && IsDigit(time[i]) {
      TimeoutFromSpec(time, i + 1);
    }
  }

  /**
   * check_timeout accepts exactly the strings of digits, so the empty field is
   * accepted (and reads as timeout 0) while signs, dots and spaces are refused.
   */
  lemma CheckTimeoutSpec(time: string)
    ensures CheckTimeout(time) == 0 || CheckTimeout(time) == 1
    ensures CheckTimeout(time) == 1 <==> AllDigits(time)
    ensures CheckTimeout("") == 1 && DigitsValue("") == 0
  {
    TimeoutFromSpec(time, 0);
    TimeoutFromSpec("", 0);
  }

  // ---------------------------------------------------------------------
  // add_job, add_op_args and the per-line rules of read_job_files

  /** add_job: a job with the three mandatory fields and every other attribute at its default. */
  function AddJob(fields: seq<string>): (job: Job)
    requires |fields| >= 3
    ensures job.program == fields[0] && job.takeFrom == fields[1] && job.sendTo == fields[2]
    ensures job.enabled && !job.terminated && job.runningTime == 0 && job.jobPid == -1
    ensures job.inOutClose == FdSlots(STDIN, STDOUT, -1) && job.opArgs == []
  {
    Job(fields[0], fields[1], fields[2], 0, true, FdSlots(STDIN, STDOUT, -1), -1, false, [])
  }

  /** add_op_args: the fields after the timeout become the extra arguments (none when there are none). */
  function AddOpArgs(opArgNum: int, job: Job, fields: seq<string>): (r: Job)
    requires opArgNum > 0 ==> |fields| == opArgNum + 4
    ensures opArgNum > 0 ==> r == job.(opArgs := fields[4..])
    ensures opArgNum <= 0 ==> r == job
  {
    if opArgNum > 0 then job.(opArgs := fields[4..]) else job
  }

  /**
   * The rules read_job_files applies to one non-comment, non-empty line, given
   * its comma-separated fields: the job it adds, or None for an invalid line.
   */
  function ParseJobLine(fields: seq<string>): Option<Job> {
    if |fields| < 3 || |fields[0]| == 0 || |fields[1]| == 0 || |fields[2]| == 0 then None
    else
      var job := AddJob(fields);
      if |fields| > 3 then
        if CheckTimeout(fields[3]) == 1 then
          Some(AddOpArgs(|fields| - 4, job.(runningTime := Atoi(fields[3])), fields))
        else None
      else Some(job)
  }

  /**
   * A line is invalid exactly when it has fewer than three fields, one of the
   * first three is empty, or its timeout field holds a non-digit; a valid line
   * yields an enabled job with the default slots (0, 1, -1), pid -1, the
   * value of the timeout digits cut to a 32-bit int by atoi as its timeout,
   * and the fields after the timeout as its extra arguments.
   */
  lemma ParseJobLineSpec(fields: seq<string>)
    ensures ParseJobLine(fields).None? <==>
      |fields| < 3 || fields[0] == "" || fields[1] == "" || fields[2] == ""
      || (|fields| > 3 && !AllDigits(fields[3]))
    ensures ParseJobLine(fields).Some? ==>
      var job := ParseJobLine(fields).value;
      && job.program == fields[0] && job.takeFrom == fields[1] && job.sendTo == fields[2]
      && job.enabled && !job.terminated && job.jobPid == -1
      && job.inOutClose == FdSlots(STDIN, STDOUT, -1)
      && job.runningTime == (if |fields| > 3 then Narrow(DigitsValue(fields[3])) else 0)
      && job.opArgs == (if |fields| > 4 then fields[4..] else [])
  {
    if |fields| > 3 {
      CheckTimeoutSpec(fields[3]);
      if AllDigits(fields[3]) {
        AtoiDigits(fields[3]);
      }
    }
  }

  /**
   * The timeout is stored in an int: up to INT_MAX it is the value of the
   * digits, and larger values wrap, so "4294967296" gives no timeout,
   * "4294967295" gives -1 (killed at the first poll) and "2147483648" gives
   * INT_MIN (aborted at the first poll).
   */
  lemma TimeoutStored(fields: seq<string>)
    requires |fields| > 3 && ParseJobLine(fields).Some?
    ensures AllDigits(fields[3])
    ensures DigitsValue(fields[3]) <= INT_MAX ==>
      ParseJobLine(fields).value.runningTime == DigitsValue(fields[3])
    ensures DigitsValue(fields[3]) == 0x1_0000_0000 ==> ParseJobLine(fields).value.runningTime == 0
    ensures DigitsValue(fields[3]) == 0xffff_ffff ==> ParseJobLine(fields).value.runningTime == -1
    ensures DigitsValue(fields[3]) == 0x8000_0000 ==> ParseJobLine(fields).value.runningTime == INT_MIN
  {
    ParseJobLineSpec(fields);
  }

  /** A comment line or a blank line: it adds no job. */
  predicate IsSkipped(text: string) {
    (|text| > 0 && text[0] == '#') || IsEmpty(text) == 1
  }

  /** One line of a job file: its text and the fields split_by_commas gives for it. */
  datatype JobLine = JobLine(text: string, fields: seq<string>)

  /** A job file: its name and its lines. */
  datatype JobFile = JobFile(name: string, lines: seq<JobLine>)

  function SpecError(lineNum: int, fileName: string): Exit {
    Exit(3, "jobrunner: invalid job specification on line " + IntToString(lineNum)
      + " of \"" + fileName + "\"")
  }

  /**
   * What reading the lines of one file yields: the jobs of its valid lines, or
   * the 1-based number of its first invalid line.
   */
  function ParseLines(lines: seq<JobLine>): Result<seq<Job>, nat> {
    if lines == [] then Ok([])
    else
      match ParseLines(lines[..|lines| - 1])
      case Err(n) => Err(n)
      case Ok(jobs) =>
        var line := lines[|lines| - 1];
        if IsSkipped(line.text) then Ok(jobs)
        else match ParseJobLine(line.fields)
          case None => Err(|lines|)
          case Some(job) => Ok(jobs + [job])
  }

  /** What reading all the job files yields: the jobs in file order, or the exit for the first invalid line. */
  function ParseFiles(files: seq<JobFile>): Result<seq<Job>, Exit> {
    if files == [] then Ok([])
    else
      match ParseFiles(files[..|files| - 1])
      case Err(e) => Err(e)
      case Ok(jobs) =>
        var file := files[|files| - 1];
        match ParseLines(file.lines)
        case Err(n) => Err(SpecError(n, file.name))
        case Ok(more) => Ok(jobs + more)
  }

  /** The lines that are neither comments nor blank. */
  function DataLines(lines: seq<JobLine>): seq<JobLine> {
    if lines == [] then []
    else
      var n := |lines| - 1;
      DataLines(lines[..n]) + (if IsSkipped(lines[n].text) then [] else [lines[n]])
  }

  predicate AllValid(lines: seq<JobLine>) {
    forall k :: 0 <= k < |lines| ==> ParseJobLine(lines[k].fields).Some?
  }

  /** The jobs of a sequence of valid lines, in order. */
  function JobsOf(lines: seq<JobLine>): seq<Job>
    requires AllValid(lines)
  {
    seq(|lines|, k requires 0 <= k < |lines| => ParseJobLine(lines[k].fields).value)
  }

  lemma AllValidSnoc(a: seq<JobLine>, line: JobLine)
    ensures AllValid(a + [line]) <==> AllValid(a) && ParseJobLine(line.fields).Some?
    ensures AllValid(a + [line]) ==> JobsOf(a + [line]) == JobsOf(a) + [ParseJobLine(line.fields).value]
  {
    if AllValid(a) && ParseJobLine(line.fields).Some? {
      assert forall k :: 0 <= k < |a| ==> (a + [line])[k] == a[k];
    }
    if AllValid(a + [line]) {
      assert forall k :: 0 <= k < |a| ==> (a + [line])[k] == a[k];
      assert (a + [line])[|a|] == line;
    }
  }

  /**
   * Comment and blank lines add no job: a file reads as one job per data line,
   * in order, exactly when every data line is valid.
   */
  lemma {:induction false} ParseLinesOk(lines: seq<JobLine>)
    ensures ParseLines(lines).Ok? <==> AllValid(DataLines(lines))
    ensures ParseLines(lines).Ok? ==> ParseLines(lines).value == JobsOf(DataLines(lines))
  {
    if lines != [] {
      var n := |lines| - 1;
      var init, line := lines[..n], lines[n];
      ParseLinesOk(init);
      AllValidSnoc(DataLines(init), line);
      if IsSkipped(line.text) {
        assert DataLines(lines) == DataLines(init);
        assert ParseLines(lines) == ParseLines(init);
      } else {
        assert DataLines(lines) == DataLines(init) + [line];
        if ParseLines(init).Err? {
          assert ParseLines(lines).Err?;
        } else if ParseJobLine(line.fields).None? {
          assert ParseLines(lines).Err?;
        } else {
          assert ParseLines(lines) == Ok(ParseLines(init).value + [ParseJobLine(line.fields).value]);
        }
      }
    }
  }

  /**
   * Comment and blank lines still count as lines: a failing file fails with
   * the number of its first invalid data line, counting every line of the file.
   */
  lemma {:induction false} ParseLinesErr(lines: seq<JobLine>)
    ensures ParseLines(lines).Err? ==>
      var n := ParseLines(lines).error;
      && 1 <= n <= |lines|
      && !IsSkipped(lines[n - 1].text) && ParseJobLine(lines[n - 1].fields).None?
      && AllValid(DataLines(lines[..n - 1]))
  {
    if lines != [] {
      var n := |lines| - 1;
      var init := lines[..n];
      ParseLinesErr(init);
      if ParseLines(init).Err? {
        var m := ParseLines(init).error;
        assert lines[..m - 1] == init[..m - 1];
      } else if ParseLines(lines).Err? {
        ParseLinesOk(init);
      }
    }
  }

  /**
   * read_job_files: reads every job file line by line, skipping comment and
   * blank lines, and appends one job per valid data line; the first invalid
   * line stops the program with exit status 3 and names that line and file.
   */
  method ReadJobFiles(files: seq<JobFile>) returns (outcome: Result<seq<Job>, Exit>)
    ensures outcome == ParseFiles(files)
  {
    var jobList: seq<Job> := [];
    var i := 0;
    while i < |files|
      invariant 0 <= i <= |files|
      invariant ParseFiles(files[..i]) == Ok(jobList)
    {
      assert files[..i + 1][..i] == files[..i];
      var fileJobs := ReadJobFile(files[i].lines);
      if fileJobs.Err? {
        outcome := Err(SpecError(fileJobs.error, files[i].name));
        ParseFilesErrPrefix(files, i + 1);
        return;
      }
      jobList := jobList + fileJobs.value;
      i := i + 1;
    }
    assert files[..i] == files;
    outcome := Ok(jobList);
  }

  /**
   * The line loop of read_job_files for one file: the jobs of its data lines,
   * or the 1-based number of the first invalid line.
   */
  method ReadJobFile(lines: seq<JobLine>) returns (r: Result<seq<Job>, nat>)
    ensures r == ParseLines(lines)
  {
    var lineNum := 1;
    var fileJobs: seq<Job> := [];
    while lineNum <= |lines|
      invariant 1 <= lineNum <= |lines| + 1
      invariant ParseLines(lines[..lineNum - 1]) == Ok(fileJobs)
    {
      var line := lines[lineNum - 1];
      assert lines[..lineNum][..lineNum - 1] == lines[..lineNum - 1];
      assert lines[..lineNum][lineNum - 1] == line;
      if (line.text != [] && line.text[0] == '#') || IsEmpty(line.text) == 1 {
        lineNum := lineNum + 1;
        continue;
      }
      var job := ParseJobLine(line.fields);
      if job.None? {
        assert ParseLines(lines[..lineNum]) == Err(lineNum);
        assert lines[..lineNum] + lines[lineNum..] == lines;
        ParseLinesExtendErr(lines[..lineNum], lines[lineNum..]);
        return Err(lineNum);
      }
      fileJobs := fileJobs + [job.value];
      lineNum := lineNum + 1;
    }
    assert lines[..lineNum - 1] == lines;
    r := Ok(fileJobs);
  }

  /** Lines after the first invalid one do not change the outcome. */
  lemma {:induction false} ParseLinesExtendErr(a: seq<JobLine>, b: seq<JobLine>)
    requires ParseLines(a).Err?
    ensures ParseLines(a + b) == ParseLines(a)
    decreases |b|
  {
    if b == [] {
      assert a + b == a;
    } else {
      ParseLinesExtendErr(a, b[..|b| - 1]);
      assert (a + b)[..|a + b| - 1] == a + b[..|b| - 1];
    }
  }

  /** Files after the first failing one do not change the outcome. */
  lemma {:induction false} ParseFilesErrPrefix(files: seq<JobFile>, k: nat)
    requires k <= |files| && ParseFiles(files[..k]).Err?
    ensures ParseFiles(files) == ParseFiles(files[..k])
    decreases |files| - k
  {
    if k < |files| {
      assert files[..k + 1][..k] == files[..k];
      ParseFilesErrPrefix(files, k + 1);
    } else {
      assert files[..k] == files;
    }
  }

  // ---------------------------------------------------------------------
  // verbose_print

  /** Appends ":arg" for every extra argument. */
  function ArgSuffix(opArgs: seq<string>): string {
    if opArgs == [] then "" else ArgSuffix(opArgs[..|opArgs| - 1]) + ":" + opArgs[|opArgs| - 1]
  }

  /** The table line "N:program:in:out:timeout[:arg...]" of the job at 0-based index i. */
  function VerboseLine(i: int, job: Job): string {
    IntToString(i + 1) + ":" + job.program + ":" + job.takeFrom + ":" + job.sendTo + ":"
      + IntToString(job.runningTime) + ArgSuffix(job.opArgs)
  }

  /** verbose_print: one table line per enabled job, in job order. */
  function VerbosePrint(jobs: seq<Job>): seq<string> {
    if jobs == [] then []
    else
      var n := |jobs| - 1;
      VerbosePrint(jobs[..n]) + (if jobs[n].enabled then [VerboseLine(n, jobs[n])] else [])
  }

  /** The indices of the enabled jobs, in increasing order. */
  function EnabledIndices(jobs: seq<Job>): (idx: seq<nat>)
    ensures forall k :: 0 <= k < |idx| ==> idx[k] < |jobs| && jobs[idx[k]].enabled
    ensures forall i :: 0 <= i < |jobs| && jobs[i].enabled ==> i in idx
    ensures forall k, l :: 0 <= k < l < |idx| ==> idx[k] < idx[l]
  {
    if jobs == [] then []
    else
      var n := |jobs| - 1;
      EnabledIndices(jobs[..n]) + (if jobs[n].enabled then [n] else [])
  }

  /**
   * The verbose table has exactly one line per enabled job, in job order,
   * numbered with the job's 1-based position among all jobs.
   */
  lemma {:induction false} VerbosePrintSpec(jobs: seq<Job>)
    ensures |VerbosePrint(jobs)| == |EnabledIndices(jobs)| == CountEnabled(jobs)
    ensures forall k :: 0 <= k < |VerbosePrint(jobs)| ==>
      VerbosePrint(jobs)[k] == VerboseLine(EnabledIndices(jobs)[k], jobs[EnabledIndices(jobs)[k]])
  {
    if jobs != [] {
      var n := |jobs| - 1;
      VerbosePrintSpec(jobs[..n]);
      assert forall k :: 0 <= k < |EnabledIndices(jobs[..n])| ==>
        jobs[EnabledIndices(jobs[..n])[k]] == jobs[..n][EnabledIndices(jobs[..n])[k]];
    }
  }
}
