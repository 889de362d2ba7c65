/**
 * The checks of the integration client (A4/intclient.c): the command line,
 * the syntax and the parameters of a job line, and the request that asks the
 * server whether an integrand compiles. Whether a file can be opened, how
 * split_by_commas cuts a line into fields and what "%lf" reads from a bound
 * come in as inputs.
 */
module IntClient {
  import opened Wrappers
  import opened CType
  import opened Decimal
  import opened NumScan
  import opened CStrings
  import opened Common

  const USAGE := "Usage: intclient [-v] portnum [jobfile]"
  const MIN_ARGS := 2
  const MAX_ARGS := 4
  const BUFSIZE := 10000
  const VALIDATE_PREFIX := "GET /validate/"
  const VALIDATE_SUFFIX := " HTTP/1.1\r\n\r\n"

  /** The client record of intclient.h, filled in by check_command_line. */
  class ClientInfo {
    var verboseMode: bool
    var usingFile: bool
    var port: Option<string>
    var jobFile: Option<string>

    constructor ()
      ensures !verboseMode && !usingFile && port == None && jobFile == None
    {
      verboseMode, usingFile, port, jobFile := false, false, None, None;
    }
  }

  /** How the command line ends: a usage error, a job file that cannot be opened, or a client ready to connect. */
  datatype Invocation = UsageError | Unopenable(file: string) | Started(verbose: bool, port: string, jobFile: Option<string>)

  /** "-v" appears somewhere other than right after the program name. */
  predicate Misplaced(argv: seq<string>) {
    exists i :: 0 <= i < |argv| && i != 1 && argv[i] == "-v"
  }

  /**
   * What check_command_line decides. canOpen[i] says whether argv[i] can be
   * opened for reading.
   */
  function CommandLine(argv: seq<string>, canOpen: seq<bool>): (r: Invocation)
    requires |canOpen| == |argv|
    ensures r == UsageError <==>
      |argv| < MIN_ARGS || |argv| > MAX_ARGS || Misplaced(argv) || (|argv| == 2 && argv[1] == "-v")
    ensures r.Started? ==>
      !Misplaced(argv) && (r.verbose <==> argv[1] == "-v") &&
      r.port == argv[if r.verbose then 2 else 1] && r.port != "-v" &&
      (r.jobFile.Some? <==> |argv| == (if r.verbose then 4 else 3))
    ensures r.Unopenable? <==>
      r != UsageError && |argv| == (if argv[1] == "-v" then 4 else 3) && !canOpen[|argv| - 1]
    ensures r.Unopenable? ==> r.file == argv[|argv| - 1]
    ensures r.Started? && r.jobFile.Some? ==> r.jobFile.value == argv[|argv| - 1] && canOpen[|argv| - 1]
  {
    if |argv| < MIN_ARGS || |argv| > MAX_ARGS || Misplaced(argv) then UsageError
    else if argv[1] == "-v" then
      if |argv| == 2 then UsageError
      else if |argv| == 4 && !canOpen[3] then Unopenable(argv[3])
      else Started(true, argv[2], if |argv| == 4 then Some(argv[3]) else None)
    else if |argv| == 3 && !canOpen[2] then Unopenable(argv[2])
    else Started(false, argv[1], if |argv| == 3 then Some(argv[2]) else None)
  }

  /** The exit status and the line on stderr for a command line that stops the client. */
  function ExitFor(r: Invocation): (int, string) {
    match r
    case UsageError => (1, USAGE)
    case Unopenable(file) => (4, "intclient: unable to open \"" + file + "\" for reading")
    case Started(_, _, _) => (0, "")
  }

  /**
   * check_command_line: on an error the exit status and message; otherwise a
   * fresh client record holding the verbose flag, the port and the job file.
   */
  method CheckCommandLine(argv: seq<string>, canOpen: seq<bool>)
    returns (status: int, message: string, client: ClientInfo?)
    requires |canOpen| == |argv|
    ensures (status, message) == ExitFor(CommandLine(argv, canOpen))
    ensures status == 0 <==> client != null
    ensures client != null ==> (
      var r := CommandLine(argv, canOpen);
      fresh(client) && client.verboseMode == r.verbose && client.port == Some(r.port) &&
      client.usingFile == r.jobFile.Some? && client.jobFile == r.jobFile)
  {
    client := null;
    if |argv| < MIN_ARGS || |argv| > MAX_ARGS {
      status, message := 1, USAGE;
      return;
    }
    var info := new ClientInfo();
    var i := 0;
    while i < |argv|
      invariant 0 <= i <= |argv|
      invariant forall k :: 0 <= k < i && k != 1 ==> argv[k] != "-v"
    {
      if argv[i] == "-v" && i != 1 {
        status, message := 1, USAGE;
        return;
      }
      i := i + 1;
    }
    if argv[1] == "-v" {
      if |argv| == 2 {
        status, message := 1, USAGE;
        return;
      }
      info.port := Some(argv[2]);
      if |argv| == 4 {
        var ok := OpenJobFile(info, argv[3], canOpen[3]);
        if !ok {
          status, message := 4, "intclient: unable to open \"" + argv[3] + "\" for reading";
          return;
        }
      }
      info.verboseMode := true;
    } else {
      info.port := Some(argv[1]);
      if |argv| == 3 {
        var ok := OpenJobFile(info, argv[2], canOpen[2]);
        if !ok {
          status, message := 4, "intclient: unable to open \"" + argv[2] + "\" for reading";
          return;
        }
      }
    }
    status, message, client := 0, "", info;
  }

  /** open_job_file: when the file opens, the client records it and reads jobs from it. */
  method OpenJobFile(client: ClientInfo, fileName: string, opens: bool) returns (ok: bool)
    modifies client
    ensures ok == opens
    ensures ok ==> client.usingFile && client.jobFile == Some(fileName)
    ensures !ok ==> client.usingFile == old(client.usingFile) && client.jobFile == old(client.jobFile)
    ensures client.verboseMode == old(client.verboseMode) && client.port == old(client.port)
  {
    ok := opens;
    if ok {
      client.usingFile := true;
      client.jobFile := Some(fileName);
    }
  }

  /** The fields of a NULL-terminated array of strings, up to the NULL. */
  function Fields(args: seq<Option<string>>): (fields: seq<string>)
    requires None in args
    ensures |fields| == CountArgs(args)
    ensures forall i :: 0 <= i < |fields| ==> Some(fields[i]) == args[i]
  {
    seq(CountArgs(args), i requires 0 <= i < CountArgs(args) => args[i].value)
  }

  /**
   * A job line passes check_syntax: five non-empty fields, both bounds read
   * whole by "%lf", and segments and threads read whole by "%d" and equal to
   * the "%d" rendering of the int that was stored.
   */
  predicate SyntaxOk(fields: seq<string>, lowerScan: Option<real>, upperScan: Option<real>) {
    |fields| == 5 && (forall i :: 0 <= i < 5 ==> fields[i] != "") &&
    lowerScan.Some? && upperScan.Some? && Rendered(fields[3]) && Rendered(fields[4])
  }

  function SyntaxError(lineNum: int): string {
    "intclient: syntax error on line " + IntToString(lineNum)
  }

  /**
   * check_syntax over the fields split_by_commas returned. lowerScan and
   * upperScan are what "%lf" reads from the second and third fields: the
   * value when it converts the whole field, None otherwise. On success the
   * job holds the integrand, the bounds and the stored segment and thread
   * counts; after a syntax error the caller discards the job.
   */
  method CheckSyntax(job: IntegrationJob, intArgs: seq<Option<string>>, lowerScan: Option<real>,
                     upperScan: Option<real>, lineNum: int)
    returns (r: int, message: string)
    requires None in intArgs
    modifies job
    ensures r == 0 || r == 1
    ensures r == 0 <==> SyntaxOk(Fields(intArgs), lowerScan, upperScan)
    ensures r == 1 ==> message == SyntaxError(lineNum)
    ensures r == 0 ==> message == "" && Holds(job, Fields(intArgs), lowerScan, upperScan)
    ensures job.verboseMode == old(job.verboseMode)
  {
    var fields := Fields(intArgs);
    var argCount := CountArgs(intArgs);
    if argCount != 5 || fields[0] == "" || fields[1] == "" || fields[2] == "" || fields[3] == "" || fields[4] == "" {
      assert !SyntaxOk(fields, lowerScan, upperScan);
      return 1, SyntaxError(lineNum);
    }
    assert forall i :: 0 <= i < 5 ==> fields[i] != "";
    var ok := ScanFields(job, fields, lowerScan, upperScan);
    if ok {
      r, message := 0, "";
    } else {
      r, message := 1, SyntaxError(lineNum);
    }
  }

  /** The job holds the integrand, the bounds read and the segment and thread counts stored. */
  ghost predicate Holds(job: IntegrationJob, fields: seq<string>, lowerScan: Option<real>, upperScan: Option<real>)
    requires |fields| == 5 && lowerScan.Some? && upperScan.Some? && WholeInt(fields[3]) && WholeInt(fields[4])
    reads job
  {
    job.integrand == fields[0] && job.lower == lowerScan.value && job.upper == upperScan.value &&
    job.segments == StoredInt(fields[3]) && job.threads == StoredInt(fields[4])
  }

  /** The conversions of check_syntax on five non-empty fields, and the "%d" round trip. */
  method ScanFields(job: IntegrationJob, fields: seq<string>, lowerScan: Option<real>, upperScan: Option<real>)
    returns (ok: bool)
    requires |fields| == 5
    modifies job
    ensures ok <==> lowerScan.Some? && upperScan.Some? && Rendered(fields[3]) && Rendered(fields[4])
    ensures ok ==> Holds(job, fields, lowerScan, upperScan)
    ensures job.verboseMode == old(job.verboseMode)
  {
    job.integrand := fields[0];
    var segScan, thrScan := ScanInt(fields[3]), ScanInt(fields[4]);
    if lowerScan.None? || upperScan.None? || segScan.None? || thrScan.None? ||
       segScan.value.1 != |fields[3]| || thrScan.value.1 != |fields[4]| {
      return false;
    }
    assert WholeInt(fields[3]) && WholeInt(fields[4]);
    var segments, threads := Narrow(segScan.value.0), Narrow(thrScan.value.0);
    assert segments == StoredInt(fields[3]) && threads == StoredInt(fields[4]);
    job.lower, job.upper := lowerScan.value, upperScan.value;
    job.segments, job.threads := segments, threads;
    ok := IntToString(threads) == fields[4] && IntToString(segments) == fields[3];
  }

  /**
   * A job line passes check_syntax exactly when it has five non-empty fields,
   * both bounds convert, and segments and threads are each written exactly as
   * "%d" writes some int: no sign '+', no leading zero or space, nothing out of range.
   */
  lemma SyntaxOkIff(fields: seq<string>, lowerScan: Option<real>, upperScan: Option<real>)
    ensures SyntaxOk(fields, lowerScan, upperScan) <==>
      |fields| == 5 && (forall i :: 0 <= i < 5 ==> fields[i] != "") &&
      lowerScan.Some? && upperScan.Some? &&
      (exists n :: InInt32(n) && IntToString(n) == fields[3]) &&
      (exists n :: InInt32(n) && IntToString(n) == fields[4])
  {
    if |fields| == 5 {
      RenderedIff(fields[3]);
      RenderedIff(fields[4]);
    }
  }

  /**
   * check_parameters over the job's fields: 0 and no message when they are
   * acceptable, otherwise 1 and the message for the first test that fails.
   */
  function CheckParameters(integrand: string, lower: real, upper: real, segments: int, threads: int,
                           lineNum: int): (r: (int, string))
    ensures r.0 == 0 || r.0 == 1
    ensures r.0 == 0 <==> r.1 == ""
    ensures r.0 == 0 <==>
      ContainsWhitespace(integrand) == 0 && upper > lower && segments > 0 && threads > 0 &&
      segments % threads == 0
  {
    var line := "(line " + IntToString(lineNum) + ")";
    if ContainsWhitespace(integrand) != 0 then
      (1, "intclient: spaces not permitted in expression " + line)
    else if upper <= lower then
      (1, "intclient: upper bound must be greater than lower bound " + line)
    else if segments <= 0 then
      (1, "intclient: segments must be a positive integer " + line)
    else if threads <= 0 then
      (1, "intclient: threads must be a positive integer " + line)
    else if segments % threads != 0 then
      (1, "intclient: segments must be an integer multiple of threads " + line)
    else (0, "")
  }

  /** The parameters pass exactly when the integrand has no whitespace character, the bounds rise and threads divides a positive segment count. */
  lemma ParametersAccepted(integrand: string, lower: real, upper: real, segments: int, threads: int, lineNum: int)
    ensures CheckParameters(integrand, lower, upper, segments, threads, lineNum).0 == 0 <==>
      !HasSpace(integrand) && lower < upper && 0 < threads <= segments && segments % threads == 0
  {
    ContainsWhitespaceSpec(integrand);
    if 0 < segments && 0 < threads && segments % threads == 0 {
      assert segments == (segments / threads) * threads;
      assert segments / threads >= 1;
    }
  }

  /** construct_fun_request: the request text and its length. */
  function ConstructFunRequest(integrand: string): (r: (string, int))
    requires IsCString(integrand)
    requires |VALIDATE_PREFIX| + |integrand| + |VALIDATE_SUFFIX| < BUFSIZE
    ensures r.1 == |r.0| == |integrand| + 27
    ensures IsCString(r.0)
  {
    var req := VALIDATE_PREFIX + integrand + VALIDATE_SUFFIX;
    (req, |req|)
  }

  /** Reads the integrand back out of a validation request. */
  function ParseFunRequest(req: string): Option<string> {
    var p, s := |VALIDATE_PREFIX|, |VALIDATE_SUFFIX|;
    if |req| >= p + s && req[..p] == VALIDATE_PREFIX && req[|req| - s..] == VALIDATE_SUFFIX
    then Some(req[p..|req| - s])
    else None
  }

  /** The validation request carries the integrand, and nothing else reads back as that integrand. */
  lemma FunRequestRoundTrip(integrand: string, req: string)
    requires IsCString(integrand)
    requires |VALIDATE_PREFIX| + |integrand| + |VALIDATE_SUFFIX| < BUFSIZE
    ensures ParseFunRequest(ConstructFunRequest(integrand).0) == Some(integrand)
    ensures ParseFunRequest(req) == Some(integrand) ==> req == ConstructFunRequest(integrand).0
  {
    var r := ConstructFunRequest(integrand).0;
    var p, s := |VALIDATE_PREFIX|, |VALIDATE_SUFFIX|;
    assert r[..p] == VALIDATE_PREFIX;
    assert r[|r| - s..] == VALIDATE_SUFFIX;
    assert r[p..|r| - s] == integrand;
    if ParseFunRequest(req) == Some(integrand) {
      assert req == req[..p] + req[p..|req| - s] + req[|req| - s..];
    }
  }
}
