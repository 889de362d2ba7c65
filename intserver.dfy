/**
 * The checks of the integration server (A4/intserver.c): the command line,
 * the parameters of an integration request and the decision on what kind of
 * request arrived. The HTTP request parser, split_by_char, what "%lf" reads
 * from a bound and whether tinyexpr compiles an integrand come in as inputs.
 */
module IntServer {
  import opened Wrappers
  import opened CType
  import opened Decimal
  import opened NumScan
  import opened Common

  const USAGE := "Usage: intserver portnum [maxthreads]"
  const MIN_SERVER_ARGS := 2
  const MAX_SERVER_ARGS := 3
  const MAX_PORT_NUM := 65535

  /** The scan of alpha_check from index i on: 1 at the first letter. */
  function AlphaFrom(port: string, i: nat): int
    requires i <= |port|
    decreases |port| - i
  {
    if i == |port| then 0
    else if IsAlpha(port[i]) then 1
    else AlphaFrom(port, i + 1)
  }

  /** alpha_check: 1 when the text holds a letter, 0 otherwise. */
  function AlphaCheck(port: string): int {
    AlphaFrom(port, 0)
  }

  predicate HasAlpha(s: string) {
    exists k :: 0 <= k < |s| && IsAlpha(s[k])
  }

  lemma {:induction false} AlphaFromSpec(s: string, i: nat)
    requires i <= |s|
    ensures AlphaFrom(s, i) == 0 || AlphaFrom(s, i) == 1
    ensures AlphaFrom(s, i) == 1 <==> exists k :: i <= k < |s| && IsAlpha(s[k])
    decreases |s| - i
  {
    if i < |s| && !IsAlpha(s[i]) {
      AlphaFromSpec(s, i + 1);
      assert forall k :: i <= k < |s| && IsAlpha(s[k]) ==> i + 1 <= k;
    }
  }

  /** alpha_check answers 1 exactly when some character is a letter, and 0 for "". */
  lemma AlphaCheckSpec(s: string)
    ensures AlphaCheck(s) == 0 || AlphaCheck(s) == 1
    ensures AlphaCheck(s) == 1 <==> HasAlpha(s)
  {
    AlphaFromSpec(s, 0);
  }

  /** The server record of intserver.h. */
  class ServerInfo {
    var port: string
    var maxThreads: int

    constructor ()
      ensures port == "" && maxThreads == 0
    {
      port, maxThreads := "", 0;
    }
  }

  /** The port check of check_usage: atoi's value in 0..65535, no letter, no whitespace. */
  predicate PortOk(port: string) {
    !(Atoi(port) < 0 || Atoi(port) > MAX_PORT_NUM || AlphaCheck(port) != 0 || ContainsWhitespace(port) != 0)
  }

  /** The maxthreads check of check_usage: atoi's value is neither 0 nor negative. */
  predicate MaxThreadsOk(arg: string) {
    Atoi(arg) != 0 && !(Atoi(arg) < 0)
  }

  /** The command lines check_usage lets through. */
  predicate UsageOk(argv: seq<string>) {
    MIN_SERVER_ARGS <= |argv| <= MAX_SERVER_ARGS && PortOk(argv[1]) &&
    (|argv| == MAX_SERVER_ARGS ==> MaxThreadsOk(argv[2]))
  }

  /**
   * check_usage: a usage error (status 1), or a fresh server record with the
   * port text and, when given, the maximum thread count.
   */
  method CheckUsage(argv: seq<string>) returns (status: int, message: string, server: ServerInfo?)
    ensures status == 0 || status == 1
    ensures status == 0 <==> UsageOk(argv)
    ensures status == 1 ==> message == USAGE && server == null
    ensures status == 0 ==> message == "" && server != null && fresh(server) && server.port == argv[1]
    ensures status == 0 && |argv| == MAX_SERVER_ARGS ==> server != null && server.maxThreads == Atoi(argv[2])
  {
    server := null;
    if |argv| < MIN_SERVER_ARGS || |argv| > MAX_SERVER_ARGS {
      return 1, USAGE, null;
    }
    var info := new ServerInfo();
    var portNum := Atoi(argv[1]);
    if portNum < 0 || portNum > MAX_PORT_NUM || AlphaCheck(argv[1]) != 0 || ContainsWhitespace(argv[1]) != 0 {
      return 1, USAGE, null;
    }
    info.port := argv[1];
    if |argv| == MAX_SERVER_ARGS {
      if Atoi(argv[2]) != 0 {
        if Atoi(argv[2]) < 0 {
          return 1, USAGE, null;
        }
        info.maxThreads := Atoi(argv[2]);
      } else {
        return 1, USAGE, null;
      }
    }
    status, message, server := 0, "", info;
  }

  /** Every port number from 0 to 65535, written in decimal, passes the port check. */
  lemma PortNumbersAccepted(n: int)
    requires 0 <= n <= MAX_PORT_NUM
    ensures PortOk(NatToString(n))
  {
    var s := NatToString(n);
    assert IntToString(n) == s;
    ScanRendered(n);
    AlphaCheckSpec(s);
    ContainsWhitespaceSpec(s);
    assert forall k :: 0 <= k < |s| ==> IsDigit(s[k]);
  }

  /** A port with a letter or a whitespace character anywhere is a usage error, whatever its number. */
  lemma PortTextRejected(port: string)
    requires HasAlpha(port) || HasSpace(port)
    ensures !PortOk(port)
  {
    AlphaCheckSpec(port);
    ContainsWhitespaceSpec(port);
  }

  /**
   * maxthreads passes exactly when atoi reads a positive int; so every
   * positive int in decimal passes, and text holding no number does not.
   */
  lemma MaxThreadsIff(arg: string, n: int)
    ensures MaxThreadsOk(arg) <==> Atoi(arg) > 0
    ensures ScanInt(arg).None? ==> !MaxThreadsOk(arg)
    ensures 0 < n <= INT_MAX ==> MaxThreadsOk(IntToString(n))
  {
    if 0 < n <= INT_MAX {
      ScanRendered(n);
    }
  }

  /** The text fields of an integration request (StrArgs of intserver.h). */
  datatype StrArgs = StrArgs(integrand: string, lower: string, upper: string, segments: string, threads: string)

  /** Every field is non-empty and each conversion reads its whole field. */
  predicate Converts(args: StrArgs, lowerScan: Option<real>, upperScan: Option<real>) {
    args.integrand != "" && args.lower != "" && args.upper != "" && args.segments != "" && args.threads != "" &&
    lowerScan.Some? && upperScan.Some? && WholeInt(args.segments) && WholeInt(args.threads)
  }

  /** The tests before the modulo in check_validity all pass. */
  predicate ReachesModulo(args: StrArgs, lowerScan: Option<real>, upperScan: Option<real>) {
    Converts(args, lowerScan, upperScan) &&
    ContainsWhitespace(args.integrand) == 0 && StoredInt(args.threads) >= 0 &&
    upperScan.value >= lowerScan.value && StoredInt(args.segments) >= 0
  }

  /**
   * The requests check_validity accepts: fields that convert, an integrand
   * without whitespace, bounds that do not fall, and non-negative segment and
   * thread counts with the segments a multiple of the threads.
   */
  predicate ValidRequest(args: StrArgs, lowerScan: Option<real>, upperScan: Option<real>) {
    ReachesModulo(args, lowerScan, upperScan) && StoredInt(args.threads) != 0 &&
    StoredInt(args.segments) % StoredInt(args.threads) == 0
  }

  /**
   * check_validity. lowerScan and upperScan are what "%lf" reads from the
   * bounds: the value when it converts the whole field, None otherwise. The
   * source takes the remainder by the thread count once every earlier test
   * passes, which is undefined for zero threads; the caller must rule that out.
   */
  method CheckValidity(job: IntegrationJob, args: StrArgs, lowerScan: Option<real>, upperScan: Option<real>)
    returns (r: int)
    requires ReachesModulo(args, lowerScan, upperScan) ==> StoredInt(args.threads) != 0
    modifies job
    ensures r == 0 || r == 1
    ensures r == 0 <==> ValidRequest(args, lowerScan, upperScan)
    ensures r == 0 ==>
      job.integrand == args.integrand && job.lower == lowerScan.value && job.upper == upperScan.value &&
      job.segments == StoredInt(args.segments) && job.threads == StoredInt(args.threads)
    ensures job.verboseMode == old(job.verboseMode)
  {
    if args.integrand == "" || args.lower == "" || args.upper == "" || args.segments == "" || args.threads == "" {
      return 1;
    }
    job.integrand := args.integrand;
    var segScan, thrScan := ScanInt(args.segments), ScanInt(args.threads);
    if lowerScan.None? || upperScan.None? || segScan.None? || thrScan.None? ||
       segScan.value.1 != |args.segments| || thrScan.value.1 != |args.threads| {
      return 1;
    }
    job.lower, job.upper := lowerScan.value, upperScan.value;
    job.segments, job.threads := Narrow(segScan.value.0), Narrow(thrScan.value.0);
    if ContainsWhitespace(job.integrand) != 0 || job.threads < 0 || job.upper < job.lower ||
       job.segments < 0 || job.segments % job.threads != 0 {
      return 1;
    }
    return 0;
  }

  /**
   * check_request_type. charsRead is what parse_HTTP_request returned; for a
   * complete request, httpMethod is its method and requestPars the address split
   * at '/' into at most three parts; compiles says whether tinyexpr compiles
   * an integrand. 0: badly formed, 1: incomplete, 2: an integrand that
   * compiles, 3: an integration request, 4: well formed but not served.
   */
  function CheckRequestType(charsRead: int, httpMethod: string, requestPars: seq<string>,
                            compiles: string -> bool): (t: int)
    requires charsRead > 0 && httpMethod == "GET" ==>
      |requestPars| >= 2 && (requestPars[1] == "validate" ==> |requestPars| >= 3)
    ensures 0 <= t <= 4
    ensures t == 0 <==> charsRead < 0
    ensures t == 1 <==> charsRead == 0
    ensures t == 2 <==>
      charsRead > 0 && httpMethod == "GET" && requestPars[1] == "validate" && compiles(requestPars[2])
    ensures t == 3 <==> charsRead > 0 && httpMethod == "GET" && requestPars[1] == "integrate"
  {
    if charsRead < 0 then 0
    else if charsRead == 0 then 1
    else if httpMethod != "GET" then 4
    else if requestPars[1] == "validate" then
      (if CheckFunction(requestPars[2], compiles) == 1 then 2 else 4)
    else if requestPars[1] == "integrate" then 3
    else 4
  }

  /** check_function: 1 when the integrand compiles, 0 otherwise. */
  function CheckFunction(integrand: string, compiles: string -> bool): (r: int)
    ensures r == 1 <==> compiles(integrand)
    ensures r == 0 <==> !compiles(integrand)
  {
    if compiles(integrand) then 1 else 0
  }
}
