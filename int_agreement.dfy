/**
 * How the client's checks of a job line relate to the server's checks of the
 * integration request the client then sends: every job the client lets
 * through the server accepts too, while the server alone accepts equal
 * bounds and a segment count of zero.
 */
module IntAgreement {
  import opened Wrappers
  import opened Decimal
  import opened NumScan
  import opened Common
  import opened IntClient
  import opened IntServer

  /**
   * The fields of the integration request for a job the client accepted: the
   * integrand, the two bounds as "%lf" wrote them, and segments and threads in
   * "%d". When the server's "%lf" reads back the client's bounds, the request
   * passes check_validity, and the remainder it takes is defined.
   */
  lemma ClientJobsPassServer(integrand: string, lower: real, upper: real, segments: int, threads: int,
                             lineNum: int, lowerText: string, upperText: string)
    requires integrand != "" && lowerText != "" && upperText != ""
    requires InInt32(segments) && InInt32(threads)
    requires CheckParameters(integrand, lower, upper, segments, threads, lineNum).0 == 0
    ensures var args := StrArgs(integrand, lowerText, upperText, IntToString(segments), IntToString(threads));
      (ReachesModulo(args, Some(lower), Some(upper)) ==> StoredInt(args.threads) != 0) &&
      ValidRequest(args, Some(lower), Some(upper))
  {
    ScanRendered(segments);
    ScanRendered(threads);
  }

  /** Equal bounds pass check_validity but fail check_parameters. */
  lemma EqualBoundsServerOnly(lineNum: int)
    ensures CheckParameters("x", 1.0, 1.0, 1, 1, lineNum).0 == 1
    ensures ValidRequest(StrArgs("x", "1", "1", "1", "1"), Some(1.0), Some(1.0))
  {
    SmallCounts();
  }

  /** A segment count of zero passes check_validity but fails check_parameters. */
  lemma ZeroSegmentsServerOnly(lineNum: int)
    ensures CheckParameters("x", 0.0, 1.0, 0, 1, lineNum).0 == 1
    ensures ValidRequest(StrArgs("x", "0", "1", "0", "1"), Some(0.0), Some(1.0))
  {
    SmallCounts();
  }

  lemma SmallCounts()
    ensures WholeInt("0") && StoredInt("0") == 0
    ensures WholeInt("1") && StoredInt("1") == 1
    ensures ContainsWhitespace("x") == 0
  {
    assert IntToString(1) == "1" && IntToString(0) == "0";
    ScanRendered(1);
    ScanRendered(0);
    ContainsWhitespaceSpec("x");
  }
}
