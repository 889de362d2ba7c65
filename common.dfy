/**
 * What the integration client and server share (A4/common.h, A4/common.c):
 * the integration job record and the whitespace predicate.
 */
module Common {
  import opened CType

  /**
   * The integration job of common.h. The client fills it in from a job line
   * and the server from a request; the integrand is the C field `function`.
   */
  class IntegrationJob {
    var integrand: string
    var lower: real
    var upper: real
    var segments: int
    var threads: int
    var verboseMode: bool

    /** A job whose fields are still to be filled in, apart from the verbose flag. */
    constructor (verbose: bool)
      ensures integrand == "" && lower == 0.0 && upper == 0.0 && segments == 0 && threads == 0
      ensures verboseMode == verbose
    {
      integrand, lower, upper, segments, threads := "", 0.0, 0.0, 0, 0;
      verboseMode := verbose;
    }
  }

  /** The scan of contains_whitespace from index i on: 1 at the first whitespace character. */
  function WhitespaceFrom(expr: string, i: nat): int
    requires i <= |expr|
    decreases |expr| - i
  {
    if i == |expr| then 0
    else if IsSpace(expr[i]) then 1
    else WhitespaceFrom(expr, i + 1)
  }

  /** contains_whitespace: 1 when some character is whitespace, 0 otherwise (also for ""). */
  function ContainsWhitespace(expr: string): int {
    if |expr| > 0 then WhitespaceFrom(expr, 0) else 0
  }

  predicate HasSpace(s: string) {
    exists k :: 0 <= k < |s| && IsSpace(s[k])
  }

  lemma {:induction false} WhitespaceFromSpec(s: string, i: nat)
    requires i <= |s|
    ensures WhitespaceFrom(s, i) == 0 || WhitespaceFrom(s, i) == 1
    ensures WhitespaceFrom(s, i) == 1 <==> exists k :: i <= k < |s| && IsSpace(s[k])
    decreases |s| - i
  {
    if i < |s| && !IsSpace(s[i]) {
      WhitespaceFromSpec(s, i + 1);
      assert forall k :: i <= k < |s| && IsSpace(s[k]) ==> i + 1 <= k;
    }
  }

  /** The result is 0 or 1, and 1 exactly when some character satisfies isspace. */
  lemma ContainsWhitespaceSpec(s: string)
    ensures ContainsWhitespace(s) == 0 || ContainsWhitespace(s) == 1
    ensures ContainsWhitespace(s) == 1 <==> HasSpace(s)
  {
    WhitespaceFromSpec(s, 0);
  }

  /** The empty string contains no whitespace. */
  lemma ContainsWhitespaceEmpty()
    ensures ContainsWhitespace("") == 0
  {
  }

  /** Whitespace anywhere counts: a concatenation has whitespace exactly when one of its parts has. */
  lemma ContainsWhitespaceConcat(a: string, b: string)
    ensures ContainsWhitespace(a + b) == 1 <==> ContainsWhitespace(a) == 1 || ContainsWhitespace(b) == 1
  {
    ContainsWhitespaceSpec(a);
    ContainsWhitespaceSpec(b);
    ContainsWhitespaceSpec(a + b);
    if HasSpace(a + b) {
      var k :| 0 <= k < |a + b| && IsSpace((a + b)[k]);
      if k < |a| { assert IsSpace(a[k]); } else { assert IsSpace(b[k - |a|]); }
    }
    if HasSpace(a) {
      var k :| 0 <= k < |a| && IsSpace(a[k]);
      assert IsSpace((a + b)[k]);
    }
    if HasSpace(b) {
      var k :| 0 <= k < |b| && IsSpace(b[k]);
      assert IsSpace((a + b)[|a| + k]);
    }
  }
}
