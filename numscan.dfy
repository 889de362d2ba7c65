/**
 * Reading an integer out of text the way sscanf's "%d" conversion and atoi do:
 * optional leading whitespace, an optional sign, then the longest run of
 * decimal digits. The value lands in a C int; for a value outside int's range
 * the model stores what glibc stores (strtol's saturation to a 64-bit long,
 * then conversion to a 32-bit int, which keeps the low 32 bits).
 */
module NumScan {
  import opened Wrappers
  import opened CType
  import opened Decimal

  const INT_MIN: int := -0x8000_0000
  const INT_MAX: int := 0x7fff_ffff
  const LONG_MIN: int := -0x8000_0000_0000_0000
  const LONG_MAX: int := 0x7fff_ffff_ffff_ffff

  predicate InInt32(v: int) {
    INT_MIN <= v <= INT_MAX
  }

  /** The index of the first character at or after i that is not whitespace. */
  function SkipSpace(s: string, i: nat): (j: nat)
    requires i <= |s|
    ensures i <= j <= |s|
    ensures forall k :: i <= k < j ==> IsSpace(s[k])
    ensures j < |s| ==> !IsSpace(s[j])
    decreases |s| - i
  {
    if i == |s| || !IsSpace(s[i]) then i else SkipSpace(s, i + 1)
  }

  /** The index just past the run of digits that starts at i. */
  function DigitsEnd(s: string, i: nat): (j: nat)
    requires i <= |s|
    ensures i <= j <= |s|
    ensures AllDigits(s[i..j])
    ensures j < |s| ==> !IsDigit(s[j])
    decreases |s| - i
  {
    if i == |s| || !IsDigit(s[i]) then i
    else
      var j := DigitsEnd(s, i + 1);
      assert s[i..j] == [s[i]] + s[i + 1..j];
      j
  }

  /**
   * The "%d%n" conversion: the value read and the number of characters
   * consumed, or None when no digit follows the optional sign.
   */
  function ScanInt(s: string): Option<(int, nat)> {
    var i := SkipSpace(s, 0);
    var neg := i < |s| && s[i] == '-';
    var j := if i < |s| && (s[i] == '-' || s[i] == '+') then i + 1 else i;
    var k := DigitsEnd(s, j);
    if k == j then None
    else
      var magnitude: int := DigitsValue(s[j..k]);
      var v: int := if neg then -magnitude else magnitude;
      Some((v, k))
  }

  /** The whole field is one "%d" conversion: nothing is left after the digits. */
  predicate WholeInt(s: string) {
    ScanInt(s).Some? && ScanInt(s).value.1 == |s|
  }

  /** The int a conversion stores: saturate to a long, then keep the low 32 bits as a signed int. */
  function Narrow(v: int): (n: int)
    ensures InInt32(n)
    ensures InInt32(v) ==> n == v
  {
    var l := if v < LONG_MIN then LONG_MIN else if v > LONG_MAX then LONG_MAX else v;
    var low := l % 0x1_0000_0000;
    if low > INT_MAX then low - 0x1_0000_0000 else low
  }

  /** The int a "%d" conversion of s stores, for a field that converts. */
  function StoredInt(s: string): (n: int)
    requires ScanInt(s).Some?
    ensures InInt32(n)
  {
    Narrow(ScanInt(s).value.0)
  }

  /** atoi: the stored conversion, or 0 when the text holds no number. */
  function Atoi(s: string): (n: int)
    ensures InInt32(n)
    ensures ScanInt(s).None? ==> n == 0
  {
    if ScanInt(s).None? then 0 else StoredInt(s)
  }

  /**
   * atoi of a field of digits alone is the value of those digits cut to an
   * int; the empty field reads as 0.
   */
  lemma AtoiDigits(s: string)
    requires AllDigits(s)
    ensures Atoi(s) == Narrow(DigitsValue(s))
  {
    if s != [] {
      assert IsDigit(s[0]) && !IsSpace(s[0]);
      assert SkipSpace(s, 0) == 0;
      DigitsRunToEnd(s, 0);
      assert s[0..|s|] == s;
      assert ScanInt(s) == Some((DigitsValue(s), |s|));
    }
  }

  /** A field the client accepts: it converts whole and reads back as the "%d" rendering of what was stored. */
  predicate Rendered(s: string) {
    WholeInt(s) && IntToString(StoredInt(s)) == s
  }

  /** The "%d" rendering of an int converts whole, back to that int. */
  lemma ScanRendered(n: int)
    ensures ScanInt(IntToString(n)) == Some((n, |IntToString(n)|))
  {
    var s := IntToString(n);
    IntToStringCanonical(n);
    assert !IsSpace(s[0]);
    assert SkipSpace(s, 0) == 0;
    var j := if n < 0 then 1 else 0;
    var digits := if n < 0 then NatToString(-n) else NatToString(n);
    assert s[j..] == digits;
    DigitsRunToEnd(s, j);
    assert s[j..|s|] == digits;
    NatToStringRoundTrip(if n < 0 then -n else n);
  }

  lemma {:induction false} DigitsRunToEnd(s: string, i: nat)
    requires i <= |s| && AllDigits(s[i..])
    ensures DigitsEnd(s, i) == |s|
    decreases |s| - i
  {
    if i < |s| {
      assert IsDigit(s[i..][0]);
      assert s[i + 1..] == s[i..][1..];
      DigitsRunToEnd(s, i + 1);
    }
  }

  /** The client's "%d" round trip accepts exactly the renderings of values that fit in an int. */
  lemma RenderedIff(s: string)
    ensures Rendered(s) <==> exists n :: InInt32(n) && IntToString(n) == s
  {
    if Rendered(s) {
      assert InInt32(StoredInt(s)) && IntToString(StoredInt(s)) == s;
    }
    if exists n :: InInt32(n) && IntToString(n) == s {
      var n :| InInt32(n) && IntToString(n) == s;
      ScanRendered(n);
    }
  }

  /** A number outside int's range never passes the round trip, whatever glibc stored for it. */
  lemma OutOfRangeRejected(s: string)
    requires WholeInt(s) && !InInt32(ScanInt(s).value.0)
    ensures !Rendered(s)
  {
    ScanRendered(StoredInt(s));
  }

  /**
   * What the round trip rules out: a field it accepts has no leading
   * whitespace, no '+', no leading zero and no "-0".
   */
  lemma RenderedShape(s: string)
    requires Rendered(s)
    ensures |s| >= 1 && !IsSpace(s[0]) && s[0] != '+'
    ensures s[0] == '0' ==> s == "0"
    ensures s[0] == '-' ==> |s| >= 2 && s[1] != '0'
  {
    var n := StoredInt(s);
    IntToStringCanonical(n);
    if n >= 0 {
      assert IsDigit(NatToString(n)[0]);
    }
  }
}
