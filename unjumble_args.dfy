/**
 * The command line of unjumble (A1/unjumble.c): the specifier and -include
 * scan, the search for the letters argument and the dictionary argument, in
 * the order main runs them. Whether fopen(argv[i], "r") succeeds is an input.
 */
module UnjumbleArgs {
  import opened Wrappers
  import opened CType

  /** One slot of argStructs: where the argument was found and its text. */
  datatype Arg = Arg(index: nat, data: string)

  const DEFAULT_DICT := "/usr/share/dict/words"

  // ---------------------------------------------------------------------
  // alpha_check

  function LetterCount(s: string): (n: nat)
    ensures n <= |s|
  {
    if s == [] then 0 else LetterCount(s[..|s| - 1]) + (if IsAlpha(s[|s| - 1]) then 1 else 0)
  }

  /** alpha_check: 1 if every character is a letter, -1 otherwise. */
  function AlphaCheck(s: string): int {
    if LetterCount(s) == |s| then 1 else -1
  }

  lemma {:induction false} LetterCountAll(s: string)
    ensures LetterCount(s) == |s| <==> forall i :: 0 <= i < |s| ==> IsAlpha(s[i])
  {
    if s != [] {
      LetterCountAll(s[..|s| - 1]);
      assert forall i :: 0 <= i < |s| - 1 ==> s[..|s| - 1][i] == s[i];
    }
  }

  /** alpha_check is 1 exactly when every character is a letter, and -1 otherwise. */
  lemma AlphaCheckSpec(s: string)
    ensures AlphaCheck(s) == 1 || AlphaCheck(s) == -1
    ensures AlphaCheck(s) == 1 <==> forall i :: 0 <= i < |s| ==> IsAlpha(s[i])
  {
    LetterCountAll(s);
  }

  // ---------------------------------------------------------------------
  // is_spec

  predicate IsSpecifier(a: string) {
    a == "-alpha" || a == "-len" || a == "-longest"
  }

  predicate Dashed(a: string) {
    |a| > 0 && a[0] == '-'
  }

  /** What may follow -include: one letter. */
  predicate SingleLetter(a: string) {
    |a| == 1 && IsAlpha(a[0])
  }

  /**
   * An argument is_spec rejects on sight: -include followed by something
   * other than one letter, or an unknown option. A -include that is the last
   * argument is not one: is_spec reads the NULL after it (see ReadsPastEnd).
   */
  predicate BadArg(argv: seq<string>, i: nat)
    requires 1 <= i < |argv|
  {
    (argv[i] == "-include" && i + 1 < |argv| && !SingleLetter(argv[i + 1])) ||
    (Dashed(argv[i]) && !IsSpecifier(argv[i]) && argv[i] != "-include")
  }

  /** The argument at a.index is the single letter that follows a -include. */
  predicate LetterAfterInclude(argv: seq<string>, a: Arg) {
    2 <= a.index < |argv| && argv[a.index - 1] == "-include" && a.data == argv[a.index] && SingleLetter(a.data)
  }

  /** is_spec's counters and slots after the arguments before n; `bad` once it has returned 1 early. */
  datatype SpecScan = SpecScan(bad: bool, specNum: nat, incNum: nat, spec: Option<Arg>, letter: Option<Arg>)

  /** The loop of is_spec can look at the arguments before n without reading argv[argc]. */
  predicate ScanDefined(argv: seq<string>, n: nat) {
    1 <= n <= |argv| && (2 <= |argv| && argv[|argv| - 1] == "-include" ==> n < |argv|)
  }

  function ScanSpec(argv: seq<string>, n: nat): SpecScan
    requires ScanDefined(argv, n)
  {
    if n == 1 then SpecScan(false, 0, 0, None, None)
    else
      var s := ScanSpec(argv, n - 1);
      var i := n - 1;
      if s.bad then s
      else if IsSpecifier(argv[i]) then s.(specNum := s.specNum + 1, spec := Some(Arg(i, argv[i])))
      else if argv[i] == "-include" then
        if SingleLetter(argv[i + 1]) then s.(incNum := s.incNum + 1, letter := Some(Arg(i + 1, argv[i + 1])))
        else s.(bad := true)
      else if Dashed(argv[i]) then s.(bad := true)
      else s
  }

  /**
   * is_spec reaches a -include that is the last argument and passes
   * argv[argc], the NULL after it, to strlen: undefined behaviour. When an
   * earlier argument is rejected, is_spec returns before it and all is well.
   */
  predicate ReadsPastEnd(argv: seq<string>) {
    2 <= |argv| && argv[|argv| - 1] == "-include" && !ScanSpec(argv, |argv| - 1).bad
  }

  /** How far is_spec's loop gets: every argument, or all but a trailing -include. */
  function ScanEnd(argv: seq<string>): (n: nat)
    requires 1 <= |argv|
    ensures ScanDefined(argv, n) && |argv| - 1 <= n
  {
    if 2 <= |argv| && argv[|argv| - 1] == "-include" then |argv| - 1 else |argv|
  }

  /** is_spec's return value. */
  function SpecCode(argv: seq<string>): int
    requires 1 <= |argv| && !ReadsPastEnd(argv)
  {
    var s := ScanSpec(argv, ScanEnd(argv));
    if s.bad || s.specNum > 1 || s.incNum > 1 then 1 else 0
  }

  /** The specifier slot when is_spec returns 0. */
  function SpecSlot(argv: seq<string>): Option<Arg>
    requires 1 <= |argv| && !ReadsPastEnd(argv)
  {
    var s := ScanSpec(argv, ScanEnd(argv));
    if s.specNum == 0 then None else s.spec
  }

  /** The single-letter slot when is_spec returns 0. */
  function LetterSlot(argv: seq<string>): Option<Arg>
    requires 1 <= |argv| && !ReadsPastEnd(argv)
  {
    var s := ScanSpec(argv, ScanEnd(argv));
    if s.incNum == 0 then None else s.letter
  }

  function SpecCount(argv: seq<string>, n: nat): nat
    requires n <= |argv|
  {
    if n <= 1 then 0 else SpecCount(argv, n - 1) + (if IsSpecifier(argv[n - 1]) then 1 else 0)
  }

  function IncCount(argv: seq<string>, n: nat): nat
    requires n <= |argv|
  {
    if n <= 1 then 0 else IncCount(argv, n - 1) + (if argv[n - 1] == "-include" then 1 else 0)
  }

  lemma {:induction false} ScanSpecFacts(argv: seq<string>, n: nat)
    requires ScanDefined(argv, n)
    ensures ScanSpec(argv, n).bad <==> exists i :: 1 <= i < n && BadArg(argv, i)
    ensures !ScanSpec(argv, n).bad ==>
      ScanSpec(argv, n).specNum == SpecCount(argv, n) && ScanSpec(argv, n).incNum == IncCount(argv, n)
    ensures !ScanSpec(argv, n).bad && ScanSpec(argv, n).specNum > 0 ==>
      var a := ScanSpec(argv, n).spec;
      a.Some? && 1 <= a.value.index < n && IsSpecifier(argv[a.value.index]) && a.value.data == argv[a.value.index]
    ensures !ScanSpec(argv, n).bad && ScanSpec(argv, n).incNum > 0 ==>
      var a := ScanSpec(argv, n).letter;
      a.Some? && a.value.index <= n && LetterAfterInclude(argv, a.value)
  {
    if n > 1 {
      ScanSpecFacts(argv, n - 1);
      var s := ScanSpec(argv, n - 1);
      if s.bad {
        var i :| 1 <= i < n - 1 && BadArg(argv, i);
      }
      if exists i :: 1 <= i < n && BadArg(argv, i) {
        var i :| 1 <= i < n && BadArg(argv, i);
        if i < n - 1 {
          assert s.bad;
        } else {
          assert ScanSpec(argv, n).bad;
        }
      } else {
        assert !s.bad;
        assert !BadArg(argv, n - 1);
        assert !ScanSpec(argv, n).bad;
      }
    }
  }

  /**
   * is_spec returns 1 exactly when a specifier is repeated, -include is
   * repeated, -include is followed by something other than a single letter,
   * or some other argument starts with '-'.
   */
  lemma IsSpecRejects(argv: seq<string>)
    requires 1 <= |argv| && !ReadsPastEnd(argv)
    ensures SpecCode(argv) == 0 || SpecCode(argv) == 1
    ensures SpecCode(argv) == 1 <==>
      SpecCount(argv, |argv|) > 1 || IncCount(argv, |argv|) > 1 || exists i :: 1 <= i < |argv| && BadArg(argv, i)
  {
    ScanSpecFacts(argv, ScanEnd(argv));
    if ScanEnd(argv) < |argv| {
      var i :| 1 <= i < ScanEnd(argv) && BadArg(argv, i);
    }
  }

  /**
   * is_spec reads past the arguments exactly when the last one is -include
   * and no argument before it is rejected on sight.
   */
  lemma ReadsPastEndIff(argv: seq<string>)
    requires 1 <= |argv|
    ensures ReadsPastEnd(argv) <==>
      2 <= |argv| && argv[|argv| - 1] == "-include" && forall i :: 1 <= i < |argv| ==> !BadArg(argv, i)
  {
    if 2 <= |argv| && argv[|argv| - 1] == "-include" {
      ScanSpecFacts(argv, |argv| - 1);
      assert !BadArg(argv, |argv| - 1);
    }
  }

  /**
   * `unjumble -include -include` and `unjumble -q -include` stop at the
   * first bad argument and never read past the end: both fail with code 1.
   */
  lemma EarlyRejectBeforeEnd()
    ensures !ReadsPastEnd(["unjumble", "-include", "-include"])
    ensures SpecCode(["unjumble", "-include", "-include"]) == 1
    ensures !ReadsPastEnd(["unjumble", "-q", "-include"])
    ensures SpecCode(["unjumble", "-q", "-include"]) == 1
  {
    var a := ["unjumble", "-include", "-include"];
    assert !SingleLetter(a[2]);
    var b := ["unjumble", "-q", "-include"];
    assert Dashed(b[1]) && !IsSpecifier(b[1]);
  }

  /**
   * When is_spec accepts, the specifier slot holds the specifier exactly
   * when one was given, and the letter slot holds the letter after -include
   * exactly when -include was given.
   */
  lemma IsSpecSlots(argv: seq<string>)
    requires 1 <= |argv| && !ReadsPastEnd(argv) && SpecCode(argv) == 0
    ensures SpecSlot(argv).Some? <==> SpecCount(argv, |argv|) == 1
    ensures SpecSlot(argv).Some? ==>
      var a := SpecSlot(argv).value;
      1 <= a.index < |argv| && IsSpecifier(a.data) && a.data == argv[a.index]
    ensures LetterSlot(argv).Some? <==> IncCount(argv, |argv|) == 1
    ensures LetterSlot(argv).Some? ==>
      LetterAfterInclude(argv, LetterSlot(argv).value)
  {
    AcceptedScansAll(argv);
    ScanSpecFacts(argv, |argv|);
  }

  /** When is_spec accepts, its loop went through every argument. */
  lemma AcceptedScansAll(argv: seq<string>)
    requires 1 <= |argv| && !ReadsPastEnd(argv) && !ScanSpec(argv, ScanEnd(argv)).bad
    ensures ScanEnd(argv) == |argv|
  {
  }

  // ---------------------------------------------------------------------
  // find_optional and is_letters

  /**
   * Every one-character argument that is not an option is the letter after
   * -include; find_optional leaves its entry of indexList unset otherwise.
   */
  predicate SingleCharsKnown(argv: seq<string>, single: Option<Arg>) {
    forall i :: 1 <= i < |argv| && !Dashed(argv[i]) && |argv[i]| == 1 ==> single.Some? && single.value.index == i
  }

  /** find_optional's verdict on argument i: 1 if it may be the letters argument, 0 otherwise. */
  function Optional(argv: seq<string>, canOpen: seq<bool>, i: nat): int
    requires |canOpen| == |argv| && i < |argv|
  {
    if i == 0 || Dashed(argv[i]) || |argv[i]| == 1 || canOpen[i] then 0 else 1
  }

  /** The first argument from `from` on that may be the letters argument. */
  function FirstCandidate(argv: seq<string>, canOpen: seq<bool>, from: nat): (r: Option<nat>)
    requires |canOpen| == |argv| && from <= |argv|
    ensures r.Some? ==> from <= r.value < |argv| && Optional(argv, canOpen, r.value) == 1
    ensures r.Some? ==> forall k :: from <= k < r.value ==> Optional(argv, canOpen, k) == 0
    ensures r.None? ==> forall k :: from <= k < |argv| ==> Optional(argv, canOpen, k) == 0
    decreases |argv| - from
  {
    if from == |argv| then None
    else if Optional(argv, canOpen, from) == 1 then Some(from)
    else FirstCandidate(argv, canOpen, from + 1)
  }

  /** is_letters' return value: 1 without a candidate, else 3 or 4 for a bad first candidate, else 0. */
  function LettersCode(argv: seq<string>, canOpen: seq<bool>): int
    requires |canOpen| == |argv|
  {
    match FirstCandidate(argv, canOpen, 0)
    case None => 1
    case Some(i) =>
      if |argv[i]| < 3 then 3 else if AlphaCheck(argv[i]) == -1 then 4 else 0
  }

  /**
   * is_letters' verdicts: 3 when the letters argument is shorter than three
   * characters, 4 when it is long enough but holds a non-letter, 0 when it
   * is accepted, which leaves at least three letters only.
   */
  lemma IsLettersSpec(argv: seq<string>, canOpen: seq<bool>)
    requires |canOpen| == |argv|
    ensures LettersCode(argv, canOpen) in {0, 1, 3, 4}
    ensures LettersCode(argv, canOpen) == 1 <==> forall k :: 0 <= k < |argv| ==> Optional(argv, canOpen, k) == 0
    ensures LettersCode(argv, canOpen) == 3 <==>
      FirstCandidate(argv, canOpen, 0).Some? && |argv[FirstCandidate(argv, canOpen, 0).value]| < 3
    ensures LettersCode(argv, canOpen) == 4 <==>
      FirstCandidate(argv, canOpen, 0).Some? && |argv[FirstCandidate(argv, canOpen, 0).value]| >= 3 &&
      exists k :: 0 <= k < |argv[FirstCandidate(argv, canOpen, 0).value]| && !IsAlpha(argv[FirstCandidate(argv, canOpen, 0).value][k])
    ensures LettersCode(argv, canOpen) == 0 ==>
      var w := argv[FirstCandidate(argv, canOpen, 0).value];
      |w| >= 3 && forall k :: 0 <= k < |w| ==> IsAlpha(w[k])
  {
    match FirstCandidate(argv, canOpen, 0)
    case None =>
    case Some(i) =>
      AlphaCheckSpec(argv[i]);
      assert Optional(argv, canOpen, i) == 1;
  }

  /** Which argument a -include or dictionary is: the program's record of its arguments. */
  class ArgStructs {
    var specifier: Option<Arg>
    var single: Option<Arg>
    var letters: Option<Arg>
    var dictionary: Option<Arg>

    constructor()
      ensures specifier == None && single == None && letters == None && dictionary == None
    {
      specifier, single, letters, dictionary := None, None, None, None;
    }

    /** is_spec: scan for the specifier and -include; on success keep only the slots that were used. */
    method IsSpec(argv: seq<string>) returns (code: int)
      requires 1 <= |argv| && !ReadsPastEnd(argv)
      modifies this
      ensures code == SpecCode(argv)
      ensures code == 0 ==> specifier == SpecSlot(argv) && single == LetterSlot(argv)
      ensures letters == old(letters) && dictionary == old(dictionary)
    {
      var specNum, incNum := 0, 0;
      var i := 1;
      while i < |argv|
        invariant ScanDefined(argv, i)
        invariant !ScanSpec(argv, i).bad
        invariant specNum == ScanSpec(argv, i).specNum && incNum == ScanSpec(argv, i).incNum
        invariant specNum > 0 ==> specifier == ScanSpec(argv, i).spec
        invariant incNum > 0 ==> single == ScanSpec(argv, i).letter
        invariant letters == old(letters) && dictionary == old(dictionary)
      {
        if IsSpecifier(argv[i]) {
          specNum := specNum + 1;
          specifier := Some(Arg(i, argv[i]));
        } else if argv[i] == "-include" {
          incNum := incNum + 1;
          if SingleLetter(argv[i + 1]) {
            single := Some(Arg(i + 1, argv[i + 1]));
          } else {
            code := 1;
            StaysBad(argv, i + 1, ScanEnd(argv));
            return;
          }
        } else if Dashed(argv[i]) {
          code := 1;
          StaysBad(argv, i + 1, ScanEnd(argv));
          return;
        }
        i := i + 1;
      }
      if specNum > 1 || incNum > 1 {
        return 1;
      } else if specNum == 0 && incNum == 0 {
        specifier, single := None, None;
      } else if incNum == 0 {
        single := None;
      } else if specNum == 0 {
        specifier := None;
      }
      code := 0;
    }

    /**
     * is_letters: the first argument find_optional marks as a candidate is
     * the letters argument, if it is long enough and all letters.
     */
    method IsLetters(argv: seq<string>, canOpen: seq<bool>) returns (code: int)
      requires 1 <= |argv| && |canOpen| == |argv| && SingleCharsKnown(argv, single)
      modifies this
      ensures code == LettersCode(argv, canOpen)
      ensures code == 0 ==> letters == Some(Arg(FirstCandidate(argv, canOpen, 0).value, argv[FirstCandidate(argv, canOpen, 0).value]))
      ensures specifier == old(specifier) && single == old(single) && dictionary == old(dictionary)
    {
      var indexList := FindOptional(argv, canOpen);
      var letterNum := 0;
      var i := 0;
      while i < |argv|
        invariant 0 <= i <= |argv|
        invariant letterNum == 0 <==> forall k :: 0 <= k < i ==> Optional(argv, canOpen, k) == 0
      {
        if indexList[i] == 1 {
          letterNum := letterNum + 1;
        }
        i := i + 1;
      }
      if letterNum == 0 {
        return 1;
      }
      i := 0;
      while i < |argv|
        invariant 0 <= i <= |argv|
        invariant FirstCandidate(argv, canOpen, 0) == FirstCandidate(argv, canOpen, i)
        invariant specifier == old(specifier) && single == old(single) && dictionary == old(dictionary)
      {
        if indexList[i] == 1 {
          if |argv[i]| < 3 {
            return 3;
          } else if AlphaCheck(argv[i]) == -1 {
            return 4;
          } else {
            letters := Some(Arg(i, argv[i]));
            return 0;
          }
        }
        i := i + 1;
      }
      code := 0;
    }

    /** find_optional: for each argument, 1 if it may be the letters argument and 0 if it is not. */
    method FindOptional(argv: seq<string>, canOpen: seq<bool>) returns (indexList: seq<int>)
      requires 1 <= |argv| && |canOpen| == |argv| && SingleCharsKnown(argv, single)
      ensures |indexList| == |argv|
      ensures forall i :: 0 <= i < |argv| ==> indexList[i] == Optional(argv, canOpen, i)
    {
      indexList := [0];
      var i := 1;
      while i < |argv|
        invariant 1 <= i <= |argv| && |indexList| == i
        invariant forall k :: 0 <= k < i ==> indexList[k] == Optional(argv, canOpen, k)
      {
        if Dashed(argv[i]) {
          indexList := indexList + [0];
        } else if |argv[i]| == 1 {
          if single.Some? && single.value.index == i {
            indexList := indexList + [0];
          }
        } else if canOpen[i] {
          indexList := indexList + [0];
        } else {
          indexList := indexList + [1];
        }
        i := i + 1;
      }
    }

    /**
     * is_dict: the argument after the letters argument, if any, is the
     * dictionary and must be the last argument (1) and open (2); with none
     * the default dictionary is used.
     */
    method IsDict(argv: seq<string>, canOpen: seq<bool>) returns (code: int)
      requires |canOpen| == |argv| && letters.Some? && letters.value.index < |argv|
      modifies this
      ensures specifier == old(specifier) && single == old(single) && letters == old(letters)
      ensures code == DictCode(argv, canOpen, letters.value.index)
      ensures dictionary == DictSlot(argv, letters.value.index)
    {
      var li := letters.value.index;
      if li == |argv| - 1 {
        dictionary := Some(Arg(0, DEFAULT_DICT));
      } else {
        dictionary := Some(Arg(li + 1, argv[li + 1]));
        if li + 1 != |argv| - 1 {
          return 1;
        } else if !canOpen[li + 1] {
          return 2;
        }
      }
      code := 0;
    }
  }

  lemma {:induction false} StaysBad(argv: seq<string>, n: nat, m: nat)
    requires 1 <= n <= m && ScanDefined(argv, m) && ScanSpec(argv, n).bad
    ensures ScanSpec(argv, m).bad
    decreases m - n
  {
    if n < m {
      StaysBad(argv, n + 1, m);
    }
  }

  /** is_dict's return value. */
  function DictCode(argv: seq<string>, canOpen: seq<bool>, li: nat): int
    requires |canOpen| == |argv| && li < |argv|
  {
    if li == |argv| - 1 then 0
    else if li + 1 != |argv| - 1 then 1
    else if !canOpen[li + 1] then 2
    else 0
  }

  /** The dictionary is_dict records: the argument after the letters, or the default. */
  function DictSlot(argv: seq<string>, li: nat): Option<Arg>
    requires li < |argv|
  {
    if li == |argv| - 1 then Some(Arg(0, DEFAULT_DICT)) else Some(Arg(li + 1, argv[li + 1]))
  }

  /** is_dict accepts exactly when there is no dictionary argument, or one that is last and opens. */
  lemma IsDictSpec(argv: seq<string>, canOpen: seq<bool>, li: nat)
    requires |canOpen| == |argv| && li < |argv|
    ensures DictCode(argv, canOpen, li) == 0 <==> li == |argv| - 1 || (li == |argv| - 2 && canOpen[li + 1])
    ensures DictCode(argv, canOpen, li) == 2 ==> DictSlot(argv, li) == Some(Arg(|argv| - 1, argv[|argv| - 1]))
  {
  }
}
