/**
 * The main flow of unjumble (A1/unjumble.c): check the arguments in order,
 * filter the dictionary, stop with status 10 when nothing is left, order the
 * words by the specifier and list the ones that are not NULL.
 */
module UnjumbleMain {
  import opened Wrappers
  import opened UnjumbleArgs
  import opened UnjumbleWords
  import opened UnjumbleOrder

  const USAGE := "Usage: unjumble [-alpha|-len|-longest] [-include letter] letters [dictionary]"

  /** err_check: the exit status and the line on stderr for codes 1 to 4; any other code carries on. */
  function ErrCheck(code: int, dict: string): (r: Option<(int, string)>)
    ensures r.Some? <==> 1 <= code <= 4
    ensures r.Some? ==> r.value.0 == code
    ensures code == 2 ==> r == Some((2, "unjumble: file \"" + dict + "\" can not be opened"))
  {
    if code == 1 then Some((1, USAGE))
    else if code == 2 then Some((2, "unjumble: file \"" + dict + "\" can not be opened"))
    else if code == 3 then Some((3, "unjumble: must supply at least three letters"))
    else if code == 4 then Some((4, "unjumble: can only unjumble alphabetic characters"))
    else None
  }

  /**
   * What main demands of argv for its checks to be defined: is_spec must not
   * read past a trailing -include, and is_letters must not read an entry
   * find_optional left unset (a one-character argument other than the
   * -include letter).
   */
  predicate WellFormed(argv: seq<string>, canOpen: seq<bool>) {
    1 <= |argv| && |canOpen| == |argv| &&
    (2 <= |argv| <= 6 ==> !ReadsPastEnd(argv) && (SpecCode(argv) == 0 ==> SingleCharsKnown(argv, LetterSlot(argv))))
  }

  /** The first failing check's code, in main's order (argc, is_spec, is_letters, is_dict), or 0. */
  function ArgsCode(argv: seq<string>, canOpen: seq<bool>): int
    requires WellFormed(argv, canOpen)
  {
    if |argv| < 2 || |argv| > 6 then 1
    else if SpecCode(argv) != 0 then SpecCode(argv)
    else if LettersCode(argv, canOpen) != 0 then LettersCode(argv, canOpen)
    else DictCode(argv, canOpen, FirstCandidate(argv, canOpen, 0).value)
  }

  /** The -include letter as main passes it to sort_normal. */
  function IncludeLetter(argv: seq<string>): Option<string>
    requires 1 <= |argv| && !ReadsPastEnd(argv)
  {
    match LetterSlot(argv)
    case None => None
    case Some(a) => Some(a.data)
  }

  /** The words that survive the filter, for arguments that pass every check. */
  function KeptWords(argv: seq<string>, canOpen: seq<bool>, words: seq<string>): seq<string>
    requires WellFormed(argv, canOpen) && ArgsCode(argv, canOpen) == 0
  {
    Kept(words, argv[FirstCandidate(argv, canOpen, 0).value], IncludeLetter(argv))
  }

  /** The specifier given, "" for none. */
  function Specifier(argv: seq<string>): string
    requires 1 <= |argv| && !ReadsPastEnd(argv)
  {
    match SpecSlot(argv)
    case None => ""
    case Some(a) => a.data
  }

  /** What main promises about its output for the words kept and the specifier given. */
  ghost predicate Listed(kept: seq<string>, spec: string, output: seq<string>) {
    (spec != "-alpha" && spec != "-len" && spec != "-longest" ==> output == kept) &&
    ((spec == "-alpha" || spec == "-len") ==>
      multiset(output) == multiset(kept) &&
      forall i, j :: 0 <= i < j < |output| ==> Cmp(spec == "-len", output[i], output[j]) <= 0) &&
    (spec == "-longest" ==>
      (forall w :: multiset(output)[w] == LongestCount(kept, w)) &&
      forall i, j :: 0 <= i < j < |output| ==> CmpAlpha(output[i], output[j]) <= 0)
  }

  /**
   * main over the dictionary `words`: returns the exit status, the line
   * written to stderr on an argument error, and the lines written to stdout.
   */
  method Unjumble(argv: seq<string>, canOpen: seq<bool>, words: seq<string>)
    returns (status: int, message: string, output: seq<string>)
    requires WellFormed(argv, canOpen)
    ensures ArgsCode(argv, canOpen) != 0 ==>
      status == ArgsCode(argv, canOpen) && output == [] &&
      message == ErrCheck(ArgsCode(argv, canOpen), argv[|argv| - 1]).value.1
    ensures ArgsCode(argv, canOpen) == 0 ==>
      var kept := KeptWords(argv, canOpen, words);
      (status == 10 <==> kept == []) && (status != 10 ==> status == 0) &&
      (kept == [] ==> output == []) &&
      (kept != [] ==> Listed(kept, Specifier(argv), output))
  {
    message, output := "", [];
    var args := new ArgStructs();
    var code := CheckArgs(args, argv, canOpen);
    if code != 0 {
      status, message := code, ErrCheck(code, if args.dictionary.Some? then args.dictionary.value.data else "").value.1;
      return;
    }
    var letter := if args.single.Some? then Some(args.single.value.data) else None;
    var sortedWords, numWords := SortNormal(words, args.letters.value.data, letter);
    if numWords == 0 {
      status := 10;
      return;
    }
    var spec := if args.specifier.Some? then args.specifier.value.data else "";
    PresentSomes(KeptWords(argv, canOpen, words));
    output := ListWords(Present(sortedWords[..numWords]), spec);
    status := 0;
  }

  /** The argument checks of main, in order; err_check stops at the first code from 1 to 4. */
  method CheckArgs(args: ArgStructs, argv: seq<string>, canOpen: seq<bool>) returns (code: int)
    requires WellFormed(argv, canOpen)
    requires args.specifier == None && args.single == None && args.letters == None && args.dictionary == None
    modifies args
    ensures code == ArgsCode(argv, canOpen)
    ensures 0 <= code <= 4
    ensures code == 0 ==>
      args.letters == Some(Arg(FirstCandidate(argv, canOpen, 0).value, argv[FirstCandidate(argv, canOpen, 0).value])) &&
      args.single == LetterSlot(argv) && args.specifier == SpecSlot(argv)
    ensures code == 2 ==> args.dictionary == Some(Arg(|argv| - 1, argv[|argv| - 1]))
  {
    if |argv| < 2 || |argv| > 6 {
      return 1;
    }
    IsSpecRejects(argv);
    code := args.IsSpec(argv);
    if code != 0 {
      return;
    }
    IsLettersSpec(argv, canOpen);
    code := args.IsLetters(argv, canOpen);
    if code != 0 {
      return;
    }
    code := args.IsDict(argv, canOpen);
    IsDictSpec(argv, canOpen, args.letters.value.index);
  }

  /** Order the kept words as the specifier asks, then list the entries that are not NULL. */
  method ListWords(kept: seq<string>, spec: string) returns (output: seq<string>)
    ensures Listed(kept, spec, output)
  {
    var chosen := new Option<string>[|kept|](i requires 0 <= i < |kept| => Some(kept[i]));
    assert chosen[..] == Somes(kept);
    PresentSomes(kept);
    if spec == "-alpha" {
      SortWords(chosen, false);
    } else if spec == "-len" {
      SortWords(chosen, true);
    } else if spec == "-longest" {
      CmpLongest(chosen);
    }
    output := Present(chosen[..]);
    if spec == "-alpha" || spec == "-len" {
      SortedOutput(kept, chosen[..], spec == "-len");
    } else if spec == "-longest" {
      PrefixShape(chosen[..]);
    }
  }

  /** The words of a sorted list without NULL entries: the words given, in the comparator's order. */
  lemma SortedOutput(given: seq<string>, sorted: seq<Option<string>>, byLen: bool)
    requires multiset(sorted) == multiset(Somes(given)) && Sorted(sorted, byLen)
    ensures multiset(Present(sorted)) == multiset(given)
    ensures forall i, j :: 0 <= i < j < |Present(sorted)| ==> Cmp(byLen, Present(sorted)[i], Present(sorted)[j]) <= 0
  {
    PresentSomes(given);
    forall w | true
      ensures multiset(Present(sorted))[w] == multiset(given)[w]
    {
      PresentCount(sorted, w);
      PresentCount(Somes(given), w);
    }
    PresentAll(sorted);
  }

  /** When the entries that are not NULL come first, the words are those entries in order. */
  lemma {:induction false} PrefixShape(xs: seq<Option<string>>)
    requires forall i, j :: 0 <= i < j < |xs| && xs[j].Some? ==> xs[i].Some?
    ensures forall k :: 0 <= k < |Present(xs)| ==> xs[k].Some? && Present(xs)[k] == xs[k].value
  {
    if xs != [] {
      var n := |xs| - 1;
      if xs[n].Some? {
        PresentAll(xs);
      } else {
        PrefixShape(xs[..n]);
      }
    }
  }
}
