/**
 * The word filter of unjumble (A1/unjumble.c): which dictionary words can be
 * spelt from the letters argument, ignoring case and using each letter at
 * most once, and the compaction of the survivors into a new list.
 * The dictionary's contents, read by get_words, are an input.
 */
module UnjumbleWords {
  import opened Wrappers
  import opened CType

  /** The mark has_all_letters leaves on a letter it has used. */
  const USED := '-'

  /** The letters of a word in upper case, as toupper sees them character by character. */
  function Letters(w: string): multiset<char> {
    if w == [] then multiset{} else Letters(w[..|w| - 1]) + multiset{ToUpper(w[|w| - 1])}
  }

  /** The letters still available in a buffer: every entry not yet marked used, in upper case. */
  function Avail(s: string): multiset<char> {
    if s == [] then multiset{} else Avail(s[..|s| - 1]) + Unused(s[|s| - 1])
  }

  /** One buffer entry's contribution to the available letters. */
  function Unused(c: char): multiset<char> {
    if c != USED then multiset{ToUpper(c)} else multiset{}
  }

  /** A word can be spelt from the letters: ignoring case, it is a sub-multiset of them. */
  predicate Fits(word: string, letters: string) {
    Letters(word) <= Avail(letters)
  }

  /** Appending one entry adds its contribution. */
  lemma AvailSnoc(s: string, c: char)
    ensures Avail(s + [c]) == Avail(s) + Unused(c)
  {
    assert (s + [c])[..|s|] == s;
  }

  lemma {:induction false} AvailConcat(a: string, b: string)
    ensures Avail(a + b) == Avail(a) + Avail(b)
    decreases |b|
  {
    if b == [] {
      assert a + b == a;
    } else {
      var b', c := b[..|b| - 1], b[|b| - 1];
      assert b == b' + [c];
      assert a + b == (a + b') + [c];
      AvailConcat(a, b');
      AvailSnoc(a + b', c);
      AvailSnoc(b', c);
    }
  }

  lemma {:induction false} AvailNoMark(s: string)
    ensures USED !in Avail(s)
  {
    if s != [] {
      AvailNoMark(s[..|s| - 1]);
    }
  }

  /**
   * The inner loop of has_all_letters: mark the first unused entry that
   * matches `letter` (already in upper case). It finds one exactly when the
   * letter is available, and then exactly one copy of it stops being available.
   */
  method UseLetter(pool: array<char>, letter: char) returns (found: bool)
    modifies pool
    ensures found <==> letter in Avail(old(pool[..]))
    ensures Avail(pool[..]) == Avail(old(pool[..])) - multiset{letter}
  {
    found := false;
    var i := 0;
    while i < pool.Length
      invariant 0 <= i <= pool.Length
      invariant pool[..] == old(pool[..])
      invariant letter !in Avail(pool[..i])
    {
      if pool[i] != USED && ToUpper(pool[i]) == letter {
        AvailMark(pool[..], i);
        pool[i] := USED;
        assert pool[..] == old(pool[..])[i := USED];
        found := true;
        return;
      }
      assert pool[..i + 1][..i] == pool[..i];
      assert Avail(pool[..i + 1]) == Avail(pool[..i]) + Unused(pool[i]);
      i := i + 1;
    }
    assert pool[..i] == pool[..];
    NotAvail(Avail(pool[..]), letter);
  }

  lemma NotAvail(m: multiset<char>, c: char)
    requires c !in m
    ensures m - multiset{c} == m
  {
  }

  /** Marking an unused entry removes exactly one copy of its letter. */
  lemma {:induction false} AvailMark(s: string, i: nat)
    requires i < |s| && s[i] != USED
    ensures ToUpper(s[i]) in Avail(s)
    ensures Avail(s[i := USED]) == Avail(s) - multiset{ToUpper(s[i])}
  {
    if i == |s| - 1 {
      MarkLast(s);
    } else {
      AvailMark(s[..|s| - 1], i);
      MarkEarlier(s, i);
    }
  }

  /** Marking the last entry drops its contribution. */
  lemma MarkLast(s: string)
    requires s != [] && s[|s| - 1] != USED
    ensures ToUpper(s[|s| - 1]) in Avail(s)
    ensures Avail(s[|s| - 1 := USED]) == Avail(s) - multiset{ToUpper(s[|s| - 1])}
  {
    var n := |s| - 1;
    var t := s[n := USED];
    var m := Avail(s[..n]);
    assert t[..n] == s[..n];
    assert Avail(t) == m;
    assert Avail(s) == m + multiset{ToUpper(s[n])};
    TakeBack(m, ToUpper(s[n]));
  }

  /** Marking an earlier entry: what marking it does to the prefix carries over to the whole buffer. */
  lemma MarkEarlier(s: string, i: nat)
    requires i < |s| - 1 && s[i] != USED
    requires ToUpper(s[i]) in Avail(s[..|s| - 1])
    requires Avail(s[..|s| - 1][i := USED]) == Avail(s[..|s| - 1]) - multiset{ToUpper(s[i])}
    ensures ToUpper(s[i]) in Avail(s)
    ensures Avail(s[i := USED]) == Avail(s) - multiset{ToUpper(s[i])}
  {
    var n := |s| - 1;
    var t := s[i := USED];
    var x := ToUpper(s[i]);
    var m := Avail(s[..n]);
    assert Avail(s) == m + Unused(s[n]);
    assert t[..n] == s[..n][i := USED];
    assert t[n] == s[n];
    assert Avail(t) == (m - multiset{x}) + Unused(s[n]);
    TakeOutLater(m, Unused(s[n]), x);
  }

  lemma TakeBack(m: multiset<char>, x: char)
    ensures m == (m + multiset{x}) - multiset{x}
  {
  }

  lemma TakeOutLater(m: multiset<char>, u: multiset<char>, x: char)
    requires x in m
    ensures (m - multiset{x}) + u == (m + u) - multiset{x}
  {
  }

  /**
   * One step of the matching loop: the letters matched so far fit (ok) and the
   * buffer holds what is left of them; the next letter is found in the buffer
   * exactly when the longer prefix still fits, and the buffer keeps up.
   */
  lemma MatchStep(used: multiset<char>, target: multiset<char>, avail: multiset<char>, c: char, found: bool, ok: bool)
    requires ok ==> avail + used == target
    requires !ok ==> !(used <= target)
    requires found <==> c in avail
    ensures ok && found ==> (avail - multiset{c}) + (used + multiset{c}) == target
    ensures !(ok && found) ==> !(used + multiset{c} <= target)
  {
    if ok && !found {
      assert target[c] == avail[c] + used[c];
    }
  }

  /**
   * has_all_letters: 1 exactly when the word, ignoring case, can be spelt
   * from the letters with each letter used at most once; -1 otherwise.
   */
  method HasAllLetters(letters: string, word: string) returns (r: int)
    ensures r == 1 || r == -1
    ensures r == 1 <==> Fits(word, letters)
  {
    var lettersCopy := new char[|letters|](i requires 0 <= i < |letters| => letters[i]);
    assert lettersCopy[..] == letters;
    var matchingLetters := MatchWord(lettersCopy, word);
    r := if |word| == matchingLetters then 1 else -1;
  }

  /**
   * The outer loop of has_all_letters: count the letters of the word matched
   * in the buffer, marking each one used. Every letter is matched exactly
   * when the word fits in the letters the buffer held.
   */
  method MatchWord(pool: array<char>, word: string) returns (matchingLetters: int)
    modifies pool
    ensures 0 <= matchingLetters <= |word|
    ensures matchingLetters == |word| <==> Letters(word) <= Avail(old(pool[..]))
  {
    matchingLetters := 0;
    ghost var target := Avail(pool[..]);
    ghost var avail, used, ok := target, multiset{}, true;
    var j := 0;
    while j < |word|
      invariant 0 <= matchingLetters <= j <= |word|
      invariant ok <==> matchingLetters == j
      invariant avail == Avail(pool[..])
      invariant used == Letters(word[..j])
      invariant Matched(avail, used, target, ok)
    {
      var letter := ToUpper(word[j]);
      var found;
      found, avail := MatchLetter(pool, letter, used, target, ok, avail);
      LettersSnoc(word, j);
      used, ok := used + multiset{letter}, ok && found;
      if found {
        matchingLetters := matchingLetters + 1;
      }
      j := j + 1;
    }
    MatchedFits(avail, used, target, ok);
    assert word[..|word|] == word;
  }

  /**
   * Where the outer loop of has_all_letters stands once the letters `used`
   * of the word have been looked for: while every one of them was matched
   * (ok), the buffer holds exactly the letters they did not use; otherwise
   * they do not fit in the letters.
   */
  predicate Matched(avail: multiset<char>, used: multiset<char>, target: multiset<char>, ok: bool) {
    (ok ==> avail + used == target) && (!ok ==> !(used <= target))
  }

  /** At the end of the outer loop, every letter was matched exactly when the word fits. */
  lemma MatchedFits(avail: multiset<char>, used: multiset<char>, target: multiset<char>, ok: bool)
    requires Matched(avail, used, target, ok)
    ensures ok <==> used <= target
  {
  }

  /** The letters of a longer prefix of the word add one upper-case letter. */
  lemma LettersSnoc(word: string, j: nat)
    requires j < |word|
    ensures Letters(word[..j + 1]) == Letters(word[..j]) + multiset{ToUpper(word[j])}
  {
    assert word[..j + 1][..j] == word[..j];
  }

  /**
   * One pass of the outer loop of has_all_letters: look for the next letter
   * of the word in the buffer. It is matched exactly when the letters looked
   * for so far, with this one, still fit, and the buffer keeps up.
   */
  method MatchLetter(pool: array<char>, letter: char, ghost used: multiset<char>, ghost target: multiset<char>,
                     ghost ok: bool, ghost avail: multiset<char>)
    returns (found: bool, ghost avail': multiset<char>)
    requires avail == Avail(pool[..])
    requires Matched(avail, used, target, ok)
    modifies pool
    ensures avail' == Avail(pool[..])
    ensures Matched(avail', used + multiset{letter}, target, ok && found)
  {
    found := UseLetter(pool, letter);
    avail' := Avail(pool[..]);
    MatchStep(used, target, avail, letter, found, ok);
  }

  /** The first character of a C string; the empty string holds only its terminator. */
  function FirstChar(s: string): char {
    if |s| == 0 then '\0' else s[0]
  }

  function SingleFrom(c: char, word: string, j: nat): int
    decreases |word| - j
  {
    if j >= |word| then -1
    else if ToUpper(word[j]) == c then 1
    else SingleFrom(c, word, j + 1)
  }

  /** has_single_letter: 1 if the word holds the letter in either case, -1 otherwise. */
  function HasSingleLetter(letter: string, word: string): int {
    SingleFrom(ToUpper(FirstChar(letter)), word, 0)
  }

  lemma {:induction false} SingleFromSpec(c: char, word: string, j: nat)
    ensures SingleFrom(c, word, j) == 1 || SingleFrom(c, word, j) == -1
    ensures SingleFrom(c, word, j) == 1 <==> exists k :: j <= k < |word| && ToUpper(word[k]) == c
    decreases |word| - j
  {
    if j < |word| && ToUpper(word[j]) != c {
      SingleFromSpec(c, word, j + 1);
      assert forall k :: j <= k < |word| && ToUpper(word[k]) == c ==> j + 1 <= k;
    }
  }

  lemma HasSingleLetterSpec(letter: string, word: string)
    ensures HasSingleLetter(letter, word) == 1 || HasSingleLetter(letter, word) == -1
    ensures HasSingleLetter(letter, word) == 1 <==>
      exists k :: 0 <= k < |word| && ToUpper(word[k]) == ToUpper(FirstChar(letter))
  {
    SingleFromSpec(ToUpper(FirstChar(letter)), word, 0);
  }

  // ---------------------------------------------------------------------
  // sort_normal

  /** The words sort_normal keeps: 3 to |letters| long, spelt from the letters, and holding the -include letter if given. */
  predicate Keep(letters: string, letter: Option<string>, w: string) {
    3 <= |w| <= |letters| && Fits(w, letters) && (letter.Some? ==> HasSingleLetter(letter.value, w) == 1)
  }

  /** The word list after the filtering loop: a dropped word is NULL. */
  function Marked(words: seq<string>, letters: string, letter: Option<string>): (r: seq<Option<string>>)
    ensures |r| == |words|
  {
    seq(|words|, i requires 0 <= i < |words| => if Keep(letters, letter, words[i]) then Some(words[i]) else None)
  }

  /** The entries that are not NULL, in order. */
  function Present(xs: seq<Option<string>>): (r: seq<string>)
    ensures |r| <= |xs|
  {
    if xs == [] then []
    else Present(xs[..|xs| - 1]) + (if xs[|xs| - 1].Some? then [xs[|xs| - 1].value] else [])
  }

  function Somes(ws: seq<string>): (r: seq<Option<string>>)
    ensures |r| == |ws|
  {
    seq(|ws|, i requires 0 <= i < |ws| => Some(ws[i]))
  }

  /** The words sort_normal returns, in dictionary order. */
  function Kept(words: seq<string>, letters: string, letter: Option<string>): seq<string> {
    Present(Marked(words, letters, letter))
  }

  /** The filtering loop of sort_normal: drop (set to NULL) every word that is not kept. */
  method FilterWords(wordList: array<Option<string>>, letters: string, letter: Option<string>)
    requires forall i :: 0 <= i < wordList.Length ==> wordList[i].Some?
    modifies wordList
    ensures wordList[..] == Marked(Present(old(wordList[..])), letters, letter)
  {
    ghost var words := Present(wordList[..]);
    PresentAll(wordList[..]);
    var i := 0;
    while i < wordList.Length
      invariant 0 <= i <= wordList.Length
      invariant forall k :: 0 <= k < i ==> wordList[k] == Marked(words, letters, letter)[k]
      invariant forall k :: i <= k < wordList.Length ==> wordList[k] == Some(words[k])
    {
      var w := wordList[i].value;
      if |w| > |letters| || |w| < 3 {
        wordList[i] := None;
      } else {
        var all := HasAllLetters(letters, w);
        if all == -1 {
          wordList[i] := None;
        }
      }
      if letter.Some? && wordList[i].Some? {
        if HasSingleLetter(letter.value, wordList[i].value) == -1 {
          wordList[i] := None;
        }
      }
      HasSingleLetterSpec(if letter.Some? then letter.value else "", w);
      i := i + 1;
    }
    assert wordList[..] == Marked(words, letters, letter);
  }

  /** A list without NULL entries is its own list of values. */
  lemma {:induction false} PresentAll(xs: seq<Option<string>>)
    requires forall i :: 0 <= i < |xs| ==> xs[i].Some?
    ensures |Present(xs)| == |xs|
    ensures forall i :: 0 <= i < |xs| ==> xs[i] == Some(Present(xs)[i])
  {
    if xs != [] {
      PresentAll(xs[..|xs| - 1]);
    }
  }

  /** The compaction loop of sort_normal: copy the words left into a new list of the same size. */
  method Compact(wordList: array<Option<string>>) returns (sortedWords: array<Option<string>>, numWords: nat)
    ensures sortedWords.Length == wordList.Length
    ensures numWords == |Present(wordList[..])|
    ensures sortedWords[..numWords] == Somes(Present(wordList[..]))
    ensures forall i :: numWords <= i < sortedWords.Length ==> sortedWords[i] == None
  {
    sortedWords := new Option<string>[wordList.Length](_ => None);
    numWords := 0;
    var k := 0;
    while k < wordList.Length
      invariant 0 <= numWords <= k <= wordList.Length
      invariant numWords == |Present(wordList[..k])|
      invariant sortedWords[..numWords] == Somes(Present(wordList[..k]))
      invariant forall i :: numWords <= i < sortedWords.Length ==> sortedWords[i] == None
    {
      assert wordList[..k + 1][..k] == wordList[..k];
      if wordList[k].Some? {
        sortedWords[numWords] := wordList[k];
        numWords := numWords + 1;
      }
      k := k + 1;
    }
    assert wordList[..k] == wordList[..];
  }

  /**
   * sort_normal over the dictionary `words`: the kept words, in dictionary
   * order, at the front of a list as long as the dictionary, and their number.
   */
  method SortNormal(words: seq<string>, letters: string, letter: Option<string>)
    returns (sortedWords: array<Option<string>>, numWords: nat)
    ensures sortedWords.Length == |words|
    ensures numWords == |Kept(words, letters, letter)|
    ensures sortedWords[..numWords] == Somes(Kept(words, letters, letter))
    ensures forall i :: numWords <= i < sortedWords.Length ==> sortedWords[i] == None
  {
    var wordList := new Option<string>[|words|](i requires 0 <= i < |words| => Some(words[i]));
    assert wordList[..] == Somes(words);
    PresentSomes(words);
    FilterWords(wordList, letters, letter);
    sortedWords, numWords := Compact(wordList);
  }

  lemma {:induction false} PresentSomes(ws: seq<string>)
    ensures Present(Somes(ws)) == ws
  {
    if ws != [] {
      PresentSomes(ws[..|ws| - 1]);
      assert Somes(ws)[..|ws| - 1] == Somes(ws[..|ws| - 1]);
    }
  }

  lemma {:induction false} PresentMembers(xs: seq<Option<string>>, w: string)
    ensures w in Present(xs) <==> Some(w) in xs
  {
    if xs != [] {
      PresentMembers(xs[..|xs| - 1], w);
      assert xs == xs[..|xs| - 1] + [xs[|xs| - 1]];
    }
  }

  lemma {:induction false} PresentAppend(xs: seq<Option<string>>, ys: seq<Option<string>>)
    ensures Present(xs + ys) == Present(xs) + Present(ys)
    decreases |ys|
  {
    if ys == [] {
      assert xs + ys == xs;
    } else {
      var n := |ys| - 1;
      PresentAppend(xs, ys[..n]);
      assert (xs + ys)[..|xs + ys| - 1] == xs + ys[..n];
    }
  }

  lemma {:induction false} PresentNone(xs: seq<Option<string>>)
    requires forall k :: 0 <= k < |xs| ==> xs[k].None?
    ensures Present(xs) == []
  {
    if xs != [] {
      PresentNone(xs[..|xs| - 1]);
    }
  }

  /** The first entry that is not NULL is the first word. */
  lemma PresentFirst(xs: seq<Option<string>>, i: nat)
    requires i < |xs| && xs[i].Some? && forall k :: 0 <= k < i ==> xs[k].None?
    ensures Present(xs) != [] && Present(xs)[0] == xs[i].value
  {
    var front, pre, rest := xs[..i], xs[..i + 1], xs[i + 1..];
    PresentNone(front);
    assert pre[..i] == front;
    assert Present(pre) == [xs[i].value];
    assert xs == pre + rest;
    PresentAppend(pre, rest);
  }

  /** sort_normal keeps exactly the dictionary words that pass every test. */
  lemma KeptSpec(words: seq<string>, letters: string, letter: Option<string>, w: string)
    ensures w in Kept(words, letters, letter) <==> w in words && Keep(letters, letter, w)
  {
    PresentMembers(Marked(words, letters, letter), w);
    if w in words && Keep(letters, letter, w) {
      var i :| 0 <= i < |words| && words[i] == w;
      assert Marked(words, letters, letter)[i] == Some(w);
    }
  }

  /** When every word passes, the dictionary comes back whole and in order. */
  lemma KeptAll(words: seq<string>, letters: string, letter: Option<string>)
    requires forall i :: 0 <= i < |words| ==> Keep(letters, letter, words[i])
    ensures Kept(words, letters, letter) == words
  {
    assert Marked(words, letters, letter) == Somes(words);
    PresentSomes(words);
  }

  /** A word longer than the letters is never kept, whatever it is made of. */
  lemma TooLongDropped(words: seq<string>, letters: string, letter: Option<string>, w: string)
    requires |w| > |letters|
    ensures w !in Kept(words, letters, letter)
  {
    KeptSpec(words, letters, letter, w);
  }
}
