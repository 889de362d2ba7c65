/**
 * The orderings of unjumble (A1/unjumble.c): the comparators handed to
 * qsort for -alpha and -len, a sort standing in for qsort, and the pruning
 * of -longest.
 */
module UnjumbleOrder {
  import opened Wrappers
  import opened CType
  import UnjumbleWords

  /**
   * The sign of a C string comparison: characters compared by code, and a
   * string that runs out first (meeting its terminator) comes first.
   */
  function Lex(a: string, b: string): (r: int)
    ensures r == -1 || r == 0 || r == 1
    decreases |a|
  {
    if |a| == 0 then (if |b| == 0 then 0 else -1)
    else if |b| == 0 then 1
    else if a[0] < b[0] then -1
    else if a[0] > b[0] then 1
    else Lex(a[1..], b[1..])
  }

  lemma {:induction false} LexZero(a: string, b: string)
    ensures Lex(a, b) == 0 <==> a == b
    decreases |a|
  {
    if |a| > 0 && |b| > 0 && a[0] == b[0] {
      LexZero(a[1..], b[1..]);
      if a[1..] == b[1..] {
        assert a == [a[0]] + a[1..] && b == [b[0]] + b[1..];
      }
    }
  }

  lemma {:induction false} LexAntisymmetric(a: string, b: string)
    ensures Lex(a, b) == -Lex(b, a)
    decreases |a|
  {
    if |a| > 0 && |b| > 0 && a[0] == b[0] {
      LexAntisymmetric(a[1..], b[1..]);
    }
  }

  lemma {:induction false} LexTransitive(a: string, b: string, c: string)
    requires Lex(a, b) <= 0 && Lex(b, c) <= 0
    ensures Lex(a, c) <= 0
    decreases |a|
  {
    if |a| > 0 && |b| > 0 && |c| > 0 && a[0] == b[0] && b[0] == c[0] {
      LexTransitive(a[1..], b[1..], c[1..]);
    }
  }

  /** The string in lower case, as strcasecmp sees it. */
  function Lowers(s: string): (l: string)
    ensures |l| == |s|
  {
    seq(|s|, i requires 0 <= i < |s| => ToLower(s[i]))
  }

  /** The sign of strcasecmp. */
  function StrCaseCmp(a: string, b: string): int {
    Lex(Lowers(a), Lowers(b))
  }

  /** The sign of strcmp. */
  function StrCmp(a: string, b: string): int {
    Lex(a, b)
  }

  /** cmp_alpha: case-insensitive order, ties broken by the case-sensitive one. */
  function CmpAlpha(a: string, b: string): int {
    var result := StrCaseCmp(a, b);
    if result == 0 then
      var compareValue := StrCmp(a, b);
      if compareValue > 0 then 1 else if compareValue < 0 then -1 else 0
    else result
  }

  /** cmp_len: longer words first, words of equal length by cmp_alpha. */
  function CmpLen(a: string, b: string): int {
    if |a| > |b| then -1 else if |a| < |b| then 1 else CmpAlpha(a, b)
  }

  /** cmp_alpha is 0 only for identical strings, and swapping its arguments flips its sign. */
  lemma CmpAlphaSpec(a: string, b: string)
    ensures CmpAlpha(a, b) == 0 <==> a == b
    ensures CmpAlpha(a, b) == -CmpAlpha(b, a)
    ensures StrCaseCmp(a, b) != 0 ==> CmpAlpha(a, b) == StrCaseCmp(a, b)
  {
    LexZero(a, b);
    LexAntisymmetric(a, b);
    LexAntisymmetric(Lowers(a), Lowers(b));
    LexZero(Lowers(a), Lowers(b));
  }

  lemma CmpAlphaTransitive(a: string, b: string, c: string)
    requires CmpAlpha(a, b) <= 0 && CmpAlpha(b, c) <= 0
    ensures CmpAlpha(a, c) <= 0
  {
    var la, lb, lc := Lowers(a), Lowers(b), Lowers(c);
    LexZero(la, lb);
    LexZero(lb, lc);
    LexZero(la, lc);
    LexTransitive(la, lb, lc);
    if Lex(la, lc) == 0 {
      assert la == lc;
      LexAntisymmetric(la, lb);
      LexTransitive(a, b, c);
    }
  }

  /** cmp_len is 0 only for identical strings, flips sign with its arguments, and puts longer words first. */
  lemma CmpLenSpec(a: string, b: string)
    ensures CmpLen(a, b) == 0 <==> a == b
    ensures CmpLen(a, b) == -CmpLen(b, a)
    ensures CmpLen(a, b) <= 0 ==> |a| >= |b|
    ensures |a| == |b| ==> CmpLen(a, b) == CmpAlpha(a, b)
  {
    CmpAlphaSpec(a, b);
  }

  lemma CmpLenTransitive(a: string, b: string, c: string)
    requires CmpLen(a, b) <= 0 && CmpLen(b, c) <= 0
    ensures CmpLen(a, c) <= 0
  {
    if |a| == |b| == |c| {
      CmpAlphaTransitive(a, b, c);
    }
  }

  /** The comparator main hands to qsort: cmp_len for -len and -longest, cmp_alpha for -alpha. */
  function Cmp(byLen: bool, a: string, b: string): int {
    if byLen then CmpLen(a, b) else CmpAlpha(a, b)
  }

  lemma CmpFlip(byLen: bool, a: string, b: string)
    ensures Cmp(byLen, a, b) == -Cmp(byLen, b, a)
  {
    CmpLenSpec(a, b);
    CmpAlphaSpec(a, b);
  }

  lemma CmpTransitive(byLen: bool, a: string, b: string, c: string)
    requires Cmp(byLen, a, b) <= 0 && Cmp(byLen, b, c) <= 0
    ensures Cmp(byLen, a, c) <= 0
  {
    if byLen {
      CmpLenTransitive(a, b, c);
    } else {
      CmpAlphaTransitive(a, b, c);
    }
  }

  predicate AllPresent(s: seq<Option<string>>) {
    forall i :: 0 <= i < |s| ==> s[i].Some?
  }

  predicate Sorted(s: seq<Option<string>>, byLen: bool) {
    AllPresent(s) && forall i, j :: 0 <= i < j < |s| ==> Cmp(byLen, s[i].value, s[j].value) <= 0
  }

  /** qsort over the words: ordered by the comparator and a permutation of what it was given. */
  method SortWords(a: array<Option<string>>, byLen: bool)
    requires AllPresent(a[..])
    modifies a
    ensures Sorted(a[..], byLen)
    ensures multiset(a[..]) == multiset(old(a[..]))
  {
    var i := 0;
    while i < a.Length
      invariant 0 <= i <= a.Length
      invariant AllPresent(a[..])
      invariant Sorted(a[..i], byLen)
      invariant multiset(a[..]) == multiset(old(a[..]))
    {
      InsertLast(a, i, byLen);
      i := i + 1;
    }
    assert a[..i] == a[..];
  }

  /** Insertion of a[i] into the sorted prefix a[..i]. */
  method InsertLast(a: array<Option<string>>, i: nat, byLen: bool)
    requires i < a.Length && AllPresent(a[..]) && Sorted(a[..i], byLen)
    modifies a
    ensures AllPresent(a[..]) && Sorted(a[..i + 1], byLen)
    ensures multiset(a[..]) == multiset(old(a[..]))
  {
    var j := i;
    while j > 0 && Cmp(byLen, a[j - 1].value, a[j].value) > 0
      invariant 0 <= j <= i
      invariant AllPresent(a[..])
      invariant multiset(a[..]) == multiset(old(a[..]))
      invariant Inserting(a[..], i, j, byLen)
    {
      ghost var s := a[..];
      a[j - 1], a[j] := a[j], a[j - 1];
      assert a[..] == s[j - 1 := s[j]][j := s[j - 1]];
      SwapStep(s, i, j, byLen);
      SwapPermutes(s, j);
      j := j - 1;
    }
    InsertDone(a[..], i, j, byLen);
  }

  /** Insertion in progress: a[..i + 1] is sorted but for the element at j, which is no greater than those after it. */
  predicate Inserting(s: seq<Option<string>>, i: nat, j: nat, byLen: bool)
    requires j <= i < |s| && AllPresent(s)
  {
    (forall p, q :: 0 <= p < q <= i && p != j && q != j ==> Cmp(byLen, s[p].value, s[q].value) <= 0) &&
    (forall q :: j < q <= i ==> Cmp(byLen, s[j].value, s[q].value) <= 0)
  }

  lemma SwapStep(s: seq<Option<string>>, i: nat, j: nat, byLen: bool)
    requires 0 < j <= i < |s| && AllPresent(s) && Inserting(s, i, j, byLen)
    requires Cmp(byLen, s[j - 1].value, s[j].value) > 0
    ensures AllPresent(s[j - 1 := s[j]][j := s[j - 1]])
    ensures Inserting(s[j - 1 := s[j]][j := s[j - 1]], i, j - 1, byLen)
  {
    CmpFlip(byLen, s[j - 1].value, s[j].value);
    var t := s[j - 1 := s[j]][j := s[j - 1]];
    forall q | j - 1 < q <= i
      ensures Cmp(byLen, t[j - 1].value, t[q].value) <= 0
    {
    }
  }

  lemma SwapPermutes(s: seq<Option<string>>, j: nat)
    requires 0 < j < |s|
    ensures multiset(s[j - 1 := s[j]][j := s[j - 1]]) == multiset(s)
  {
  }

  lemma InsertDone(s: seq<Option<string>>, i: nat, j: nat, byLen: bool)
    requires j <= i < |s| && AllPresent(s) && Inserting(s, i, j, byLen)
    requires j == 0 || Cmp(byLen, s[j - 1].value, s[j].value) <= 0
    ensures Sorted(s[..i + 1], byLen)
  {
    forall p, q | 0 <= p < q <= i
      ensures Cmp(byLen, s[p].value, s[q].value) <= 0
    {
      if q == j && p < j - 1 {
        CmpTransitive(byLen, s[p].value, s[j - 1].value, s[j].value);
      }
    }
  }

  // ---------------------------------------------------------------------
  // cmp_longest

  /** The length of the longest word, 0 for none. */
  function MaxLen(ws: seq<string>): (m: nat)
    ensures forall w :: w in ws ==> |w| <= m
    ensures ws != [] ==> exists w :: w in ws && |w| == m
    ensures ws == [] ==> m == 0
  {
    if ws == [] then 0
    else
      var m := MaxLen(ws[..|ws| - 1]);
      assert forall w :: w in ws ==> w in ws[..|ws| - 1] || w == ws[|ws| - 1];
      if |ws[|ws| - 1]| > m then |ws[|ws| - 1]| else m
  }

  /** Lists holding the same words have the same longest length. */
  lemma MaxLenSameWords(s: seq<string>, t: seq<string>)
    requires forall w :: w in s <==> w in t
    ensures MaxLen(s) == MaxLen(t)
  {
  }

  /** How often a word should survive -longest: as often as given if it is a longest one, else never. */
  function LongestCount(ws: seq<string>, w: string): nat {
    if |w| == MaxLen(ws) then multiset(ws)[w] else 0
  }

  /** The second loop of cmp_longest: every word shorter than maxLength becomes NULL. */
  function Pruned(s: seq<Option<string>>, maxLength: nat): (r: seq<Option<string>>)
    ensures |r| == |s|
  {
    seq(|s|, i requires 0 <= i < |s| => if s[i].Some? && |s[i].value| < maxLength then None else s[i])
  }

  lemma {:induction false} PrunedCount(s: seq<Option<string>>, maxLength: nat, w: string)
    ensures multiset(Pruned(s, maxLength))[Some(w)] == if |w| < maxLength then 0 else multiset(s)[Some(w)]
  {
    if s != [] {
      var n := |s| - 1;
      PrunedCount(s[..n], maxLength, w);
      assert s == s[..n] + [s[n]];
      assert Pruned(s, maxLength) == Pruned(s[..n], maxLength) + [Pruned(s, maxLength)[n]];
    }
  }

  /** The non-NULL entries, as a multiset of words. */
  lemma {:induction false} PresentCount(xs: seq<Option<string>>, w: string)
    ensures multiset(UnjumbleWords.Present(xs))[w] == multiset(xs)[Some(w)]
  {
    if xs != [] {
      var n := |xs| - 1;
      var init, last := xs[..n], xs[n];
      PresentCount(init, w);
      assert xs == init + [last];
      assert multiset(xs) == multiset(init) + multiset{last};
      var tail := if last.Some? then [last.value] else [];
      assert UnjumbleWords.Present(xs) == UnjumbleWords.Present(init) + tail;
      assert multiset(UnjumbleWords.Present(xs)) == multiset(UnjumbleWords.Present(init)) + multiset(tail);
    }
  }

  /**
   * cmp_longest: sort by cmp_len, then NULL every word shorter than the
   * first. What is left is exactly the words of the greatest length, each as
   * often as it was given, first in the list and in cmp_alpha order.
   */
  method CmpLongest(sortedWords: array<Option<string>>)
    requires AllPresent(sortedWords[..])
    modifies sortedWords
    ensures forall w :: multiset(UnjumbleWords.Present(sortedWords[..]))[w] == LongestCount(UnjumbleWords.Present(old(sortedWords[..])), w)
    ensures forall i, j :: 0 <= i < j < sortedWords.Length && sortedWords[j].Some? ==>
      sortedWords[i].Some? && CmpAlpha(sortedWords[i].value, sortedWords[j].value) <= 0
  {
    SortWords(sortedWords, true);
    ghost var sorted := sortedWords[..];
    var maxLength := FirstLength(sortedWords);
    LongestFirst(sorted, maxLength);
    PruneShorter(sortedWords, maxLength);
    LongestCounts(old(sortedWords[..]), sorted, maxLength);
    PrunedOrder(sorted, maxLength);
  }

  /** The length of the first word, 0 for none. */
  function FirstLen(ws: seq<string>): nat {
    if ws == [] then 0 else |ws[0]|
  }

  /** The first loop of cmp_longest: the length of the first entry that is not NULL, 0 if there is none. */
  method FirstLength(sortedWords: array<Option<string>>) returns (maxLength: nat)
    ensures maxLength == FirstLen(UnjumbleWords.Present(sortedWords[..]))
  {
    maxLength := 0;
    var i := 0;
    while i < sortedWords.Length
      invariant 0 <= i <= sortedWords.Length
      invariant forall k :: 0 <= k < i ==> sortedWords[k].None?
    {
      if sortedWords[i].Some? {
        maxLength := |sortedWords[i].value|;
        UnjumbleWords.PresentFirst(sortedWords[..], i);
        return;
      }
      i := i + 1;
    }
    UnjumbleWords.PresentNone(sortedWords[..]);
  }

  /** The second loop of cmp_longest: NULL every word shorter than maxLength. */
  method PruneShorter(sortedWords: array<Option<string>>, maxLength: nat)
    modifies sortedWords
    ensures sortedWords[..] == Pruned(old(sortedWords[..]), maxLength)
  {
    ghost var sorted := sortedWords[..];
    var j := 0;
    while j < sortedWords.Length
      invariant 0 <= j <= sortedWords.Length
      invariant sortedWords[..j] == Pruned(sorted, maxLength)[..j]
      invariant sortedWords[j..] == sorted[j..]
    {
      assert sortedWords[j] == sorted[j] by { assert sortedWords[j..][0] == sorted[j..][0]; }
      if sortedWords[j].Some? {
        if |sortedWords[j].value| < maxLength {
          sortedWords[j] := None;
        }
      }
      assert sortedWords[..j + 1] == sortedWords[..j] + [sortedWords[j]];
      assert Pruned(sorted, maxLength)[..j + 1] == Pruned(sorted, maxLength)[..j] + [Pruned(sorted, maxLength)[j]];
      assert sortedWords[j + 1..] == sortedWords[j..][1..];
      j := j + 1;
    }
    assert sortedWords[..] == sortedWords[..j];
  }

  /** In a list sorted by cmp_len the first word is a longest one. */
  lemma LongestFirst(sorted: seq<Option<string>>, maxLength: nat)
    requires Sorted(sorted, true)
    requires maxLength == FirstLen(UnjumbleWords.Present(sorted))
    ensures maxLength == MaxLen(UnjumbleWords.Present(sorted))
  {
    UnjumbleWords.PresentAll(sorted);
    var ws := UnjumbleWords.Present(sorted);
    forall k | 0 <= k < |ws|
      ensures |ws[k]| <= maxLength
    {
      if k > 0 {
        CmpLenSpec(sorted[0].value, sorted[k].value);
      }
    }
    if sorted != [] {
      assert ws[0] == sorted[0].value;
    }
  }

  lemma LongestCounts(given: seq<Option<string>>, sorted: seq<Option<string>>, maxLength: nat)
    requires AllPresent(given) && multiset(sorted) == multiset(given)
    requires maxLength == MaxLen(UnjumbleWords.Present(sorted))
    ensures forall w :: multiset(UnjumbleWords.Present(Pruned(sorted, maxLength)))[w] == LongestCount(UnjumbleWords.Present(given), w)
  {
    forall w | true
      ensures multiset(UnjumbleWords.Present(sorted))[w] == multiset(UnjumbleWords.Present(given))[w]
    {
      PresentCount(sorted, w);
      PresentCount(given, w);
    }
    forall w | true
      ensures w in UnjumbleWords.Present(sorted) <==> w in UnjumbleWords.Present(given)
    {
      assert w in UnjumbleWords.Present(sorted) <==> w in multiset(UnjumbleWords.Present(sorted));
      assert w in UnjumbleWords.Present(given) <==> w in multiset(UnjumbleWords.Present(given));
    }
    MaxLenSameWords(UnjumbleWords.Present(sorted), UnjumbleWords.Present(given));
    forall w | true
      ensures multiset(UnjumbleWords.Present(Pruned(sorted, maxLength)))[w] ==
        if |w| == maxLength then multiset(UnjumbleWords.Present(given))[w] else 0
    {
      PresentCount(Pruned(sorted, maxLength), w);
      PrunedCount(sorted, maxLength, w);
      PresentCount(sorted, w);
      if |w| > maxLength {
        assert w !in UnjumbleWords.Present(sorted);
      }
    }
  }

  /** After pruning a list sorted by cmp_len, the words left come first and in cmp_alpha order. */
  lemma PrunedOrder(sorted: seq<Option<string>>, maxLength: nat)
    requires Sorted(sorted, true)
    requires maxLength == MaxLen(UnjumbleWords.Present(sorted))
    ensures forall i, j :: 0 <= i < j < |sorted| && Pruned(sorted, maxLength)[j].Some? ==>
      Pruned(sorted, maxLength)[i].Some? && CmpAlpha(Pruned(sorted, maxLength)[i].value, Pruned(sorted, maxLength)[j].value) <= 0
  {
    UnjumbleWords.PresentAll(sorted);
    var p := Pruned(sorted, maxLength);
    forall i, j | 0 <= i < j < |sorted| && p[j].Some?
      ensures p[i].Some? && CmpAlpha(p[i].value, p[j].value) <= 0
    {
      CmpLenSpec(sorted[i].value, sorted[j].value);
      assert sorted[i].value in UnjumbleWords.Present(sorted);
    }
  }
}
