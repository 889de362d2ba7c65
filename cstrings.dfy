/**
 * Helpers shared by the jobrunner and intclient programs: counting a
 * NULL-terminated string array and testing a line for emptiness.
 * A NULL-terminated array of strings is a sequence of options whose NULL is None.
 */
module CStrings {
  import opened Wrappers
  import opened CType

  /**
   * count_args: the number of strings before the first NULL. The source walks
   * the array until it meets NULL, so the array must hold one.
   */
  function CountArgs(args: seq<Option<string>>): (count: nat)
    requires None in args
    ensures count < |args| && args[count] == None
    ensures forall i :: 0 <= i < count ==> args[i].Some?
  {
    if args[0] == None then 0 else 1 + CountArgs(args[1..])
  }

  /** The scan of is_empty from index i on: 0 at the first non-space character, 1 at the end. */
  function IsEmptyFrom(line: string, i: nat): int
    requires i <= |line|
    decreases |line| - i
  {
    if i == |line| then 1
    else if !IsSpace(line[i]) then 0
    else IsEmptyFrom(line, i + 1)
  }

  /** is_empty: 1 for an empty or all-whitespace line, 0 otherwise. */
  function IsEmpty(line: string): int {
    if |line| > 0 then IsEmptyFrom(line, 0) else 1
  }

  lemma {:induction false} IsEmptyFromSpec(line: string, i: nat)
    requires i <= |line|
    ensures IsEmptyFrom(line, i) == 0 || IsEmptyFrom(line, i) == 1
    ensures IsEmptyFrom(line, i) == 1 <==> forall k :: i <= k < |line| ==> IsSpace(line[k])
    decreases |line| - i
  {
    if i < |line| && IsSpace(line[i]) {
      IsEmptyFromSpec(line, i + 1);
    }
  }

  /** is_empty answers 1 exactly when every character is whitespace, the empty line included. */
  lemma IsEmptySpec(line: string)
    ensures IsEmpty(line) == 0 || IsEmpty(line) == 1
    ensures IsEmpty(line) == 1 <==> forall k :: 0 <= k < |line| ==> IsSpace(line[k])
  {
    IsEmptyFromSpec(line, 0);
  }
}
