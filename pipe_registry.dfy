/**
 * The pipe registry of jobrunner (A3/parse.c): which jobs read from and write
 * to which '@'-named pipe, the list of distinct pipe names in order of first
 * reference, and the number of readers and writers of each pipe.
 */
module PipeRegistry {
  import opened Wrappers
  import opened Jobs

  /** The pipe a job reads from, if its input names one. */
  function InPipe(job: Job): Option<string> {
    if IsPipeName(job.takeFrom) then Some(job.takeFrom) else None
  }

  /** The pipe a job writes to, if its output names one. */
  function OutPipe(job: Job): Option<string> {
    if IsPipeName(job.sendTo) then Some(job.sendTo) else None
  }

  /** make_inout_arrs, input half: entry i names job i's input pipe, or is NULL. */
  function Ins(jobs: seq<Job>): (ins: seq<Option<string>>)
    ensures |ins| == |jobs|
    ensures forall i :: 0 <= i < |jobs| ==>
      (ins[i].Some? <==> IsPipeName(jobs[i].takeFrom)) && (ins[i].Some? ==> ins[i].value == jobs[i].takeFrom)
  {
    seq(|jobs|, i requires 0 <= i < |jobs| => InPipe(jobs[i]))
  }

  /** make_inout_arrs, output half: entry i names job i's output pipe, or is NULL. */
  function Outs(jobs: seq<Job>): (outs: seq<Option<string>>)
    ensures |outs| == |jobs|
    ensures forall i :: 0 <= i < |jobs| ==>
      (outs[i].Some? <==> IsPipeName(jobs[i].sendTo)) && (outs[i].Some? ==> outs[i].value == jobs[i].sendTo)
  {
    seq(|jobs|, i requires 0 <= i < |jobs| => OutPipe(jobs[i]))
  }

  function OptList(o: Option<string>): seq<string> {
    if o.Some? then [o.value] else []
  }

  /** Every pipe reference of the first n jobs, in job order, the input before the output. */
  function RefsUpTo(ins: seq<Option<string>>, outs: seq<Option<string>>, n: nat): seq<string>
    requires n <= |ins| && n <= |outs|
  {
    if n == 0 then [] else RefsUpTo(ins, outs, n - 1) + OptList(ins[n - 1]) + OptList(outs[n - 1])
  }

  function Refs(ins: seq<Option<string>>, outs: seq<Option<string>>): seq<string>
    requires |ins| == |outs|
  {
    RefsUpTo(ins, outs, |ins|)
  }

  /** A name is referenced when some job reads from it or writes to it. */
  predicate Referenced(ins: seq<Option<string>>, outs: seq<Option<string>>, p: string)
    requires |ins| == |outs|
  {
    exists i :: 0 <= i < |ins| && (ins[i] == Some(p) || outs[i] == Some(p))
  }

  lemma {:induction false} RefsUpToMembers(ins: seq<Option<string>>, outs: seq<Option<string>>, n: nat, p: string)
    requires n <= |ins| && n <= |outs|
    ensures p in RefsUpTo(ins, outs, n) <==> exists i :: 0 <= i < n && (ins[i] == Some(p) || outs[i] == Some(p))
  {
    if n > 0 {
      RefsUpToMembers(ins, outs, n - 1, p);
      var r := RefsUpTo(ins, outs, n - 1);
      assert p in r + OptList(ins[n - 1]) + OptList(outs[n - 1]) <==>
        p in r || ins[n - 1] == Some(p) || outs[n - 1] == Some(p);
    }
  }

  /** The list of pipe references holds exactly the referenced names. */
  lemma RefsMembers(ins: seq<Option<string>>, outs: seq<Option<string>>, p: string)
    requires |ins| == |outs|
    ensures p in Refs(ins, outs) <==> Referenced(ins, outs, p)
  {
    RefsUpToMembers(ins, outs, |ins|, p);
  }

  // ---------------------------------------------------------------------
  // De-duplication in order of first appearance

  /** The distinct elements of s, each at the place of its first occurrence. */
  function Dedup(s: seq<string>): seq<string> {
    if s == [] then []
    else
      var d := Dedup(s[..|s| - 1]);
      if s[|s| - 1] in d then d else d + [s[|s| - 1]]
  }

  predicate NoDuplicates(s: seq<string>) {
    forall i, j :: 0 <= i < j < |s| ==> s[i] != s[j]
  }

  /** The index of the first occurrence of x in s. */
  function FirstIndex(s: seq<string>, x: string): (r: nat)
    requires x in s
    ensures r < |s| && s[r] == x && x !in s[..r]
  {
    if s[0] == x then 0 else 1 + FirstIndex(s[1..], x)
  }

  lemma FirstIndexPrefix(s: seq<string>, k: nat, x: string)
    requires k <= |s| && x in s[..k]
    ensures FirstIndex(s, x) == FirstIndex(s[..k], x)
  {
    var r, r' := FirstIndex(s[..k], x), FirstIndex(s, x);
    assert s[..k][..r] == s[..r];
  }

  /**
   * The de-duplicated list holds every element of s exactly once, and lists
   * them in the order of their first occurrence in s.
   */
  lemma {:induction false} DedupSpec(s: seq<string>)
    ensures forall x :: x in Dedup(s) <==> x in s
    ensures NoDuplicates(Dedup(s))
    ensures forall i, j :: 0 <= i < j < |Dedup(s)| ==>
      FirstIndex(s, Dedup(s)[i]) < FirstIndex(s, Dedup(s)[j])
  {
    if s != [] {
      var n := |s| - 1;
      var init, last := s[..n], s[n];
      DedupSpec(init);
      assert s == init + [last];
      var d := Dedup(s);
      forall i, j | 0 <= i < j < |d|
        ensures FirstIndex(s, d[i]) < FirstIndex(s, d[j])
      {
        var di := Dedup(init);
        assert d[i] == di[i] && d[i] in init;
        FirstIndexPrefix(s, n, d[i]);
        if j < |di| {
          assert d[j] == di[j];
          FirstIndexPrefix(s, n, d[j]);
        } else {
          assert d[j] == last && last !in init;
          assert s[..n] == init;
        }
      }
    }
  }

  /**
   * get_pipes: collects every pipe reference (job by job, input before output)
   * into a list, then walks it, keeping each name that is still present and
   * erasing every later copy of it in place.
   */
  method GetPipes(ins: seq<Option<string>>, outs: seq<Option<string>>) returns (allPipes: seq<string>)
    requires |ins| == |outs|
    ensures allPipes == Dedup(Refs(ins, outs))
  {
    var refs := CollectRefs(ins, outs);
    allPipes := DedupInPlace(refs);
  }

  /** The first loop of get_pipes: every pipe reference, in job order. */
  method CollectRefs(ins: seq<Option<string>>, outs: seq<Option<string>>) returns (refs: seq<string>)
    requires |ins| == |outs|
    ensures refs == Refs(ins, outs)
  {
    refs := [];
    var i := 0;
    while i < |ins|
      invariant 0 <= i <= |ins|
      invariant refs == RefsUpTo(ins, outs, i)
    {
      if ins[i].Some? {
        refs := refs + [ins[i].value];
      }
      if outs[i].Some? {
        refs := refs + [outs[i].value];
      }
      i := i + 1;
    }
  }

  /**
   * The second loop of get_pipes: walks the list, keeps each entry that is
   * still present and erases every copy of it.
   */
  method DedupInPlace(refs: seq<string>) returns (allPipes: seq<string>)
    ensures allPipes == Dedup(refs)
  {
    var totPipes := |refs|;
    var pipeList := new Option<string>[totPipes](k requires 0 <= k < totPipes => Some(refs[k]));
    allPipes := [];
    var k := 0;
    while k < totPipes
      invariant 0 <= k <= totPipes
      invariant allPipes == Dedup(refs[..k])
      invariant forall l :: 0 <= l < totPipes ==>
        pipeList[l] == (if refs[l] in allPipes then None else Some(refs[l]))
    {
      assert refs[..k + 1][..k] == refs[..k];
      DedupSpec(refs[..k]);
      if pipeList[k].Some? {
        var name := pipeList[k].value;
        allPipes := allPipes + [name];
        EraseName(pipeList, name);
      }
      k := k + 1;
    }
    assert refs[..k] == refs;
  }

  /** The inner loop of get_pipes: every entry equal to name becomes NULL. */
  method EraseName(pipeList: array<Option<string>>, name: string)
    modifies pipeList
    ensures forall m :: 0 <= m < pipeList.Length ==>
      pipeList[m] == (if old(pipeList[m]) == Some(name) then None else old(pipeList[m]))
  {
    var l := 0;
    while l < pipeList.Length
      invariant 0 <= l <= pipeList.Length
      invariant forall m :: 0 <= m < l ==>
        pipeList[m] == (if old(pipeList[m]) == Some(name) then None else old(pipeList[m]))
      invariant forall m :: l <= m < pipeList.Length ==> pipeList[m] == old(pipeList[m])
    {
      if pipeList[l].Some? && pipeList[l].value == name {
        pipeList[l] := None;
      }
      l := l + 1;
    }
  }

  /**
   * get_pipes lists every referenced pipe name exactly once, and no other
   * name, in the order of first reference.
   */
  lemma GetPipesSpec(ins: seq<Option<string>>, outs: seq<Option<string>>)
    requires |ins| == |outs|
    ensures forall p :: p in Dedup(Refs(ins, outs)) <==> Referenced(ins, outs, p)
    ensures NoDuplicates(Dedup(Refs(ins, outs)))
  {
    DedupSpec(Refs(ins, outs));
    forall p ensures p in Dedup(Refs(ins, outs)) <==> Referenced(ins, outs, p) {
      RefsMembers(ins, outs, p);
    }
  }

  // ---------------------------------------------------------------------
  // Reader and writer counts

  /** The number of entries of xs that name p. */
  function CountRefs(xs: seq<Option<string>>, p: string): nat {
    if xs == [] then 0
    else CountRefs(xs[..|xs| - 1], p) + (if xs[|xs| - 1] == Some(p) then 1 else 0)
  }

  /** A pipe is valid when exactly one job reads from it and exactly one job writes to it. */
  predicate ValidPipe(ins: seq<Option<string>>, outs: seq<Option<string>>, p: string) {
    CountRefs(ins, p) == 1 && CountRefs(outs, p) == 1
  }

  lemma {:induction false} CountRefsZero(xs: seq<Option<string>>, p: string)
    ensures CountRefs(xs, p) == 0 <==> Some(p) !in xs
  {
    if xs != [] {
      CountRefsZero(xs[..|xs| - 1], p);
      assert xs == xs[..|xs| - 1] + [xs[|xs| - 1]];
    }
  }

  /** A count of one means a single entry names p. */
  lemma {:induction false} CountRefsOne(xs: seq<Option<string>>, p: string, i: nat)
    requires CountRefs(xs, p) == 1 && i < |xs| && xs[i] == Some(p)
    ensures forall j :: 0 <= j < |xs| && xs[j] == Some(p) ==> j == i
  {
    var n := |xs| - 1;
    if xs[n] == Some(p) {
      CountRefsZero(xs[..n], p);
      assert forall j :: 0 <= j < n ==> xs[j] == xs[..n][j];
    } else {
      assert xs[..n][i] == Some(p);
      CountRefsOne(xs[..n], p, i);
      assert forall j :: 0 <= j < n ==> xs[j] == xs[..n][j];
    }
  }

  lemma {:induction false} CountRefsUnique(xs: seq<Option<string>>, p: string, i: nat)
    requires i < |xs| && xs[i] == Some(p)
    requires forall j :: 0 <= j < |xs| && j != i ==> xs[j] != Some(p)
    ensures CountRefs(xs, p) == 1
  {
    var n := |xs| - 1;
    if i == n {
      CountRefsZero(xs[..n], p);
    } else {
      CountRefsUnique(xs[..n], p, i);
    }
  }

  /**
   * A job that both reads and writes a pipe no other job uses is its only
   * reader and its only writer, so the pipe counts as valid.
   */
  lemma SelfPipeIsValid(jobs: seq<Job>, i: nat)
    requires i < |jobs| && IsPipeName(jobs[i].takeFrom) && jobs[i].sendTo == jobs[i].takeFrom
    requires forall j :: 0 <= j < |jobs| && j != i ==>
      jobs[j].takeFrom != jobs[i].takeFrom && jobs[j].sendTo != jobs[i].takeFrom
    ensures ValidPipe(Ins(jobs), Outs(jobs), jobs[i].takeFrom)
  {
    CountRefsUnique(Ins(jobs), jobs[i].takeFrom, i);
    CountRefsUnique(Outs(jobs), jobs[i].takeFrom, i);
  }
}
