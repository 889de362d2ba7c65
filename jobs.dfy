/** The records of the jobrunner program (A3/parse.h) and its exit conditions. */
module Jobs {

  const STDIN := 0
  const STDOUT := 1
  const STDERR := 2

  /** inOutClose: the descriptors for stdin and stdout, and the other pipe end to close (-1: none). */
  datatype FdSlots = FdSlots(input: int, output: int, toClose: int)

  /**
   * One job. A program, where its input comes from and its output goes to
   * ("-" for the runner's own stream, "@name" for a pipe, otherwise a file),
   * the timeout in seconds (0 for none, -1 once the abort signal was sent),
   * whether it may run, its descriptor slots, its process id (-1 before fork),
   * whether its exit was observed, and the extra program arguments.
   */
  datatype Job = Job(
    program: string,
    takeFrom: string,
    sendTo: string,
    runningTime: int,
    enabled: bool,
    inOutClose: FdSlots,
    jobPid: int,
    terminated: bool,
    opArgs: seq<string>)

  /** The program stops: its exit status and the line it writes to stderr. */
  datatype Exit = Exit(status: int, message: string)

  /** A name that refers to a pipe starts with '@'. */
  predicate IsPipeName(s: string) {
    |s| > 0 && s[0] == '@'
  }

  /** The number of jobs in js that may run. */
  function CountEnabled(js: seq<Job>): (n: nat)
    ensures n <= |js|
  {
    if js == [] then 0
    else CountEnabled(js[..|js| - 1]) + (if js[|js| - 1].enabled then 1 else 0)
  }

  lemma {:induction false} CountEnabledZero(js: seq<Job>)
    ensures CountEnabled(js) == 0 <==> forall i :: 0 <= i < |js| ==> !js[i].enabled
  {
    if js != [] {
      CountEnabledZero(js[..|js| - 1]);
    }
  }
}
