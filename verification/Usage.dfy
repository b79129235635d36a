/** Token usage as providers report it (mergeUsage, internal/exec/rawstream.go). */
module Usage {

  datatype Counts = Counts(input: int, output: int, cacheRead: int, cacheWrite: int,
                           cacheWrite5m: int, cacheWrite1h: int, reasoning: int)

  const ZERO: Counts := Counts(0, 0, 0, 0, 0, 0, 0)

  /** A later positive count replaces an earlier one; a later zero never does. */
  function Later(before: int, now: int): int {
    if now > 0 then now else before
  }

  function Merge(dst: Counts, u: Counts): Counts {
    Counts(Later(dst.input, u.input), Later(dst.output, u.output),
           Later(dst.cacheRead, u.cacheRead), Later(dst.cacheWrite, u.cacheWrite),
           Later(dst.cacheWrite5m, u.cacheWrite5m), Later(dst.cacheWrite1h, u.cacheWrite1h),
           Later(dst.reasoning, u.reasoning))
  }

  function MergeAll(us: seq<Counts>): Counts {
    if us == [] then ZERO else Merge(MergeAll(us[..|us| - 1]), us[|us| - 1])
  }

  /** The last positive report of one count, whichever field it is. */
  function LastPositive(xs: seq<int>): int {
    if xs == [] then 0
    else if xs[|xs| - 1] > 0 then xs[|xs| - 1]
    else LastPositive(xs[..|xs| - 1])
  }

  function Project(us: seq<Counts>, f: Counts -> int): (xs: seq<int>)
    ensures |xs| == |us|
    ensures forall i | 0 <= i < |us| :: xs[i] == f(us[i])
  {
    seq(|us|, i requires 0 <= i < |us| => f(us[i]))
  }

  /** Usage split over several events merges to the last positive report of each
      count on its own: no event erases what another established. */
  lemma {:induction false} MergeKeepsLastPositive(us: seq<Counts>)
    ensures MergeAll(us) == Counts(
              LastPositive(Project(us, (u: Counts) => u.input)),
              LastPositive(Project(us, (u: Counts) => u.output)),
              LastPositive(Project(us, (u: Counts) => u.cacheRead)),
              LastPositive(Project(us, (u: Counts) => u.cacheWrite)),
              LastPositive(Project(us, (u: Counts) => u.cacheWrite5m)),
              LastPositive(Project(us, (u: Counts) => u.cacheWrite1h)),
              LastPositive(Project(us, (u: Counts) => u.reasoning)))
  {
    if us != [] {
      var init := us[..|us| - 1];
      MergeKeepsLastPositive(init);
      forall f: Counts -> int
        ensures Project(us, f)[..|us| - 1] == Project(init, f)
      {
      }
    }
  }
}
