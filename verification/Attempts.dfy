/** One upstream attempt and its books: attempt, demoteLastAttempt, applyUsage and
    priceRecord of internal/exec/exec.go, with AttemptCtx.recordHealth and served
    of internal/exec/surface.go. The upstream and the surface in front of it are
    an adversarial script. */
module Attempts {
  import opened Options
  import opened Health
  import Usage

  // --------------------------------------------------------- the script

  /** What a surface does with a 2xx, in any order and number. */
  datatype Act =
    | Report(usage: Usage.Counts)  // applyUsage
    | Write(size: nat)             // a body write; an empty one reaches no client
    | WriteHeader
    | Serve                        // ac.served

  /** How it ends: with a plain return (and an error to show or none), or through reclassifyStream or failedParse,
      which both signal the breaker before returning. */
  datatype Ending = Returned(outcome: Outcome) | Reclassified(outcome: Outcome) | Unparsed(outcome: Outcome)

  datatype Script =
    | Unsent(outcome: Outcome)
    | Rejected(outcome: Outcome, status: int, retryAfter: Option<int>)
    | Body(status: int, retryAfter: Option<int>, acts: seq<Act>, ending: Ending, err: bool, limited: bool, shutdown: bool)

  predicate Reaches(a: Act) {
    a.WriteHeader? || (a.Write? && a.size > 0)
  }

  predicate Commits(acts: seq<Act>) {
    exists a | a in acts :: Reaches(a)
  }

  lemma CommitsSnoc(acts: seq<Act>, a: Act)
    ensures Commits(acts + [a]) <==> Commits(acts) || Reaches(a)
  {
    assert a in acts + [a] && forall b | b in acts :: b in acts + [a];
  }

  /** The two signalling tails belong to failures before commit. */
  predicate WellFormed(s: Script) {
    match s
    case Unsent(o) => !o.Success?
    case Rejected(o, _, _) => !o.Success?
    case Body(_, _, acts, ending, _, _, _) => ending.Returned? || (!Commits(acts) && !ending.outcome.Success?)
  }

  type Upstream = s: Script | WellFormed(s) witness Unsent(Fatal)

  /** The usage the attempt reported: the last report, or nothing. */
  function LastReport(acts: seq<Act>): Option<Usage.Counts> {
    if acts == [] then None
    else if acts[|acts| - 1].Report? then Some(acts[|acts| - 1].usage)
    else LastReport(acts[..|acts| - 1])
  }

  function Reported(s: Script): Option<Usage.Counts> {
    if s.Body? then LastReport(s.acts) else None
  }

  function Burned(s: Script): Usage.Counts {
    if Reported(s).Some? then Reported(s).value else Usage.ZERO
  }

  /** The status a failure read from a 2xx body stands for. */
  function BodyStatus(s: Script, o: Outcome): int
    requires s.Body?
  {
    if o.RetryableProvider? && s.err && s.limited then 429 else s.status
  }

  /** The failure a script ends in, commit or no commit. */
  function Verdict(s: Script): Outcome {
    match s
    case Unsent(o) => o
    case Rejected(o, _, _) => o
    case Body(_, _, _, ending, _, _, _) => ending.outcome
  }

  /** The one thing the breaker is to hear of the attempt. */
  function SignalOf(s: Script): Signal {
    match s
    case Unsent(o) => Signal(if o.Fatal? then ClientCancelled else o, 0, None)
    case Rejected(o, status, wait) => Signal(o, status, wait)
    case Body(status, wait, acts, ending, _, _, _) =>
      var o := ending.outcome;
      var early := !ending.Returned? || (Commits(acts) && !o.Success?);
      Signal(o, if early then BodyStatus(s, o) else status, wait)
  }

  datatype Result = Result(outcome: Outcome, status: int, err: bool, committed: bool, clientGone: bool, issued: bool,
                           passthrough: bool)

  /** What the loop is told. A failure after commit ends the chain as a success. */
  function ResultOf(s: Script, passthrough: bool): Result {
    match s
    case Unsent(o) => Result(o, 0, true, false, false, false, passthrough)
    case Rejected(o, status, _) => Result(o, status, true, false, false, true, passthrough)
    case Body(status, _, acts, ending, err, _, shutdown) =>
      var o := ending.outcome;
      if Commits(acts) && !o.Success? then
        Result(Success, status, false, true, o.ClientCancelled? && !shutdown, true, passthrough)
      else Result(o, BodyStatus(s, o), err, Commits(acts), false, true, passthrough)
  }

  // ---------------------------------------------------------- the record

  datatype Row = Row(cand: nat, outcome: Outcome, tokensIn: int, tokensOut: int)

  /** Breaker calls, in order: asks and their answers, the start of a retry that
      asks nothing, probes given back, outcomes recorded. */
  datatype FleetOp =
    | Asked(key: Key, ok: bool)
    | Again(key: Key)
    | Freed(key: Key)
    | Recorded(key: Key, signal: Signal)

  /** The probes a surface gives back, one for each time it says it serves. */
  function Frees(k: Key, acts: seq<Act>): seq<FleetOp> {
    if acts == [] then []
    else Frees(k, acts[..|acts| - 1]) + (if acts[|acts| - 1].Serve? then [Freed(k)] else [])
  }

  /** An attempt's breaker calls: probes given back, then its one outcome. */
  function AttemptLog(k: Key, s: Script): seq<FleetOp> {
    (if s.Body? then Frees(k, s.acts) else []) + [Recorded(k, SignalOf(s))]
  }

  /** What reached the client: a write by attempt row n, or an error body. */
  datatype ToClient = From(row: nat) | ErrorBody

  datatype SkipReason = NoAdapter | Cooling | TargetFailed
  datatype Skip = Skip(cand: nat, reason: SkipReason)

  predicate FiveZero(c: Usage.Counts) {
    c.input == 0 && c.output == 0 && c.cacheRead == 0 && c.cacheWrite == 0 && c.reasoning == 0
  }

  function ClearFive(c: Usage.Counts): Usage.Counts {
    c.(input := 0, output := 0, cacheRead := 0, cacheWrite := 0, reasoning := 0)
  }

  /** A script run for a candidate. */
  datatype Try = Try(cand: nat, script: Upstream)

  /** The row an attempt leaves: a failure carries what it burned, a success
      nothing yet. */
  function RowOf(t: Try): Row {
    var o := ResultOf(t.script, false).outcome;
    if o.Success? then Row(t.cand, Success, 0, 0)
    else Row(t.cand, o, Burned(t.script).input, Burned(t.script).output)
  }

  /** What an attempt leaves on the request's record: what it reported, or what was
      there; less the five counts moved to its row if it failed. */
  function TokensAfter(before: Usage.Counts, s: Script): Usage.Counts {
    var now := if Reported(s).Some? then Reported(s).value else before;
    if ResultOf(s, false).outcome.Success? then now else ClearFive(now)
  }

  class Request {
    var attempts: seq<Row>
    var tokens: Usage.Counts
    var skips: seq<Skip>
    var healthDone: bool
    ghost var tried: seq<Try>  // tried[n]: what attempt row n is of
    ghost var log: seq<FleetOp>
    ghost var client: seq<ToClient>

    constructor ()
      ensures attempts == [] && tried == [] && skips == [] && log == [] && client == []
      ensures tokens == Usage.ZERO
    {
      attempts, tried, skips, log, client := [], [], [], [], [];
      tokens, healthDone := Usage.ZERO, false;
    }

    /** recordHealth: the first caller wins. */
    method RecordHealth(k: Key, s: Signal)
      modifies this`healthDone, this`log
      ensures healthDone
      ensures log == if old(healthDone) then old(log) else old(log) + [Recorded(k, s)]
    {
      if healthDone { return; }
      healthDone := true;
      log := log + [Recorded(k, s)];
    }

    method DemoteLastAttempt(outcome: Outcome, committed: bool)
      modifies this`attempts, this`tokens
      ensures committed || outcome.Success? || old(attempts) == [] ==> attempts == old(attempts) && tokens == old(tokens)
      ensures !(committed || outcome.Success? || old(attempts) == []) ==>
                var n := |old(attempts)| - 1;
                var a := old(attempts)[n];
                if a.tokensIn != 0 || a.tokensOut != 0 || FiveZero(old(tokens)) then
                  attempts == old(attempts)[n := a.(outcome := outcome)] && tokens == old(tokens)
                else
                  attempts == old(attempts)[n := Row(a.cand, outcome, old(tokens).input, old(tokens).output)]
                  && tokens == ClearFive(old(tokens))
    {
      if committed || outcome.Success? { return; }
      var n := |attempts|;
      if n == 0 { return; }
      var a := attempts[n - 1].(outcome := outcome);
      attempts := attempts[n - 1 := a];
      if a.tokensIn != 0 || a.tokensOut != 0 { return; }
      if FiveZero(tokens) { return; }
      attempts := attempts[n - 1 := a.(tokensIn := tokens.input, tokensOut := tokens.output)];
      tokens := ClearFive(tokens);
    }

    /** Whatever the script: one row, one signal, and the usage either on the row
        of a failure or on the record of the attempt that served. */
    method Attempt(i: nat, k: Key, s: Upstream, passthrough: bool) returns (res: Result)
      requires FiveZero(tokens)
      modifies this
      ensures res == ResultOf(s, passthrough)
      ensures attempts == old(attempts) + [RowOf(Try(i, s))] && tried == old(tried) + [Try(i, s)]
      ensures skips == old(skips)
      ensures tokens == TokensAfter(old(tokens), s)
      ensures log == old(log) + AttemptLog(k, s)
      ensures old(client) <= client && (client == old(client) <==> !res.committed)
      ensures forall j | |old(client)| <= j < |client| :: client[j] == From(|old(attempts)|)
    {
      healthDone := false;
      tried := tried + [Try(i, s)];
      if !s.Body? {
        attempts := attempts + [Row(i, s.outcome, 0, 0)];
        res := Result(s.outcome, if s.Rejected? then s.status else 0, true, false, false, s.Rejected?, passthrough);
        var heard := if s.outcome.Fatal? && !res.issued then ClientCancelled else s.outcome;
        RecordHealth(k, Signal(heard, res.status, if s.Rejected? then s.retryAfter else None));
        return;
      }
      res := AttemptBody(i, k, s, passthrough);
    }

    /** The attempt once the provider has answered 2xx: everything now depends on
        whether the surface wrote to the client. */
    method AttemptBody(i: nat, k: Key, s: Upstream, passthrough: bool) returns (res: Result)
      requires s.Body? && FiveZero(tokens) && !healthDone
      modifies this`attempts, this`tokens, this`healthDone, this`log, this`client
      ensures res == ResultOf(s, passthrough)
      ensures attempts == old(attempts) + [RowOf(Try(i, s))]
      ensures tokens == TokensAfter(old(tokens), s)
      ensures log == old(log) + AttemptLog(k, s)
      ensures old(client) <= client && (client == old(client) <==> !res.committed)
      ensures forall j | |old(client)| <= j < |client| :: client[j] == From(|old(attempts)|)
    {
      assert WellFormed(s);
      hide Commits, LastReport, Frees;
      attempts := attempts + [Row(i, Success, 0, 0)];
      var committed := Respond(k, s.acts);
      var o := s.ending.outcome;
      match s.ending {
        case Returned(_) =>
        case Reclassified(_) =>
          RecordHealth(k, Signal(o, BodyStatus(s, o), s.retryAfter));
          DemoteLastAttempt(o, false);
        case Unparsed(_) =>
          attempts := attempts[|attempts| - 1 := attempts[|attempts| - 1].(outcome := o)];
          RecordHealth(k, Signal(o, BodyStatus(s, o), s.retryAfter));
      }
      DemoteLastAttempt(o, committed);
      if committed && !o.Success? {
        RecordHealth(k, Signal(o, BodyStatus(s, o), s.retryAfter));
        res := Result(Success, s.status, false, true, o.ClientCancelled? && !s.shutdown, true, passthrough);
        RecordHealth(k, Signal(Success, s.status, s.retryAfter));
      } else {
        res := Result(o, BodyStatus(s, o), s.err, committed, false, true, passthrough);
        RecordHealth(k, Signal(o, s.status, s.retryAfter));
      }
    }

    /** The surface's acts on the response, up to its return. */
    method Respond(k: Key, acts: seq<Act>) returns (committed: bool)
      requires attempts != []
      modifies this`tokens, this`log, this`client
      ensures committed == Commits(acts)
      ensures tokens == if LastReport(acts).Some? then LastReport(acts).value else old(tokens)
      ensures log == old(log) + Frees(k, acts)
      ensures old(client) <= client && (client == old(client) <==> !committed)
      ensures forall j | |old(client)| <= j < |client| :: client[j] == From(|attempts| - 1)
    {
      committed := false;
      var i := 0;
      assert acts[..0] == [];
      while i < |acts|
        invariant 0 <= i <= |acts|
        invariant committed == Commits(acts[..i])
        invariant tokens == if LastReport(acts[..i]).Some? then LastReport(acts[..i]).value else old(tokens)
        invariant log == old(log) + Frees(k, acts[..i])
        invariant old(client) <= client && (client == old(client) <==> !committed)
        invariant forall j | |old(client)| <= j < |client| :: client[j] == From(|attempts| - 1)
      {
        assert acts[..i + 1] == acts[..i] + [acts[i]];
        CommitsSnoc(acts[..i], acts[i]);
        match acts[i] {
          case Report(u) => tokens := u;
          case Serve => log := log + [Freed(k)];
          case Write(n) =>
            if n > 0 {
              committed := true;
              client := client + [From(|attempts| - 1)];
            }
          case WriteHeader =>
            committed := true;
            client := client + [From(|attempts| - 1)];
        }
        i := i + 1;
      }
      assert acts[..i] == acts;
    }

    /** priceRecord's attribution: the record's usage belongs to the one row that
        succeeded and has none of its own. */
    method AttributeServed()
      modifies this`attempts
      ensures |attempts| == |old(attempts)|
      ensures forall n | 0 <= n < |attempts| ::
                var a := old(attempts)[n];
                !a.outcome.Success? || a.tokensIn != 0 || a.tokensOut != 0 ==> attempts[n] == a
      ensures forall n | 0 <= n < |attempts| ::
                var a := old(attempts)[n];
                attempts[n] == if FirstServed(old(attempts), n)
                               then a.(tokensIn := tokens.input, tokensOut := tokens.output) else a
    {
      var i := 0;
      while i < |attempts|
        invariant 0 <= i <= |attempts| && attempts == old(attempts)
        invariant forall j | 0 <= j < i :: !Unattributed(attempts[j])
      {
        if Unattributed(attempts[i]) {
          attempts := attempts[i := attempts[i].(tokensIn := tokens.input, tokensOut := tokens.output)];
          return;
        }
        i := i + 1;
      }
    }
  }

  predicate Unattributed(a: Row) {
    a.outcome.Success? && a.tokensIn == 0 && a.tokensOut == 0
  }

  predicate FirstServed(rows: seq<Row>, n: int)
    requires 0 <= n < |rows|
  {
    Unattributed(rows[n]) && forall j | 0 <= j < n :: !Unattributed(rows[j])
  }

  // --------------------------------------------------- what a script means

  /** Something of the response reached the client. */
  ghost predicate Touched(s: Script) {
    s.Body? && exists i | 0 <= i < |s.acts| :: s.acts[i].WriteHeader? || (s.acts[i].Write? && s.acts[i].size > 0)
  }

  lemma TouchedIs(s: Script)
    requires s.Body?
    ensures Commits(s.acts) <==> Touched(s)
  {
    if Commits(s.acts) {
      var a :| a in s.acts && Reaches(a);
      var i :| 0 <= i < |s.acts| && s.acts[i] == a;
    } else if Touched(s) {
      var i :| 0 <= i < |s.acts| && (s.acts[i].WriteHeader? || (s.acts[i].Write? && s.acts[i].size > 0));
      assert s.acts[i] in s.acts && Reaches(s.acts[i]);
    }
  }

  /** The loop is told a success if the response reached the client or ended as one, and
      else the outcome the attempt ended in; of the status the provider gave, but 429 for
      a rate limit read from the body; and that the provider was called unless nothing
      was sent. There is an error to show for every failure but one of a surface that
      has none, or one that comes after the client was reached. */
  lemma ResultMeans(s: Upstream, passthrough: bool)
    ensures var r := ResultOf(s, passthrough);
            && (r.outcome.Success? <==> s.Body? && (Touched(s) || s.ending.outcome.Success?))
            && (!r.outcome.Success? ==> r.outcome == if s.Body? then s.ending.outcome else s.outcome)
            && (r.issued <==> !s.Unsent?) && (r.committed <==> Touched(s)) && r.passthrough == passthrough
            && (s.Unsent? ==> r.status == 0 && r.err) && (s.Rejected? ==> r.status == s.status && r.err)
            && (s.Body? && !r.outcome.Success? ==>
                  && r.err == s.err
                  && r.status == if s.ending.outcome.RetryableProvider? && s.err && s.limited then 429 else s.status)
            && (s.Body? && Touched(s) && !s.ending.outcome.Success? ==> !r.err)
            && (r.clientGone <==> Touched(s) && s.ending.outcome.ClientCancelled? && !s.shutdown)
  {
    if s.Body? { TouchedIs(s); }
  }

  /** The breaker is told the outcome the attempt ended in, with the provider's wait; a
      refusal to render before anything was sent it hears as a cancellation. */
  lemma SignalMeans(s: Upstream)
    ensures var g := SignalOf(s);
            var limited := s.Body? && s.ending.outcome.RetryableProvider? && s.err && s.limited;
            && (s.Unsent? ==> g.retryAfter == None && g.status == 0
                              && g.outcome == if s.outcome.Fatal? then ClientCancelled else s.outcome)
            && (s.Rejected? ==> g == Signal(s.outcome, s.status, s.retryAfter))
            && (s.Body? ==> g.outcome == s.ending.outcome && g.retryAfter == s.retryAfter)
            && (s.Body? ==>
                  g.status == if limited && (Touched(s) || !s.ending.Returned?) then 429 else s.status)
  {
    if s.Body? { TouchedIs(s); }
  }

  /** Act i reports u, and none after it reports. */
  ghost predicate LastAt(acts: seq<Act>, i: int, u: Usage.Counts) {
    0 <= i < |acts| && acts[i] == Report(u) && forall j | i < j < |acts| :: !acts[j].Report?
  }

  /** What counts as reported is the last report there was. */
  lemma {:induction false} LastReportIs(acts: seq<Act>)
    ensures LastReport(acts).None? ==> forall i | 0 <= i < |acts| :: !acts[i].Report?
    ensures LastReport(acts).Some? ==> exists i :: LastAt(acts, i, LastReport(acts).value)
  {
    if acts != [] {
      var n := |acts| - 1;
      if acts[n].Report? {
        assert LastAt(acts, n, acts[n].usage);
      } else {
        var init := acts[..n];
        LastReportIs(init);
        if LastReport(acts).Some? {
          var i :| LastAt(init, i, LastReport(init).value);
          assert LastAt(acts, i, LastReport(acts).value);
        }
      }
    }
  }

  /** A surface that says it serves gives the probes back, and only it does. */
  lemma {:induction false} FreesIfServing(k: Key, acts: seq<Act>)
    ensures Frees(k, acts) != [] <==> Serve in acts
    ensures forall op | op in Frees(k, acts) :: op == Freed(k)
  {
    if acts != [] {
      FreesIfServing(k, acts[..|acts| - 1]);
      assert acts == acts[..|acts| - 1] + [acts[|acts| - 1]];
    }
  }

  // -------------------------------------------- what the breaker is told

  /** A response that fails after commit ends the chain as a success and is never
      signalled as one; the breaker hears the failure itself. */
  lemma FailureAfterCommitIsHeard(s: Upstream)
    requires s.Body? && Commits(s.acts) && !Verdict(s).Success?
    ensures ResultOf(s, false).outcome.Success? && SignalOf(s).outcome == Verdict(s)
  {
  }

  /** An attempt is signalled a success exactly when it ended as one. */
  lemma SuccessIsHeardExactly(s: Upstream)
    ensures SignalOf(s).outcome.Success? <==> Verdict(s).Success?
  {
  }

  /** A refusal to render, before anything was sent, leaves every ladder alone: the
      same keys, cooldowns, levels and counts, and at most two probes given back. */
  lemma FatalBeforeSendMovesNoLadder(m: Entries, k: Key, now: int, p: Policy)
    ensures var r := Record(m, k, SignalOf(Unsent(Fatal)), now, p);
            && Durable(r) == Durable(m)
            && forall e | e in m :: r[e] == m[e] || r[e] == m[e].(probing := false)
  {
  }

  /** Had it been signalled as the fatal outcome it is, it would have erased the
      ladder of any cooling model a client cared to name. */
  lemma FatalWouldErase(m: Entries, k: Key, now: int, p: Policy)
    requires k in m && k.model != ""
    ensures k !in Record(m, k, Signal(Fatal, 0, None), now, p)
  {
    assert k != k.Cred();
  }
}
