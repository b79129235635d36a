/** The attempt loop: runAttempts of internal/exec/exec.go with nextIndex,
    skipTarget and advanceSkips of internal/exec/advance.go. */
module AttemptLoop {
  import opened Options
  import opened Health
  import opened Attempts
  import Usage
  import HealthRuns

  datatype Candidate = Candidate(provider: string, cred: string, model: string, kind: string)
  {
    function HealthKey(): Key {
      Key(provider, cred, model)
    }
  }

  // -------------------------------------------------------- advancing

  datatype Advance = Finish | Return | Next

  predicate SameTarget(a: Candidate, b: Candidate) {
    a.provider == b.provider && a.model == b.model
  }

  /** skipTarget: past exactly the adjacent run of i's provider and model. */
  method SkipTarget(cands: seq<Candidate>, i: nat) returns (j: nat)
    requires i < |cands|
    ensures i < j <= |cands|
    ensures forall x | i < x < j :: SameTarget(cands[x], cands[i])
    ensures j < |cands| ==> !SameTarget(cands[j], cands[i])
  {
    var c := cands[i];
    j := i + 1;
    while j < |cands| && cands[j].provider == c.provider && cands[j].model == c.model
      invariant i < j <= |cands|
      invariant forall x | i < x < j :: SameTarget(cands[x], cands[i])
    {
      j := j + 1;
    }
  }

  /** nextIndex: one step, except past a target that is down. */
  method NextIndex(cands: seq<Candidate>, i: nat, o: Outcome, status: int) returns (next: nat, act: Advance)
    requires i < |cands|
    ensures act == match o
                   case Success => Finish
                   case Fatal => Return
                   case ClientCancelled => Return
                   case _ => Next
    ensures act.Next? ==> i < next <= |cands|
    ensures act.Next? && !(o.RetryableProvider? && status != 429) ==> next == i + 1
    ensures act.Next? ==> forall x | i < x < next :: SameTarget(cands[x], cands[i])
    ensures act.Next? ==> forall x | i < x < next ::
              cands[x].provider == cands[i].provider && cands[x].model == cands[i].model
    ensures act.Next? && o.RetryableProvider? && status != 429 && next < |cands| ==>
              cands[next].provider != cands[i].provider || cands[next].model != cands[i].model
    ensures act.Next? && o.RetryableProvider? && status != 429 && next < |cands| ==> !SameTarget(cands[next], cands[i])
  {
    match o {
      case Success => return i, Finish;
      case Fatal => return i, Return;
      case ClientCancelled => return i, Return;
      case RetryableCredential => return i + 1, Next;
      case RetryableModel => return i + 1, Next;
      case RetryableProvider =>
        if status == 429 { return i + 1, Next; }
        next := SkipTarget(cands, i);
        return next, Next;
    }
  }

  // ------------------------------------------------------ the breaker log

  /** A request's breaker calls read as one attempt at a time. */
  datatype Phase = Quiet | Running(key: Key) | Bad

  function StepPhase(p: Phase, op: FleetOp): Phase {
    match op
    case Asked(k, ok) => if p.Quiet? then (if ok then Running(k) else Quiet) else Bad
    case Again(k) => if p.Quiet? then Running(k) else Bad
    case Freed(k) => if p == Running(k) then p else Bad
    case Recorded(k, _) => if p == Running(k) then Quiet else Bad
  }

  function Scan(log: seq<FleetOp>): Phase {
    if log == [] then Quiet else StepPhase(Scan(log[..|log| - 1]), log[|log| - 1])
  }

  lemma ScanSnoc(log: seq<FleetOp>, op: FleetOp)
    ensures Scan(log + [op]) == StepPhase(Scan(log), op)
  {
    assert (log + [op])[..|log|] == log;
  }

  lemma {:induction false} ScanFrees(log: seq<FleetOp>, k: Key, acts: seq<Act>)
    requires Scan(log) == Running(k)
    ensures Scan(log + Frees(k, acts)) == Running(k)
  {
    if acts == [] {
      assert log + [] == log;
    } else {
      var init := Frees(k, acts[..|acts| - 1]);
      ScanFrees(log, k, acts[..|acts| - 1]);
      ScanSnoc(log + init, Freed(k));
      assert log + (init + [Freed(k)]) == log + init + [Freed(k)];
      assert init + [] == init;
    }
  }

  /** An attempt's calls leave the request with nothing open. */
  lemma ScanAttempt(log: seq<FleetOp>, k: Key, s: Script)
    requires Scan(log) == Running(k)
    ensures Scan(log + AttemptLog(k, s)) == Quiet
  {
    hide Scan, Frees;
    var frees := if s.Body? then Frees(k, s.acts) else [];
    if s.Body? { ScanFrees(log, k, s.acts); } else { assert log + [] == log; }
    ScanSnoc(log + frees, Recorded(k, SignalOf(s)));
    assert log + (frees + [Recorded(k, SignalOf(s))]) == log + frees + [Recorded(k, SignalOf(s))];
  }

  // ---------------------------------------------------------- the books

  /** What the tries leave on the record, one after another. */
  function Left(tried: seq<Try>): Usage.Counts {
    if tried == [] then Usage.ZERO
    else TokensAfter(Left(tried[..|tried| - 1]), tried[|tried| - 1].script)
  }

  /** Each row is of its own try, the record is what they leave, and none served up
      to n. */
  ghost predicate Failures(r: Request, n: nat)
    reads r
  {
    && |r.tried| == |r.attempts| && n <= |r.attempts| && r.tokens == Left(r.tried)
    && (forall j | 0 <= j < |r.attempts| :: r.attempts[j] == RowOf(r.tried[j]))
    && forall j | 0 <= j < n :: !r.attempts[j].outcome.Success?
  }

  /** No attempt served: each row carries its own burn, the record none, and the
      client got exactly `body`. */
  ghost predicate FailedWith(r: Request, body: seq<ToClient>)
    reads r
  {
    Failures(r, |r.attempts|) && FiveZero(r.tokens) && r.client == body
  }

  /** The last attempt served, the others failed: the client has only its bytes. */
  ghost predicate Served(r: Request)
    reads r
  {
    && |r.attempts| > 0 && Failures(r, |r.attempts| - 1)
    && var last := |r.attempts| - 1;
       && r.attempts[last].outcome.Success?
       && forall c | c in r.client :: c == From(last)
  }

  /** How many attempts reached a provider. */
  function Issued(tried: seq<Try>): nat {
    if tried == [] then 0
    else Plus(Issued(tried[..|tried| - 1]), ResultOf(tried[|tried| - 1].script, false))
  }

  function Plus(n: nat, res: Result): nat {
    if res.issued then n + 1 else n
  }

  /** How many of the tries called a provider: all but those that sent nothing. */
  function CallsMade(tried: seq<Try>): nat {
    if tried == [] then 0
    else CallsMade(tried[..|tried| - 1]) + (if tried[|tried| - 1].script.Unsent? then 0 else 1)
  }

  lemma {:induction false} IssuedIsCallsMade(tried: seq<Try>)
    ensures Issued(tried) == CallsMade(tried)
  {
    if tried != [] { IssuedIsCallsMade(tried[..|tried| - 1]); }
  }

  /** Some attempt had an error to show. */
  ghost predicate Erred(tried: seq<Try>) {
    exists t | t in tried :: ResultOf(t.script, false).err
  }

  lemma TriedSnoc(tried: seq<Try>, t: Try, passthrough: bool)
    ensures Issued(tried + [t]) == Plus(Issued(tried), ResultOf(t.script, passthrough))
    ensures Left(tried + [t]) == TokensAfter(Left(tried), t.script)
    ensures Erred(tried + [t]) <==> Erred(tried) || ResultOf(t.script, passthrough).err
  {
    assert (tried + [t])[..|tried|] == tried;
    assert t in tried + [t] && forall u | u in tried :: u in tried + [t];
  }

  // ------------------------------------------------------------ the loop

  /** Everything outside the loop's control. Each candidate is reached at most
      once, so its index names the occasion. */
  datatype Env = Env(maxAttempts: int, hasAdapter: nat -> bool, live: nat -> bool, canStart: nat -> bool,
                     canRetry: nat -> bool, shutDown: nat -> bool, forwards: nat -> bool,
                     first: nat -> Upstream, again: nat -> Upstream)

  /** What became of a candidate: tried, with the result that counted and whether
      that was the translated retry's; or passed over. */
  datatype Visit = Tried(res: Result, again: bool) | Passed(reason: SkipReason)

  function SkipsOf(visited: seq<Visit>): seq<Skip> {
    if visited == [] then []
    else
      var n := |visited| - 1;
      SkipsOf(visited[..n]) + (if visited[n].Passed? then [Skip(n, visited[n].reason)] else [])
  }

  function TriesOf(env: Env, visited: seq<Visit>): seq<Try> {
    if visited == [] then []
    else
      var n := |visited| - 1;
      TriesOf(env, visited[..n]) + TriesAt(env, n, visited[n])
  }

  function TriesAt(env: Env, n: nat, v: Visit): seq<Try> {
    if v.Passed? then []
    else [Try(n, env.first(n))] + (if v.again then [Try(n, env.again(n))] else [])
  }

  /** The breaker calls of one visit. */
  function LogAt(env: Env, k: Key, n: nat, v: Visit): seq<FleetOp> {
    if v == Passed(Cooling) then [Asked(k, false)]
    else if v.Passed? then []
    else [Asked(k, true)] + AttemptLog(k, env.first(n))
         + (if v.again then [Again(k)] + AttemptLog(k, env.again(n)) else [])
  }

  function LogOf(env: Env, cands: seq<Candidate>, visited: seq<Visit>): seq<FleetOp>
    requires |visited| <= |cands|
  {
    if visited == [] then []
    else
      var n := |visited| - 1;
      LogOf(env, cands, visited[..n]) + LogAt(env, cands[n].HealthKey(), n, visited[n])
  }

  lemma LogSnoc(env: Env, cands: seq<Candidate>, visited: seq<Visit>, v: Visit)
    requires |visited| < |cands|
    ensures LogOf(env, cands, visited + [v]) ==
            LogOf(env, cands, visited) + LogAt(env, cands[|visited|].HealthKey(), |visited|, v)
  {
    assert (visited + [v])[..|visited|] == visited;
  }

  lemma VisitIsQuiet(env: Env, log: seq<FleetOp>, k: Key, n: nat, v: Visit)
    requires Scan(log) == Quiet
    ensures Scan(log + LogAt(env, k, n, v)) == Quiet
  {
    hide Scan, AttemptLog;
    if v.Passed? {
      ScanSnoc(log, Asked(k, false));
      assert log + [] == log;
    } else {
      var l1 := log + [Asked(k, true)];
      ScanSnoc(log, Asked(k, true));
      ScanAttempt(l1, k, env.first(n));
      var l2 := l1 + AttemptLog(k, env.first(n));
      ScanSnoc(l2, Again(k));
      if v.again {
        var l3 := l2 + [Again(k)];
        ScanAttempt(l3, k, env.again(n));
        assert log + LogAt(env, k, n, v) == l3 + AttemptLog(k, env.again(n));
      } else {
        assert log + LogAt(env, k, n, v) == l2;
      }
    }
  }

  /** The breaker calls of a visit: none for a candidate without an adapter or jumped with
      its target; one refused ask for a cooling one; for a tried one the ask that was
      granted, then each attempt's outcome with no second ask between. All are on the
      candidate's own provider, credential and model. */
  lemma VisitLog(env: Env, c: Candidate, n: nat, v: Visit)
    ensures var k := Key(c.provider, c.cred, c.model);
            && (v == Passed(NoAdapter) || v == Passed(TargetFailed) ==> LogAt(env, c.HealthKey(), n, v) == [])
            && (v == Passed(Cooling) ==> LogAt(env, c.HealthKey(), n, v) == [Asked(k, false)])
            && (v.Tried? ==>
                  var first, again := AttemptLog(k, env.first(n)), AttemptLog(k, env.again(n));
                  LogAt(env, c.HealthKey(), n, v) ==
                  if v.again then [Asked(k, true)] + first + ([Again(k)] + again) else [Asked(k, true)] + first)
  {
    assert v.Tried? && !v.again ==> [Asked(c.HealthKey(), true)] + AttemptLog(c.HealthKey(), env.first(n)) + []
                                    == [Asked(c.HealthKey(), true)] + AttemptLog(c.HealthKey(), env.first(n));
  }

  /** A candidate is jumped exactly if its neighbour before it is of the same provider and
      model and was jumped, or was tried and is down. */
  lemma JumpMeans(env: Env, cands: seq<Candidate>, visited: seq<Visit>, j: nat)
    requires j < |visited| <= |cands| && VisitOk(env, cands, visited, j)
    ensures visited[j] == Passed(TargetFailed) <==>
            && j > 0 && cands[j].provider == cands[j - 1].provider && cands[j].model == cands[j - 1].model
            && (visited[j - 1] == Passed(TargetFailed) || Down(visited[j - 1]))
  {
  }

  /** Whatever became of the candidates, the request asks, gives back and records one
      attempt at a time, and ends with none open. */
  lemma {:induction false} LogIsQuiet(env: Env, cands: seq<Candidate>, visited: seq<Visit>)
    requires |visited| <= |cands|
    ensures Scan(LogOf(env, cands, visited)) == Quiet
    decreases |visited|
  {
    hide LogAt;
    if visited != [] {
      var n := |visited| - 1;
      LogIsQuiet(env, cands, visited[..n]);
      VisitIsQuiet(env, LogOf(env, cands, visited[..n]), cands[n].HealthKey(), n, visited[n]);
    }
  }

  lemma VisitsSnoc(env: Env, visited: seq<Visit>, v: Visit)
    ensures SkipsOf(visited + [v]) ==
            SkipsOf(visited) + (if v.Passed? then [Skip(|visited|, v.reason)] else [])
    ensures TriesOf(env, visited + [v]) == TriesOf(env, visited) + TriesAt(env, |visited|, v)
  {
    assert (visited + [v])[..|visited|] == visited;
  }

  /** The forwarded body was refused as malformed. */
  predicate Refuses(res: Result) {
    res.passthrough && !res.committed && res.outcome.Fatal? && res.status == 400
  }

  /** The target of a provider failure that is not a rate limit is down. */
  predicate Down(v: Visit) {
    v.Tried? && v.res.outcome.RetryableProvider? && v.res.status != 429
  }

  /** Whether candidate j is jumped as part of a target that is down. */
  predicate Jumped(cands: seq<Candidate>, visited: seq<Visit>, j: nat)
    requires j <= |visited| && j < |cands|
  {
    j > 0 && SameTarget(cands[j], cands[j - 1]) && (visited[j - 1] == Passed(TargetFailed) || Down(visited[j - 1]))
  }

  /** Candidate j was dealt with as the environment and its neighbours make it. */
  predicate VisitOk(env: Env, cands: seq<Candidate>, visited: seq<Visit>, j: nat)
    requires j < |visited| <= |cands|
  {
    if Jumped(cands, visited, j) then visited[j] == Passed(TargetFailed)
    else
      && env.canStart(j)
      && if !env.hasAdapter(j) then visited[j] == Passed(NoAdapter)
         else if !env.live(j) then visited[j] == Passed(Cooling)
         else visited[j].Tried? && TriedOk(env, j, visited[j])
  }

  /** The retry is made only of a refused forwarded body, and its result counts. */
  predicate TriedOk(env: Env, j: nat, v: Visit)
    requires v.Tried?
  {
    var one := ResultOf(env.first(j), env.forwards(j));
    if v.again then Refuses(one) && env.canRetry(j) && v.res == ResultOf(env.again(j), false) else v.res == one
  }

  /** A tried candidate's visit, read from the script that counted: the loop goes on if
      nothing of it reached the client and it ended in a retryable outcome; its target is
      down if that is a provider failure of no rate limit; and the translated script is
      run only if the forwarded one was refused as malformed. */
  lemma VisitMeans(env: Env, j: nat, v: Visit)
    requires v.Tried? && TriedOk(env, j, v)
    ensures var s := if v.again then env.again(j) else env.first(j);
            var o := if s.Body? then s.ending.outcome else s.outcome;
            var limited := if s.Rejected? then s.status == 429 else s.Body? && (s.status == 429 || (s.err && s.limited));
            && (Advances(v) <==> !Touched(s)
                                 && (o.RetryableCredential? || o.RetryableModel? || o.RetryableProvider?))
            && (Down(v) <==> !Touched(s) && o.RetryableProvider? && !limited)
            && (v.res.outcome.Success? <==> Touched(s) || o.Success?)
    ensures v.again ==>
              var s := env.first(j);
              && env.forwards(j) && !Touched(s) && !s.Unsent? && s.status == 400
              && (if s.Body? then s.ending.outcome else s.outcome).Fatal?
  {
    ResultMeans(env.first(j), env.forwards(j));
    ResultMeans(env.again(j), false);
    hide ResultOf;
  }

  /** The loop goes on after v. */
  predicate Advances(v: Visit) {
    v.Passed? || v.res.outcome.RetryableCredential? || v.res.outcome.RetryableModel? || v.res.outcome.RetryableProvider?
  }

  /** Where the run stands: everything up to |visited| is tried or skipped once, for
      its own reason. */
  ghost predicate Accounted(r: Request, env: Env, cands: seq<Candidate>, visited: seq<Visit>)
    reads r
  {
    && |visited| <= |cands| && r.skips == SkipsOf(visited) && r.tried == TriesOf(env, visited)
    && forall j | 0 <= j < |visited| :: VisitOk(env, cands, visited, j)
  }

  lemma VisitsGrow(env: Env, cands: seq<Candidate>, visited: seq<Visit>, v: Visit)
    requires |visited| < |cands|
    requires forall j | 0 <= j < |visited| :: VisitOk(env, cands, visited, j)
    requires VisitOk(env, cands, visited + [v], |visited|)
    ensures forall j | 0 <= j <= |visited| :: VisitOk(env, cands, visited + [v], j)
  {
    hide TriedOk, Down;
    var all := visited + [v];
    forall j | 0 <= j < |visited|
      ensures VisitOk(env, cands, all, j)
    {
      assert VisitOk(env, cands, visited, j);
      assert all[j] == visited[j] && (j > 0 ==> all[j - 1] == visited[j - 1]);
    }
  }

  /** A candidate passed over has exactly one skip, with its reason, and a tried one
      none. */
  lemma {:induction false} SkipsAreExact(visited: seq<Visit>, j: nat, reason: SkipReason)
    ensures multiset(SkipsOf(visited))[Skip(j, reason)] ==
            if j < |visited| && visited[j] == Passed(reason) then 1 else 0
  {
    if visited != [] {
      var n := |visited| - 1;
      SkipsAreExact(visited[..n], j, reason);
      assert SkipsOf(visited[..n]) + [] == SkipsOf(visited[..n]);
    }
  }

  /** A tried candidate's script is run, then the translated one if it was, and nothing
      of one passed over. */
  lemma {:induction false} TriesAreExact(env: Env, visited: seq<Visit>, j: nat)
    ensures TriesFor(TriesOf(env, visited), j) ==
            if j < |visited| && visited[j].Tried?
            then if visited[j].again then [Try(j, env.first(j)), Try(j, env.again(j))] else [Try(j, env.first(j))]
            else []
  {
    hide TriesFor;
    if visited == [] {
      NoTries(j);
    } else {
      var n := |visited| - 1;
      TriesAreExact(env, visited[..n], j);
      TriesForAppend(TriesOf(env, visited[..n]), TriesAt(env, n, visited[n]), j);
      TriesForVisit(env, n, visited[n], j);
    }
  }

  predicate SkipsClimb(skips: seq<Skip>, n: nat) {
    && (forall a | 0 <= a < |skips| :: skips[a].cand < n)
    && forall a, b | 0 <= a < b < |skips| :: skips[a].cand < skips[b].cand
  }

  predicate TriesClimb(tries: seq<Try>, n: nat) {
    && (forall a | 0 <= a < |tries| :: tries[a].cand < n)
    && forall a, b | 0 <= a < b < |tries| :: tries[a].cand <= tries[b].cand
  }

  /** Skips and tries are in the candidates' order. */
  lemma {:induction false} AccountIsInOrder(env: Env, visited: seq<Visit>)
    ensures SkipsClimb(SkipsOf(visited), |visited|)
    ensures TriesClimb(TriesOf(env, visited), |visited|)
  {
    if visited != [] {
      var n := |visited| - 1;
      var skips, tries := SkipsOf(visited[..n]), TriesOf(env, visited[..n]);
      AccountIsInOrder(env, visited[..n]);
      assert visited[n].Tried? ==> SkipsOf(visited) == skips;
      assert visited[n].Passed? ==> TriesOf(env, visited) == tries;
    }
  }

  lemma NoTries(j: nat)
    ensures TriesFor([], j) == []
  {
  }

  lemma TriesForVisit(env: Env, n: nat, v: Visit, j: nat)
    ensures TriesFor(TriesAt(env, n, v), j) == if n == j then TriesAt(env, n, v) else []
  {
    hide TriesFor;
    NoTries(j);
    if v.Tried? {
      var one, two := Try(n, env.first(n)), Try(n, env.again(n));
      TriesForOne(one, j);
      TriesForOne(two, j);
      TriesForAppend([one], [two], j);
      assert [one] + [] == [one];
    }
  }

  /** The tries of one candidate, in order. */
  function TriesFor(tried: seq<Try>, j: nat): seq<Try> {
    if tried == [] then []
    else TriesFor(tried[..|tried| - 1], j) + (if tried[|tried| - 1].cand == j then [tried[|tried| - 1]] else [])
  }

  lemma TriesForOne(t: Try, j: nat)
    ensures TriesFor([t], j) == if t.cand == j then [t] else []
  {
    assert [t][..0] == [];
  }

  lemma {:induction false} TriesForAppend(a: seq<Try>, b: seq<Try>, j: nat)
    ensures TriesFor(a + b, j) == TriesFor(a, j) + TriesFor(b, j)
    decreases |b|
  {
    if b == [] {
      assert a + b == a;
    } else {
      var n := |b| - 1;
      assert (a + b)[..|a + b| - 1] == a + b[..n] && (a + b)[|a + b| - 1] == b[n];
      TriesForAppend(a, b[..n], j);
    }
  }

  /** One attempt on candidate i, seen from the loop. */
  method TryOnce(r: Request, i: nat, k: Key, s: Upstream, forwards: bool) returns (res: Result)
    requires FailedWith(r, [])
    modifies r
    ensures res == ResultOf(s, forwards)
    ensures r.skips == old(r.skips) && r.log == old(r.log) + AttemptLog(k, s)
    ensures r.tried == old(r.tried) + [Try(i, s)]
    ensures if res.outcome.Success? then Served(r) else FailedWith(r, [])
  {
    hide AttemptLog, Left;
    TriedSnoc(r.tried, Try(i, s), forwards);
    res := r.Attempt(i, k, s, forwards);
  }

  /** Candidate i is attempted, and once more, translated, if it refused the
      forwarded body and there is an attempt and time left. */
  method TryBoth(r: Request, i: nat, k: Key, env: Env, issued: nat, failing: bool)
    returns (res: Result, count: nat, fails: bool, again: bool)
    requires FailedWith(r, [])
    requires issued < env.maxAttempts && issued == Issued(r.tried) && (failing <==> Erred(r.tried))
    modifies r
    ensures count <= env.maxAttempts && count == Issued(r.tried) && (fails <==> Erred(r.tried))
    ensures TriedOk(env, i, Tried(res, again)) && r.tried == old(r.tried) + TriesAt(env, i, Tried(res, again))
    ensures r.log == old(r.log) + LogAt(env, k, i, Tried(res, again))[1..]
    ensures !again ==> !Refuses(res) || count == env.maxAttempts || !env.canRetry(i)
    ensures r.skips == old(r.skips)
    ensures if res.outcome.Success? then Served(r) else FailedWith(r, [])
  {
    hide FailedWith, Served, Issued, Erred, Left, ResultOf, AttemptLog;
    TriedSnoc(r.tried, Try(i, env.first(i)), env.forwards(i));
    res := TryOnce(r, i, k, env.first(i), env.forwards(i));
    count, fails, again := Plus(issued, res), failing || res.err, false;
    if Refuses(res) && count < env.maxAttempts && env.canRetry(i) {
      LogOnly(r, Again(k));
      TriedSnoc(r.tried, Try(i, env.again(i)), false);
      res := TryOnce(r, i, k, env.again(i), false);
      count, fails, again := Plus(count, res), fails || res.err, true;
    }
  }

  method LogOnly(r: Request, op: FleetOp)
    modifies r`log
    ensures r.log == old(r.log) + [op]
    ensures forall body | old(FailedWith(r, body)) :: FailedWith(r, body)
  {
    r.log := r.log + [op];
  }

  /** Passes over candidate i. */
  method PassOver(r: Request, env: Env, cands: seq<Candidate>, i: nat, reason: SkipReason, ghost visited: seq<Visit>)
    returns (ghost after: seq<Visit>)
    requires Accounted(r, env, cands, visited) && |visited| == i < |cands|
    requires VisitOk(env, cands, visited + [Passed(reason)], i)
    modifies r`skips
    ensures after == visited + [Passed(reason)] && Accounted(r, env, cands, after)
    ensures forall body | old(FailedWith(r, body)) :: FailedWith(r, body)
  {
    hide VisitOk;
    VisitsSnoc(env, visited, Passed(reason));
    VisitsGrow(env, cands, visited, Passed(reason));
    r.skips := r.skips + [Skip(i, reason)];
    after := visited + [Passed(reason)];
  }

  /** advanceSkips: past candidate i, the rest of its target up to next. */
  method PassTarget(r: Request, env: Env, cands: seq<Candidate>, i: nat, next: nat, ghost visited: seq<Visit>)
    returns (ghost after: seq<Visit>)
    requires Accounted(r, env, cands, visited) && i + 1 == |visited| <= next <= |cands|
    requires next > i + 1 ==> Down(visited[i])
    requires forall j | i < j < next :: SameTarget(cands[j], cands[i])
    modifies r`skips
    ensures |after| == next && visited <= after && Accounted(r, env, cands, after)
    ensures forall j | i < j < next :: after[j] == Passed(TargetFailed)
    ensures LogOf(env, cands, after) == LogOf(env, cands, visited)
    ensures forall body | old(FailedWith(r, body)) :: FailedWith(r, body)
  {
    hide Accounted, LogOf;
    after := visited;
    var j := i + 1;
    while j < next
      invariant i < j <= next && |after| == j && visited <= after && Accounted(r, env, cands, after)
      invariant forall x | i < x < j :: after[x] == Passed(TargetFailed)
      invariant LogOf(env, cands, after) == LogOf(env, cands, visited)
      invariant forall body | old(FailedWith(r, body)) :: FailedWith(r, body)
    {
      LogSnoc(env, cands, after, Passed(TargetFailed));
      after := PassOver(r, env, cands, j, TargetFailed, after);
      j := j + 1;
    }
  }

  /** The live re-check: the last thing before the attempt, since a yes claims the
      half-open probe. */
  method Ask(r: Request, k: Key, ok: bool)
    modifies r`log
    ensures r.log == old(r.log) + [Asked(k, ok)]
    ensures forall body | old(FailedWith(r, body)) :: FailedWith(r, body)
  {
    LogOnly(r, Asked(k, ok));
  }

  method WriteError(r: Request)
    requires FailedWith(r, [])
    modifies r`client
    ensures FailedWith(r, [ErrorBody])
  {
    r.client := r.client + [ErrorBody];
  }

  /** How a run ends at a visit that does not advance. */
  ghost predicate Ended(r: Request, env: Env, visited: seq<Visit>, issued: nat)
    requires visited != [] && visited[|visited| - 1].Tried?
    reads r
  {
    var j := |visited| - 1;
    var v := visited[j];
    && (Refuses(v.res) && !v.again ==> issued == env.maxAttempts || !env.canRetry(j))
    && match v.res.outcome
       case Success => Served(r)
       case Fatal => FailedWith(r, if Erred(r.tried) then [ErrorBody] else [])
       case ClientCancelled => FailedWith(r, if Erred(r.tried) || env.shutDown(j) then [ErrorBody] else [])
       case _ => false
  }

  /** Candidate i, asked for and granted, is tried, and the account of it kept. */
  method Visited(r: Request, cands: seq<Candidate>, i: nat, env: Env, issued: nat, failing: bool,
                 ghost visited: seq<Visit>)
    returns (res: Result, count: nat, fails: bool, again: bool)
    requires |visited| == i < |cands| && Accounted(r, env, cands, visited) && !Jumped(cands, visited, i)
    requires env.canStart(i) && env.hasAdapter(i) && env.live(i)
    requires issued < env.maxAttempts && issued == Issued(r.tried) && (failing <==> Erred(r.tried))
    requires FailedWith(r, []) && r.log == LogOf(env, cands, visited) + [Asked(cands[i].HealthKey(), true)]
    modifies r
    ensures count <= env.maxAttempts && count == Issued(r.tried) && (fails <==> Erred(r.tried))
    ensures var after := visited + [Tried(res, again)];
            Accounted(r, env, cands, after) && r.log == LogOf(env, cands, after)
    ensures !again ==> !Refuses(res) || count == env.maxAttempts || !env.canRetry(i)
    ensures if res.outcome.Success? then Served(r) else FailedWith(r, [])
  {
    hide FailedWith, Served, Issued, Erred, TriedOk, AttemptLog, LogOf, LogAt;
    res, count, fails, again := TryBoth(r, i, cands[i].HealthKey(), env, issued, failing);
    ghost var v := Tried(res, again);
    LogSnoc(env, cands, visited, v);
    AskFirst(env, cands[i].HealthKey(), i, v);
    VisitsSnoc(env, visited, v);
    VisitsGrow(env, cands, visited, v);
  }

  /** Candidate i, asked for and granted, is tried and advanced from. */
  method Dispatch(r: Request, cands: seq<Candidate>, i: nat, env: Env, issued: nat, failing: bool,
                  ghost visited: seq<Visit>)
    returns (count: nat, next: nat, done: bool, fails: bool, ghost after: seq<Visit>)
    requires |visited| == i < |cands| && Accounted(r, env, cands, visited) && !Jumped(cands, visited, i)
    requires env.canStart(i) && env.hasAdapter(i) && env.live(i)
    requires issued < env.maxAttempts && issued == Issued(r.tried) && (failing <==> Erred(r.tried))
    requires FailedWith(r, []) && r.log == LogOf(env, cands, visited) + [Asked(cands[i].HealthKey(), true)]
    modifies r
    ensures count <= env.maxAttempts && count == Issued(r.tried)
    ensures |after| <= |cands| && r.log == LogOf(env, cands, after)
    ensures Accounted(r, env, cands, after) && i < |after| && visited <= after && after[i].Tried?
    ensures done ==> |after| == i + 1 && Ended(r, env, after, count)
    ensures !done ==> FailedWith(r, []) && |after| == next && (fails <==> Erred(r.tried))
    ensures !done ==> forall j | i <= j < next :: Advances(after[j])
    ensures !done && next < |cands| ==> !Jumped(cands, after, next)
  {
    var res, again;
    hide FailedWith, Served, Issued, Erred, TriedOk, LogOf, SkipsOf, TriesOf, VisitOk;
    res, count, fails, again := Visited(r, cands, i, env, issued, failing, visited);
    after := visited + [Tried(res, again)];
    var act;
    next, act := NextIndex(cands, i, res.outcome, res.status);
    done := true;
    match act {
      case Finish =>
      case Return =>
        if fails || (res.outcome.ClientCancelled? && env.shutDown(i)) { WriteError(r); }
      case Next =>
        after := PassTarget(r, env, cands, i, next, after);
        done := false;
    }
  }

  lemma AskFirst(env: Env, k: Key, n: nat, v: Visit)
    requires v.Tried?
    ensures LogAt(env, k, n, v) == [Asked(k, true)] + LogAt(env, k, n, v)[1..]
  {
  }

  /** Nothing the loop has yet done calls for stopping. */
  ghost predicate Going(r: Request, env: Env, cands: seq<Candidate>, visited: seq<Visit>)
    reads r
  {
    && Accounted(r, env, cands, visited) && FailedWith(r, []) && r.log == LogOf(env, cands, visited)
    && (forall j | 0 <= j < |visited| :: Advances(visited[j]))
    && (|visited| < |cands| ==> !Jumped(cands, visited, |visited|))
  }

  /** One turn of the loop: candidate i is skipped, or asked for and tried. */
  method Turn(r: Request, cands: seq<Candidate>, i: nat, env: Env, issued: nat, failing: bool,
              ghost visited: seq<Visit>)
    returns (count: nat, next: nat, done: bool, fails: bool, ghost after: seq<Visit>)
    requires |visited| == i < |cands| && Going(r, env, cands, visited) && env.canStart(i)
    requires issued < env.maxAttempts && issued == Issued(r.tried) && (failing <==> Erred(r.tried))
    modifies r
    ensures count <= env.maxAttempts && count == Issued(r.tried) && |visited| < |after|
    ensures done ==> Stopped(r, env, cands, after, count)
    ensures !done ==> Going(r, env, cands, after) && |after| == next && (fails <==> Erred(r.tried))
  {
    hide SkipsOf, TriesOf, FailedWith, Served, Issued, Erred, TriedOk, LogOf, AttemptLog;
    LogSnoc(env, cands, visited, Passed(NoAdapter));
    LogSnoc(env, cands, visited, Passed(Cooling));
    count, next, done, fails := issued, i + 1, false, failing;
    if !env.hasAdapter(i) {
      after := PassOver(r, env, cands, i, NoAdapter, visited);
      return;
    }
    var ok := env.live(i);
    Ask(r, cands[i].HealthKey(), ok);
    if !ok {
      after := PassOver(r, env, cands, i, Cooling, visited);
      return;
    }
    count, next, done, fails, after := Dispatch(r, cands, i, env, issued, failing, visited);
  }

  /** The run has ended at its last visit, which does not advance. */
  ghost predicate Stopped(r: Request, env: Env, cands: seq<Candidate>, visited: seq<Visit>, issued: nat)
    reads r
  {
    && Accounted(r, env, cands, visited) && r.log == LogOf(env, cands, visited)
    && visited != [] && visited[|visited| - 1].Tried? && Ended(r, env, visited, issued)
    && forall j | 0 <= j < |visited| - 1 :: Advances(visited[j])
  }

  /** Or it has run out of candidates, attempts or time. */
  ghost predicate Exhausted(r: Request, env: Env, cands: seq<Candidate>, visited: seq<Visit>, issued: nat)
    reads r
  {
    && Accounted(r, env, cands, visited) && r.log == LogOf(env, cands, visited) && FailedWith(r, [ErrorBody])
    && (forall j | 0 <= j < |visited| :: Advances(visited[j]))
    && (|visited| == |cands| || issued >= env.maxAttempts || !env.canStart(|visited|))
  }

  lemma EndsClosed(r: Request, env: Env, cands: seq<Candidate>, visited: seq<Visit>, issued: nat)
    requires Stopped(r, env, cands, visited, issued) || Exhausted(r, env, cands, visited, issued)
    ensures Closed(r)
  {
    hide Accounted, FailedWith, Served, LogOf;
  }

  /** runAttempts. `visited` says of every candidate up to where the run stopped what
      became of it: rows, skips and scripts are exactly those it calls for. The run
      stops at the first attempt that does not advance, or with an error when the
      candidates, the attempts or the time run out. */
  method RunAttempts(r: Request, cands: seq<Candidate>, env: Env) returns (issued: nat, ghost visited: seq<Visit>)
    requires r.attempts == [] && r.tried == [] && r.skips == [] && r.log == [] && r.client == []
    requires r.tokens == Usage.ZERO
    modifies r
    ensures issued == CallsMade(r.tried) && (issued == 0 || issued <= env.maxAttempts)
    ensures Stopped(r, env, cands, visited, issued) || Exhausted(r, env, cands, visited, issued)
    ensures Closed(r)
  {
    issued, visited := 0, [];
    var i, failing := 0, false;
    assert Going(r, env, cands, visited) && !Erred(r.tried);
    hide Going, Stopped, Closed, Issued, Erred;
    while i < |cands| && issued < env.maxAttempts && env.canStart(i)
      invariant |visited| == i <= |cands| && Going(r, env, cands, visited)
      invariant issued == Issued(r.tried) && (issued == 0 || issued <= env.maxAttempts) && (failing <==> Erred(r.tried))
      decreases |cands| - i
    {
      var done;
      issued, i, done, failing, visited := Turn(r, cands, i, env, issued, failing, visited);
      if done {
        IssuedIsCallsMade(r.tried);
        EndsClosed(r, env, cands, visited, issued);
        return;
      }
    }
    IssuedIsCallsMade(r.tried);
    GiveUp(r, env, cands, visited, issued);
    EndsClosed(r, env, cands, visited, issued);
  }

  method GiveUp(r: Request, env: Env, cands: seq<Candidate>, ghost visited: seq<Visit>, ghost issued: nat)
    requires Going(r, env, cands, visited)
    requires |visited| == |cands| || issued >= env.maxAttempts || !env.canStart(|visited|)
    modifies r`client
    ensures Exhausted(r, env, cands, visited, issued)
  {
    hide SkipsOf, TriesOf, VisitOk, FailedWith, LogOf;
    WriteError(r);
  }

  /** How every run ends for the client: one attempt's bytes, or one error, or,
      where a surface failed without an error to show, nothing; never two. */
  ghost predicate Closed(r: Request)
    reads r
  {
    Served(r) || FailedWith(r, [ErrorBody]) || FailedWith(r, [])
  }

  predicate Settled(row: Row, burn: Usage.Counts) {
    row.tokensIn == burn.input && row.tokensOut == burn.output
  }

  /** The finished request: after the served row is attributed, every row carries
      exactly what its own attempt reported. The record holds the served attempt's
      usage or no count that is priced, so the cache-write breakdown a failed
      attempt can leave behind is never priced. */
  method CloseBooks(r: Request)
    requires Closed(r)
    modifies r`attempts
    ensures |r.attempts| == |r.tried|
    ensures forall n | 0 <= n < |r.attempts| ::
              && Settled(r.attempts[n], Burned(r.tried[n].script))
              && r.attempts[n].cand == r.tried[n].cand
              && r.attempts[n].outcome == ResultOf(r.tried[n].script, false).outcome
    ensures r.tokens == Left(r.tried)
  {
    RecordIs(r);
    hide Left;
    r.AttributeServed();
  }

  lemma RecordIs(r: Request)
    ensures Served(r) ==> FiveZero(r.tokens) || r.tokens == Burned(r.tried[|r.tried| - 1].script)
    ensures Served(r) && FiveZero(r.tokens) ==> Settled(Row(0, Success, 0, 0), Burned(r.tried[|r.tried| - 1].script))
  {
    if Served(r) {
      var init := r.tried[..|r.tried| - 1];
      forall t | t in init
        ensures !ResultOf(t.script, false).outcome.Success?
      {
        var j :| 0 <= j < |init| && init[j] == t;
        assert r.attempts[j] == RowOf(r.tried[j]);
      }
      assert r.attempts[|r.tried| - 1] == RowOf(r.tried[|r.tried| - 1]);
      SevenCounts(r.tried);
    }
  }

  /** The last thing any of the tries reported. */
  function LastHeard(tried: seq<Try>): Usage.Counts {
    if tried == [] then Usage.ZERO
    else if Reported(tried[|tried| - 1].script).Some? then Reported(tried[|tried| - 1].script).value
    else LastHeard(tried[..|tried| - 1])
  }

  ghost predicate AllFail(tried: seq<Try>) {
    forall t | t in tried :: !ResultOf(t.script, false).outcome.Success?
  }

  /** Failed tries leave no count that is priced, but the cache-write breakdown of the
      last report stays. */
  lemma {:induction false} LeftOfFailures(tried: seq<Try>)
    requires AllFail(tried)
    ensures Left(tried) == ClearFive(LastHeard(tried))
  {
    if tried != [] {
      var init, last := tried[..|tried| - 1], tried[|tried| - 1];
      assert tried == init + [last];
      assert last in tried;
      LeftOfFailures(init);
    }
  }

  /** The record at the end: the served attempt's report, or with none what the failures
      left. All seven counts are the served attempt's own if and only if it reported, or
      the last report before it held no cache-write breakdown. */
  lemma SevenCounts(tried: seq<Try>)
    requires tried != [] && AllFail(tried[..|tried| - 1])
    requires ResultOf(tried[|tried| - 1].script, false).outcome.Success?
    ensures var s, before := tried[|tried| - 1].script, LastHeard(tried[..|tried| - 1]);
            && Left(tried) == (if Reported(s).Some? then Burned(s) else ClearFive(before))
            && (Left(tried) == Burned(s) <==>
                  Reported(s).Some? || (before.cacheWrite5m == 0 && before.cacheWrite1h == 0))
            && (Left(tried) == Burned(s)
                || (Left(tried).input == 0 && Left(tried).output == 0 && Left(tried).cacheRead == 0
                    && Left(tried).cacheWrite == 0 && Left(tried).reasoning == 0))
  {
    LeftOfFailures(tried[..|tried| - 1]);
  }

  /** Two tries: the first reports one 5-minute token and fails, the second serves and
      reports nothing. The token stays on the record, unpriced. */
  lemma LeftoverStays()
    ensures exists tried: seq<Try> ::
              && |tried| == 2 && AllFail(tried[..1]) && ResultOf(tried[1].script, false).outcome.Success?
              && Left(tried) == Usage.ZERO.(cacheWrite5m := 1) && Burned(tried[1].script) == Usage.ZERO
  {
    var u := Usage.ZERO.(cacheWrite5m := 1);
    var fails := Body(200, None, [Report(u)], Returned(RetryableProvider), true, false, false);
    var serves := Body(200, None, [WriteHeader], Returned(Success), false, false, false);
    assert WriteHeader in serves.acts && Reaches(WriteHeader);
    assert forall a | a in fails.acts :: !Reaches(a);
    assert serves.acts[..0] == [];
    var tried := [Try(0, fails), Try(1, serves)];
    assert tried[..1] == [Try(0, fails)] && tried[..1][..0] == [];
    assert AllFail(tried[..1]);
    SevenCounts(tried);
  }
}
