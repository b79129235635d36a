/** Any number of requests on one breaker: the breaker calls of runAttempts
    (internal/exec/exec.go), interleaved in any order, are a run of the breaker, so no
    entry stays shut once the requests are done. */
module Fleet {
  import opened Options
  import opened Health
  import opened Attempts
  import opened AttemptLoop
  import HealthRuns

  /** One thing that happens: a breaker call of a request, with the clock readings an
      ask takes and the policy an outcome meets; or time passing. */
  datatype Turn = Call(id: nat, op: FleetOp, t1: int, t2: int, p: Policy) | Pass(to: int)

  function MoveOf(t: Turn): HealthRuns.Move {
    match t
    case Pass(to) => HealthRuns.Tick(to)
    case Call(id, op, t1, t2, p) =>
      match op
      case Asked(k, _) => HealthRuns.Begin(id, k, t1, t2)
      case Again(k) => HealthRuns.BeginAgain(id, k)
      case Freed(_) => HealthRuns.Served(id)
      case Recorded(_, s) => HealthRuns.Finish(id, s, p)
  }

  function Moves(turns: seq<Turn>): seq<HealthRuns.Move> {
    if turns == [] then [] else Moves(turns[..|turns| - 1]) + [MoveOf(turns[|turns| - 1])]
  }

  /** The calls of one request, in order. */
  function Said(turns: seq<Turn>, id: nat): seq<FleetOp> {
    if turns == [] then []
    else
      var t := turns[|turns| - 1];
      Said(turns[..|turns| - 1], id) + (if t.Call? && t.id == id then [t.op] else [])
  }

  /** The clock does not go back, and an ask is answered by the breaker. */
  predicate Honest(s: HealthRuns.System, t: Turn) {
    match t
    case Pass(to) => s.now <= to
    case Call(_, op, t1, t2, _) =>
      op.Asked? ==> s.now <= t1 <= t2 && op.ok == Available(s.m, op.key, t1, t2)
  }

  ghost predicate HonestRun(s: HealthRuns.System, turns: seq<Turn>) {
    forall n | 0 <= n < |turns| && HealthRuns.Play(s, Moves(turns[..n])) ::
      Honest(HealthRuns.Final(s, Moves(turns[..n])), turns[n])
  }

  // ------------------------------------------------------------- one call

  /** A request's calls and the breaker agree on whether it has an attempt open. */
  predicate Tracks(s: HealthRuns.System, id: nat, p: Phase) {
    match p
    case Quiet => id !in s.open
    case Running(k) => id in s.open && s.open[id] == k
    case Bad => false
  }

  ghost predicate InStep(s: HealthRuns.System, turns: seq<Turn>, id: nat) {
    Tracks(s, id, Scan(Said(turns, id)))
  }

  lemma OneCall(s: HealthRuns.System, t: Turn, ph: Phase)
    requires t.Call? && Tracks(s, t.id, ph) && !StepPhase(ph, t.op).Bad? && Honest(s, t)
    ensures HealthRuns.Possible(s, MoveOf(t))
    ensures Tracks(HealthRuns.Do(s, MoveOf(t)), t.id, StepPhase(ph, t.op))
  {
  }

  lemma OthersKeepTrack(s: HealthRuns.System, t: Turn, id: nat, ph: Phase)
    requires Tracks(s, id, ph) && HealthRuns.Possible(s, MoveOf(t)) && (t.Call? ==> t.id != id)
    ensures Tracks(HealthRuns.Do(s, MoveOf(t)), id, ph)
  {
  }

  // ---------------------------------------------------------- whole runs

  lemma {:induction false} PlaySnoc(s: HealthRuns.System, moves: seq<HealthRuns.Move>, mv: HealthRuns.Move)
    requires HealthRuns.Play(s, moves) && HealthRuns.Possible(HealthRuns.Final(s, moves), mv)
    ensures HealthRuns.Play(s, moves + [mv])
    ensures HealthRuns.Final(s, moves + [mv]) == HealthRuns.Do(HealthRuns.Final(s, moves), mv)
    decreases |moves|
  {
    if moves == [] {
      assert moves + [mv] == [mv] && [mv][1..] == [];
    } else {
      assert (moves + [mv])[1..] == moves[1..] + [mv];
      PlaySnoc(HealthRuns.Do(s, moves[0]), moves[1..], mv);
    }
  }

  /** A log cut short is not Bad if the whole is Quiet: Bad stays Bad. */
  lemma {:induction false} PrefixNotBad(log: seq<FleetOp>, n: nat)
    requires n <= |log| && !Scan(log).Bad?
    ensures !Scan(log[..n]).Bad?
    decreases |log|
  {
    if n < |log| {
      var init := log[..|log| - 1];
      PrefixNotBad(init, n);
      assert init[..n] == log[..n];
    } else {
      assert log[..n] == log;
    }
  }

  /** What each request has said so far is a beginning of its log. */
  ghost predicate Follows(turns: seq<Turn>, logs: map<nat, seq<FleetOp>>) {
    forall id :: Said(turns, id) <= if id in logs then logs[id] else []
  }

  lemma FollowsInit(turns: seq<Turn>, logs: map<nat, seq<FleetOp>>)
    requires turns != [] && Follows(turns, logs)
    ensures Follows(turns[..|turns| - 1], logs)
  {
    forall id
      ensures Said(turns[..|turns| - 1], id) <= if id in logs then logs[id] else []
    {
      assert Said(turns[..|turns| - 1], id) <= Said(turns, id);
    }
  }

  lemma HonestInit(s: HealthRuns.System, turns: seq<Turn>)
    requires turns != [] && HonestRun(s, turns)
    ensures HonestRun(s, turns[..|turns| - 1])
  {
    var init := turns[..|turns| - 1];
    forall n | 0 <= n < |init| && HealthRuns.Play(s, Moves(init[..n]))
      ensures Honest(HealthRuns.Final(s, Moves(init[..n])), init[n])
    {
      assert init[..n] == turns[..n] && init[n] == turns[n];
    }
  }

  /** However the requests' calls interleave, they are a run of the breaker, and it has
      an attempt open for exactly the requests that have one under way. */
  lemma {:induction false} InterleavingIsPlay(s: HealthRuns.System, turns: seq<Turn>, logs: map<nat, seq<FleetOp>>)
    requires s.open == map[] && HonestRun(s, turns) && Follows(turns, logs)
    requires forall id | id in logs :: Scan(logs[id]) == Quiet
    ensures HealthRuns.Play(s, Moves(turns))
    ensures forall id :: InStep(HealthRuns.Final(s, Moves(turns)), turns, id)
  {
    hide HealthRuns.Play, HealthRuns.Final, HealthRuns.Do, HealthRuns.Possible, InStep, Scan, Honest;
    if turns == [] {
      Untouched(s);
    } else {
      var init, t := turns[..|turns| - 1], turns[|turns| - 1];
      FollowsInit(turns, logs);
      HonestInit(s, turns);
      InterleavingIsPlay(s, init, logs);
      var f := HealthRuns.Final(s, Moves(init));
      assert Honest(f, t);
      assert turns == init + [t];
      NextTurn(f, init, t, turns, logs);
      PlaySnoc(s, Moves(init), MoveOf(t));
    }
  }

  lemma Untouched(s: HealthRuns.System)
    requires s.open == map[]
    ensures HealthRuns.Play(s, []) && HealthRuns.Final(s, []) == s
    ensures forall id :: InStep(s, [], id)
  {
  }

  /** The request whose turn it is stays in step. */
  lemma NextCall(f: HealthRuns.System, turns: seq<Turn>, log: seq<FleetOp>)
    requires turns != [] && turns[|turns| - 1].Call? && Honest(f, turns[|turns| - 1])
    requires Said(turns, turns[|turns| - 1].id) <= log && !Scan(log).Bad?
    requires InStep(f, turns[..|turns| - 1], turns[|turns| - 1].id)
    ensures HealthRuns.Possible(f, MoveOf(turns[|turns| - 1]))
    ensures InStep(HealthRuns.Do(f, MoveOf(turns[|turns| - 1])), turns, turns[|turns| - 1].id)
  {
    hide HealthRuns.Do, HealthRuns.Possible, Tracks, Scan, Honest;
    var t := turns[|turns| - 1];
    var before := Said(turns[..|turns| - 1], t.id);
    assert Said(turns, t.id) == before + [t.op];
    ScanSnoc(before, t.op);
    assert log[..|before| + 1] == before + [t.op];
    PrefixNotBad(log, |before| + 1);
    OneCall(f, t, Scan(before));
  }

  /** And so do the others. */
  lemma NextOther(f: HealthRuns.System, turns: seq<Turn>, id: nat)
    requires turns != [] && HealthRuns.Possible(f, MoveOf(turns[|turns| - 1]))
    requires turns[|turns| - 1].Call? ==> turns[|turns| - 1].id != id
    requires InStep(f, turns[..|turns| - 1], id)
    ensures InStep(HealthRuns.Do(f, MoveOf(turns[|turns| - 1])), turns, id)
  {
    hide HealthRuns.Do, HealthRuns.Possible, Tracks, Scan;
    var init, t := turns[..|turns| - 1], turns[|turns| - 1];
    assert Said(init, id) + [] == Said(init, id);
    OthersKeepTrack(f, t, id, Scan(Said(init, id)));
  }

  lemma NextTurn(f: HealthRuns.System, init: seq<Turn>, t: Turn, turns: seq<Turn>, logs: map<nat, seq<FleetOp>>)
    requires turns == init + [t] && Follows(turns, logs) && Honest(f, t)
    requires forall id | id in logs :: Scan(logs[id]) == Quiet
    requires forall id :: InStep(f, init, id)
    ensures HealthRuns.Possible(f, MoveOf(t))
    ensures forall id :: InStep(HealthRuns.Do(f, MoveOf(t)), turns, id)
  {
    hide HealthRuns.Do, InStep, Said;
    assert turns[..|turns| - 1] == init && turns[|turns| - 1] == t;
    if t.Call? { NextCall(f, turns, if t.id in logs then logs[t.id] else []); }
    forall id | t.Call? ==> t.id != id
      ensures InStep(HealthRuns.Do(f, MoveOf(t)), turns, id)
    {
      NextOther(f, turns, id);
    }
  }

  // ----------------------------------------------- the requests themselves

  /** A request as RunAttempts accounts for it. */
  datatype Ran = Ran(env: Env, cands: seq<Candidate>, visited: seq<Visit>)

  ghost function LogsOf(ran: map<nat, Ran>): map<nat, seq<FleetOp>>
    requires forall id | id in ran :: |ran[id].visited| <= |ran[id].cands|
  {
    map id | id in ran :: LogOf(ran[id].env, ran[id].cands, ran[id].visited)
  }

  /** Any number of requests, interleaved call by call on one breaker: while they run,
      every held probe has an attempt running on its triple or credential; once all have
      said all they had to say and the cooldowns have passed, every key is available. */
  lemma NoRequestShutsAnEntry(s: HealthRuns.System, ran: map<nat, Ran>, turns: seq<Turn>, at: int)
    requires s.open == map[] && HealthRuns.NoOrphans(s) && HonestRun(s, turns)
    requires forall id | id in ran :: |ran[id].visited| <= |ran[id].cands|
    requires Follows(turns, LogsOf(ran))
    ensures HealthRuns.Play(s, Moves(turns)) && HealthRuns.NoOrphans(HealthRuns.Final(s, Moves(turns)))
    ensures var f := HealthRuns.Final(s, Moves(turns));
            (forall id | id in ran :: Said(turns, id) == LogsOf(ran)[id])
            && (forall e | e in f.m && f.m[e].coolingUntil.Some? :: f.m[e].coolingUntil.value <= at)
            ==> forall k :: Available(f.m, k, at, at)
  {
    hide HealthRuns.Play, HealthRuns.Final, HealthRuns.NoOrphans, LogOf, Available, HonestRun, Said;
    forall id | id in ran
      ensures Scan(LogsOf(ran)[id]) == Quiet
    {
      LogIsQuiet(ran[id].env, ran[id].cands, ran[id].visited);
    }
    InterleavingIsPlay(s, turns, LogsOf(ran));
    HealthRuns.NothingShutForever(s, Moves(turns), at);
    var f := HealthRuns.Final(s, Moves(turns));
    if forall id | id in ran :: Said(turns, id) == LogsOf(ran)[id] {
      forall id
        ensures id !in f.open
      {
        assert InStep(f, turns, id);
        assert Said(turns, id) <= if id in LogsOf(ran) then LogsOf(ran)[id] else [];
      }
      assert f.open == map[];
    }
  }
}
