/** What the breaker promises over whole runs, with any number of attempts in
    flight: one probe per expired entry, an escalation that counts failures, and
    no entry shut with nobody testing it. */
module HealthRuns {
  import opened Options
  import opened Health

  // ------------------------------------------------- one probe per entry

  datatype Ask = Ask(key: Key, t1: int, t2: int)

  /** Asking for k is asking about k itself and about its credential. */
  predicate Covers(k: Key, entry: Key) {
    k == entry || k.Cred() == entry
  }

  function Asked(m: Entries, asks: seq<Ask>): Entries
    decreases |asks|
  {
    if asks == [] then m
    else Asked(AfterAvailable(m, asks[0].key, asks[0].t1, asks[0].t2), asks[1..])
  }

  /** How many of the asks that touch `entry` were granted. */
  function Granted(m: Entries, asks: seq<Ask>, entry: Key): nat
    decreases |asks|
  {
    if asks == [] then 0
    else
      var a := asks[0];
      (if Available(m, a.key, a.t1, a.t2) && Covers(a.key, entry) then 1 else 0)
      + Granted(AfterAvailable(m, a.key, a.t1, a.t2), asks[1..], entry)
  }

  /** Cooled by the ladder, and past it at every clock reading of the asks. */
  predicate HalfOpen(m: Entries, entry: Key, since: int) {
    entry in m && m[entry].coolingUntil.Some? && m[entry].coolingUntil.value <= since && !m[entry].retryAfterOnly
  }

  predicate Since(asks: seq<Ask>, since: int) {
    forall i | 0 <= i < |asks| :: since <= asks[i].t1 && since <= asks[i].t2
  }

  lemma AskKeepsHalfOpen(m: Entries, a: Ask, entry: Key, since: int)
    requires HalfOpen(m, entry, since) && since <= a.t1 && since <= a.t2
    ensures HalfOpen(AfterAvailable(m, a.key, a.t1, a.t2), entry, since)
    ensures Available(m, a.key, a.t1, a.t2) && Covers(a.key, entry) ==>
              !m[entry].probing && AfterAvailable(m, a.key, a.t1, a.t2)[entry].probing
    ensures !(Available(m, a.key, a.t1, a.t2) && Covers(a.key, entry)) ==>
              AfterAvailable(m, a.key, a.t1, a.t2)[entry].probing == m[entry].probing
  {
    if a.key.model != "" { assert a.key.Cred() != a.key; }
  }

  /** However many callers ask, and through however many models of a half-open
      credential, at most one is let through; none if a probe is already out. */
  lemma {:induction false} OneProbe(m: Entries, asks: seq<Ask>, entry: Key, since: int)
    requires HalfOpen(m, entry, since) && Since(asks, since)
    ensures Granted(m, asks, entry) <= if m[entry].probing then 0 else 1
    decreases |asks|
  {
    if asks != [] {
      var a := asks[0];
      AskKeepsHalfOpen(m, a, entry, since);
      assert Since(asks[1..], since) by {
        assert forall i | 0 <= i < |asks| - 1 :: asks[1..][i] == asks[i + 1];
      }
      OneProbe(AfterAvailable(m, a.key, a.t1, a.t2), asks[1..], entry, since);
    }
  }

  /** And somebody is let through: the first to ask for the entry itself. */
  lemma FirstAskProbes(m: Entries, k: Key, t: int)
    requires HalfOpen(m, k, t) && !m[k].probing && (k.model != "" ==> Passes(m, k.Cred(), t))
    ensures Available(m, k, t, t) && AfterAvailable(m, k, t, t)[k].probing
  {
    if k.model != "" { assert k.Cred() != k; }
  }

  /** A refusal claims nothing and gives nothing back. */
  lemma RefusalLeavesProbes(m: Entries, k: Key, t1: int, t2: int)
    requires !Available(m, k, t1, t2)
    ensures AfterAvailable(m, k, t1, t2).Keys == m.Keys
    ensures forall e | e in m :: AfterAvailable(m, k, t1, t2)[e].probing == m[e].probing
  {
  }

  // ----------------------------------------------------------- escalation

  datatype Op =
    | Ended(key: Key, signal: Signal, at: int)
    | Asking(key: Key, t1: int, t2: int)
    | Freed(key: Key)

  function Apply(m: Entries, op: Op, p: Policy): Entries {
    match op
    case Ended(k, s, at) => Record(m, k, s, at, p)
    case Asking(k, t1, t2) => AfterAvailable(m, k, t1, t2)
    case Freed(k) => ReleaseBoth(m, k)
  }

  function ApplyAll(m: Entries, ops: seq<Op>, p: Policy): Entries {
    if ops == [] then m else Apply(ApplyAll(m, ops[..|ops| - 1], p), ops[|ops| - 1], p)
  }

  /** A failure the ladder counts: not a rate limit, no stated wait. */
  predicate Plain(op: Op, k: Key) {
    && op.Ended? && op.key == k && op.signal.outcome.RetryableProvider?
    && op.signal.retryAfter.None? && op.signal.status != 429
  }

  /** Anything that is no verdict on k: other keys' traffic, asking, freeing, and
      k's own cancellations and missing models. */
  predicate Neutral(op: Op, k: Key) {
    op.Ended? && op.key == k ==> op.signal.outcome.ClientCancelled? || op.signal.outcome.RetryableModel?
  }

  function Failures(ops: seq<Op>, k: Key): nat {
    if ops == [] then 0
    else Failures(ops[..|ops| - 1], k) + (if Plain(ops[|ops| - 1], k) then 1 else 0)
  }

  function LastFailure(ops: seq<Op>, k: Key): int
    requires Failures(ops, k) > 0
  {
    var last := ops[|ops| - 1];
    if Plain(last, k) then last.at else LastFailure(ops[..|ops| - 1], k)
  }

  /** The ladder's position after n plain failures, the last at `at`. */
  predicate Escalated(m: Entries, k: Key, n: nat, at: int, p: Policy) {
    if n == 0 then k !in m
    else
      && k in m && m[k].failures == n && !m[k].retryAfterOnly
      && if n < p.tripAfter then m[k].coolingUntil == None && m[k].level == 0
         else m[k].coolingUntil == Some(at + Cooldown(n - p.tripAfter, p.max)) && m[k].level == n - p.tripAfter + 1
  }

  lemma NeutralKeeps(m: Entries, op: Op, k: Key, n: nat, at: int, p: Policy)
    requires k.model != "" && Neutral(op, k) && Escalated(m, k, n, at, p)
    ensures Escalated(Apply(m, op, p), k, n, at, p)
  {
    hide Cooldown;
    assert op.key.Cred() != k;
    match op
    case Ended(j, s, t) =>
    case Asking(j, t1, t2) => if j.model != "" { assert j.Cred() != j; }
    case Freed(j) =>
  }

  lemma PlainClimbs(m: Entries, op: Op, k: Key, n: nat, at: int, p: Policy)
    requires k.model != "" && Plain(op, k) && Escalated(m, k, n, at, p) && p.Clamped()
    ensures Escalated(Apply(m, op, p), k, n + 1, op.at, p)
  {
    hide Cooldown;
    assert k.Cred() != k;
  }

  /** From a fresh entry, n plain failures with any neutral traffic in between
      leave it never cooled below the threshold, and from the threshold on cooled
      by failure n for level n - tripAfter. */
  lemma {:induction false} Escalation(m: Entries, ops: seq<Op>, k: Key, p: Policy)
    requires k.model != "" && k !in m && p.Clamped()
    requires forall i | 0 <= i < |ops| :: Plain(ops[i], k) || Neutral(ops[i], k)
    ensures var n := Failures(ops, k);
            Escalated(ApplyAll(m, ops, p), k, n, if n > 0 then LastFailure(ops, k) else 0, p)
  {
    if ops != [] {
      var init, last := ops[..|ops| - 1], ops[|ops| - 1];
      Escalation(m, init, k, p);
      var n := Failures(init, k);
      var before := ApplyAll(m, init, p);
      hide Escalated, Apply, Neutral;
      if Plain(last, k) {
        PlainClimbs(before, last, k, n, if n > 0 then LastFailure(init, k) else 0, p);
      } else {
        NeutralKeeps(before, last, k, n, if n > 0 then LastFailure(init, k) else 0, p);
      }
    }
  }

  // ------------------------------------------------------- starting afresh

  /** No ladder: no failures, no level, no cooldown and no probe. */
  predicate Cleared(m: Entries, k: Key) {
    k in m ==> m[k].failures == 0 && m[k].level == 0 && m[k].coolingUntil == None && !m[k].probing && !m[k].retryAfterOnly
  }

  /** From any state, a success on k leaves no ladder on k or on its credential. */
  lemma SuccessClears(m: Entries, ops: seq<Op>, k: Key, s: Signal, at: int, p: Policy)
    requires s.outcome.Success?
    ensures var r := ApplyAll(m, ops + [Ended(k, s, at)], p);
            Cleared(r, k) && Cleared(r, k.Cred())
  {
    assert (ops + [Ended(k, s, at)])[..|ops|] == ops;
  }

  /** A fatal outcome clears the triple alone; its credential keeps its ladder and gives
      back its probe. */
  lemma FatalClearsTheTriple(m: Entries, ops: seq<Op>, k: Key, s: Signal, at: int, p: Policy)
    requires s.outcome.Fatal? && k.model != ""
    ensures var b, r, c := ApplyAll(m, ops, p), ApplyAll(m, ops + [Ended(k, s, at)], p), k.Cred();
            && Cleared(r, k)
            && (c in b <==> c in r)
            && (c in b ==> && r[c].failures == b[c].failures && r[c].level == b[c].level && !r[c].probing
                           && r[c].coolingUntil == b[c].coolingUntil && r[c].retryAfterOnly == b[c].retryAfterOnly)
  {
    assert (ops + [Ended(k, s, at)])[..|ops|] == ops;
    assert k != k.Cred();
  }

  lemma {:induction false} ApplyAllAppend(m: Entries, a: seq<Op>, b: seq<Op>, p: Policy)
    ensures ApplyAll(m, a + b, p) == ApplyAll(ApplyAll(m, a, p), b, p)
    decreases |b|
  {
    if b == [] {
      assert a + b == a;
    } else {
      var n := |b| - 1;
      assert (a + b)[..|a + b| - 1] == a + b[..n] && (a + b)[|a + b| - 1] == b[n];
      ApplyAllAppend(m, a, b[..n], p);
    }
  }

  /** Whatever came before, the plain failures since the last success, or the last fatal
      outcome, are all the ladder knows. */
  lemma EscalationSince(m: Entries, before: seq<Op>, k: Key, s: Signal, at: int, after: seq<Op>, p: Policy)
    requires k.model != "" && p.Clamped() && (s.outcome.Success? || s.outcome.Fatal?)
    requires forall i | 0 <= i < |after| :: Plain(after[i], k) || Neutral(after[i], k)
    ensures var n := Failures(after, k);
            Escalated(ApplyAll(m, before + [Ended(k, s, at)] + after, p), k, n,
                      if n > 0 then LastFailure(after, k) else 0, p)
  {
    hide Escalated, Plain, Neutral;
    var first := before + [Ended(k, s, at)];
    assert first[..|before|] == before;
    assert k !in ApplyAll(m, first, p) by { assert k != k.Cred(); }
    ApplyAllAppend(m, first, after, p);
    Escalation(ApplyAll(m, first, p), after, k, p);
  }

  /** What asking does to the entries: the credential's and the triple's, when both let
      the call pass, each by its own cooldown. A stated wait that has passed is
      forgotten; a ladder's that has passed has its one probe taken. A refused call
      takes no probe. */
  lemma AskOnFields(m: Entries, k: Key, t: int, e: Key)
    ensures var r := AfterAvailable(m, k, t, t);
            && (e in r <==> e in m)
            && (e in m && e != k && e != k.Cred() ==> r[e] == m[e])
            && (e in m && (e == k || e == k.Cred()) && Available(m, k, t, t) ==>
                  r[e] == if m[e].coolingUntil == None then m[e]
                          else if m[e].retryAfterOnly then m[e].(coolingUntil := None, retryAfterOnly := false)
                          else m[e].(probing := true))
            && (e in m && !Available(m, k, t, t) ==> r[e].probing == m[e].probing)
  {
    if k.model != "" { assert k != k.Cred(); } else { assert k == k.Cred(); }
  }

  /** What an outcome that clears nothing does to the entries, field by field. */
  lemma OutcomeOnFields(m: Entries, k: Key, s: Signal, now: int, p: Policy)
    requires k.model != ""
    ensures var r, c := Apply(m, Ended(k, s, now), p), k.Cred();
            && (s.outcome.ClientCancelled? || s.outcome.RetryableModel? ==>
                  && r.Keys == m.Keys
                  && forall e | e in m :: r[e] == if e == k || e == c then m[e].(probing := false) else m[e])
            && (s.outcome.RetryableCredential? ==>
                  && (k in r <==> k in m) && (k in m ==> r[k] == m[k].(probing := false))
                  && var held := if c in m then m[c] else Entry(None, 0, 0, false, false);
                     c in r && r[c] == Entry(Some(now + Cooldown(held.level, p.max)), held.level + 1, held.failures, false, false))
            && (s.outcome.RetryableProvider? ==>
                  && (c in r <==> c in m) && (c in m ==> r[c] == m[c].(probing := false))
                  && k in r
                  && var held := if k in m then m[k] else Entry(None, 0, 0, false, false);
                     var cooled := Some(now + Cooldown(held.level, p.max));
                     var n := held.failures + 1;
                     r[k] ==
                     if s.retryAfter.Some? then
                       var wait := if s.retryAfter.value < p.max then s.retryAfter.value else p.max;
                       Entry(Some(now + wait), held.level, held.failures, false, true)
                     else if s.status == 429 then Entry(cooled, held.level + 1, held.failures, false, false)
                     else if n >= p.tripAfter then Entry(cooled, held.level + 1, n, false, false)
                     else Entry(held.coolingUntil, held.level, n, false, held.retryAfterOnly))
            && forall e | e != k && e != c :: (e in r <==> e in m) && (e in m ==> r[e] == m[e])
  {
    hide Cooldown;
    assert k != k.Cred();
  }

  // ------------------------------------------- outcomes, seen from outside

  /** The entry an outcome cools, and until when: a rejected credential the credential,
      a provider failure the triple; at once for a stated wait or a 429, else once
      enough failures have come. */
  function Cools(m: Entries, k: Key, s: Signal, now: int, p: Policy): Option<(Key, int)> {
    match s.outcome
    case RetryableCredential => Some((k.Cred(), now + Cooldown(Get(m, k.Cred()).level, p.max)))
    case RetryableProvider =>
      if s.retryAfter.Some? then Some((k, now + Min(s.retryAfter.value, p.max)))
      else if s.status == 429 || Get(m, k).failures + 1 >= p.tripAfter
      then Some((k, now + Cooldown(Get(m, k).level, p.max)))
      else None
    case _ => None
  }

  /** The entries an outcome clears of their cooldown. */
  function Clears(k: Key, s: Signal): set<Key> {
    match s.outcome
    case Success => {k, k.Cred()}
    case Fatal => {k}
    case _ => {}
  }

  predicate CoolsAt(m: Entries, e: Key, t: int) {
    e in m && m[e].coolingUntil.Some? && t < m[e].coolingUntil.value
  }

  lemma ProviderOnEntry(m: Entries, k: Key, s: Signal, now: int, p: Policy, t: int, e: Key)
    requires s.outcome.RetryableProvider?
    ensures var c := Cools(m, k, s, now, p);
            CoolsAt(Record(m, k, s, now, p), e, t) <==>
            if c.Some? && e == c.value.0 then t < c.value.1 else CoolsAt(m, e, t) && e !in Clears(k, s)
  {
    hide Cooldown;
    if k.model != "" { assert k != k.Cred(); }
  }

  lemma OutcomeOnEntry(m: Entries, k: Key, s: Signal, now: int, p: Policy, t: int, e: Key)
    ensures var c := Cools(m, k, s, now, p);
            CoolsAt(Record(m, k, s, now, p), e, t) <==>
            if c.Some? && e == c.value.0 then t < c.value.1 else CoolsAt(m, e, t) && e !in Clears(k, s)
  {
    if s.outcome.RetryableProvider? {
      ProviderOnEntry(m, k, s, now, p, t, e);
    } else {
      hide Cooldown, Fail;
      if k.model != "" { assert k != k.Cred(); }
    }
  }

  /** What an outcome does to the view of every key at every instant: it clears or
      cools the entries it speaks of and no others. */
  lemma OutcomeOnView(m: Entries, k: Key, s: Signal, now: int, p: Policy, t: int)
    ensures var c := Cools(m, k, s, now, p);
            CoolingAt(Record(m, k, s, now, p), t) ==
            if c.None? then CoolingAt(m, t) - Clears(k, s)
            else if t < c.value.1 then CoolingAt(m, t) + {c.value.0}
            else CoolingAt(m, t) - {c.value.0}
  {
    hide Record, Cools;
    var c := Cools(m, k, s, now, p);
    CoolsOrClears(m, k, s, now, p);
    forall e
      ensures e in CoolingAt(m, t) <==> CoolsAt(m, e, t)
      ensures e in CoolingAt(Record(m, k, s, now, p), t) <==>
              if c.Some? && e == c.value.0 then t < c.value.1 else CoolsAt(m, e, t) && e !in Clears(k, s)
    {
      OutcomeOnEntry(m, k, s, now, p, t, e);
    }
  }

  lemma CoolsOrClears(m: Entries, k: Key, s: Signal, now: int, p: Policy)
    ensures Cools(m, k, s, now, p).Some? ==> Clears(k, s) == {}
  {
  }

  /** A stated wait reopens fully when it has passed, for as many as ask, and leaves
      the ladder where it was; any other cooldown climbs it one level. */
  lemma WaitSparesTheLadder(m: Entries, k: Key, s: Signal, now: int, p: Policy)
    requires s.outcome.RetryableProvider?
    ensures var before, after := Get(m, k), Record(m, k, s, now, p)[k];
            && after.retryAfterOnly == (s.retryAfter.Some? || (Cools(m, k, s, now, p).None? && before.retryAfterOnly))
            && after.level == before.level + (if s.retryAfter.None? && Cools(m, k, s, now, p).Some? then 1 else 0)
            && after.failures == before.failures + (if s.retryAfter.None? && s.status != 429 then 1 else 0)
  {
    hide Cooldown;
    if k.model != "" { assert k != k.Cred(); }
  }

  // --------------------------------------------------- no orphaned probe

  /** The breaker with the attempts in flight on it, one per request: a request
      runs its attempts one after another. */
  datatype System = System(m: Entries, open: map<nat, Key>, now: int)

  datatype Move =
    | Begin(id: nat, key: Key, t1: int, t2: int)  // asked for, and attempted if let through
    | BeginAgain(id: nat, key: Key)               // the translated retry: no second ask
    | Served(id: nat)                             // the response committed
    | Finish(id: nat, signal: Signal, p: Policy)
    | Tick(to: int)

  predicate Possible(s: System, mv: Move) {
    match mv
    case Begin(id, _, t1, t2) => id !in s.open && s.now <= t1 <= t2
    case BeginAgain(id, _) => id !in s.open
    case Served(id) => id in s.open
    case Finish(id, _, _) => id in s.open
    case Tick(to) => s.now <= to
  }

  function Do(s: System, mv: Move): System
    requires Possible(s, mv)
  {
    match mv
    case Begin(id, k, t1, t2) =>
      System(AfterAvailable(s.m, k, t1, t2),
             if Available(s.m, k, t1, t2) then s.open[id := k] else s.open, t2)
    case BeginAgain(id, k) => s.(open := s.open[id := k])
    case Served(id) => s.(m := ReleaseBoth(s.m, s.open[id]))
    case Finish(id, sig, p) => s.(m := Record(s.m, s.open[id], sig, s.now, p), open := s.open - {id})
    case Tick(to) => s.(now := to)
  }

  predicate Attended(s: System, e: Key) {
    exists id | id in s.open :: Covers(s.open[id], e)
  }

  /** A held probe has an attempt on its triple or credential still running. */
  predicate NoOrphans(s: System) {
    forall e | e in s.m && s.m[e].probing :: Attended(s, e)
  }

  lemma BeginKeeps(s: System, id: nat, k: Key, t1: int, t2: int)
    requires NoOrphans(s) && Possible(s, Begin(id, k, t1, t2))
    ensures NoOrphans(Do(s, Begin(id, k, t1, t2)))
  {
    var t := Do(s, Begin(id, k, t1, t2));
    if !Available(s.m, k, t1, t2) { RefusalLeavesProbes(s.m, k, t1, t2); }
    forall e | e in t.m && t.m[e].probing
      ensures Attended(t, e)
    {
      if e in s.m && s.m[e].probing {
        var j :| j in s.open && Covers(s.open[j], e);
        assert j in t.open && t.open[j] == s.open[j];
      } else {
        assert id in t.open && Covers(t.open[id], e);
      }
    }
  }

  lemma FinishFrees(m: Entries, k: Key, sig: Signal, now: int, p: Policy)
    ensures var r := Record(m, k, sig, now, p);
            && (k in r ==> !r[k].probing) && (k.Cred() in r ==> !r[k.Cred()].probing)
            && forall e | e in r && e != k && e != k.Cred() :: e in m && r[e] == m[e]
  {
    hide Cooldown;
  }

  lemma FinishKeeps(s: System, id: nat, sig: Signal, p: Policy)
    requires NoOrphans(s) && id in s.open
    ensures NoOrphans(Do(s, Finish(id, sig, p)))
  {
    var t, k := Do(s, Finish(id, sig, p)), s.open[id];
    FinishFrees(s.m, k, sig, s.now, p);
    hide Record;
    forall e | e in t.m && t.m[e].probing
      ensures Attended(t, e)
    {
      assert e != k && e != k.Cred();
      var j :| j in s.open && Covers(s.open[j], e);
      assert j != id && j in t.open;
    }
  }

  /** A response that commits gives its probes back at once and changes nothing else, and
      the attempt goes on; a translated retry takes no probe. */
  lemma ServingFreesProbes(s: System, id: nat)
    requires id in s.open
    ensures var t, k := Do(s, Served(id)), s.open[id];
            && t.open == s.open && t.now == s.now && t.m.Keys == s.m.Keys
            && forall e | e in s.m :: t.m[e] == if e == k || e == k.Cred() then s.m[e].(probing := false) else s.m[e]
    ensures forall key, other | other !in s.open :: Do(s, BeginAgain(other, key)) == s.(open := s.open[other := key])
  {
  }

  lemma MoveKeeps(s: System, mv: Move)
    requires NoOrphans(s) && Possible(s, mv)
    ensures NoOrphans(Do(s, mv))
  {
    var t := Do(s, mv);
    match mv
    case Begin(id, k, t1, t2) => BeginKeeps(s, id, k, t1, t2);
    case Finish(id, sig, p) => FinishKeeps(s, id, sig, p);
    case BeginAgain(id, k) =>
      forall e | Attended(s, e) ensures Attended(t, e) {
        var j :| j in s.open && Covers(s.open[j], e);
        assert j in t.open && t.open[j] == s.open[j];
      }
    case Served(id) =>
      assert forall e | e in t.m :: t.m[e].probing ==> s.m[e].probing;
      assert forall e :: Attended(t, e) == Attended(s, e);
    case Tick(to) =>
      assert forall e :: Attended(t, e) == Attended(s, e);
  }

  predicate Play(s: System, moves: seq<Move>)
    decreases |moves|
  {
    moves == [] || (Possible(s, moves[0]) && Play(Do(s, moves[0]), moves[1..]))
  }

  function Final(s: System, moves: seq<Move>): System
    requires Play(s, moves)
    decreases |moves|
  {
    if moves == [] then s else Final(Do(s, moves[0]), moves[1..])
  }

  predicate Quiet(s: System, at: int) {
    s.open == map[] && forall e | e in s.m && s.m[e].coolingUntil.Some? :: s.m[e].coolingUntil.value <= at
  }

  /** However attempts interleave, a probe held is a probe being run; so once none
      is running and the cooldowns have passed, every key is open. */
  lemma {:induction false} NothingShutForever(s: System, moves: seq<Move>, at: int)
    requires NoOrphans(s) && Play(s, moves)
    ensures NoOrphans(Final(s, moves))
    ensures Quiet(Final(s, moves), at) ==> forall k :: Available(Final(s, moves).m, k, at, at)
    decreases |moves|
  {
    if moves == [] {
      if Quiet(s, at) {
        forall k ensures Available(s.m, k, at, at) {
          LiveIsFrozenLessProbes(s.m, k, at);
          assert forall e | e in s.m :: s.m[e].probing ==> Attended(s, e);
        }
      }
    } else {
      MoveKeeps(s, moves[0]);
      NothingShutForever(Do(s, moves[0]), moves[1..], at);
    }
  }
}
