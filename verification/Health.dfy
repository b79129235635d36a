/** The circuit breaker of internal/health/breaker.go and availability.go.

    Each mutex section is a function on the entry map; the class holds the map and
    its methods are proved to apply those functions. */
module Health {
  import opened Options

  /** An empty model is the credential-level entry, which gates every model the
      credential serves. */
  datatype Key = Key(provider: string, cred: string, model: string)
  {
    function Cred(): Key {
      Key(provider, cred, "")
    }
  }

  datatype Outcome = Success | Fatal | ClientCancelled | RetryableCredential | RetryableModel | RetryableProvider

  datatype Signal = Signal(outcome: Outcome, status: int, retryAfter: Option<int>)

  datatype Entry = Entry(coolingUntil: Option<int>, level: int, failures: int, probing: bool, retryAfterOnly: bool)

  type Entries = map<Key, Entry>

  const FRESH: Entry := Entry(None, 0, 0, false, false)

  datatype Policy = Policy(tripAfter: int, max: int)
  {
    predicate Clamped() {
      tripAfter >= 1 && 0 < max < 0x8000_0000_0000_0000
    }
  }

  // ------------------------------------------------------ the ladder

  const SECOND: int := 1_000_000_000
  const LADDER: seq<int> := [1, 2, 4, 8, 15, 30, 60, 120]

  function Doubled(level: nat): int
    requires level >= 7
  {
    if level == 7 then 120 * SECOND else 2 * Doubled(level - 1)
  }

  /** The cooldown of one level: the ladder, then doubling, clamped to max. */
  function Cooldown(level: int, max: int): int {
    if level < 8 then
      var d := LADDER[if level < 0 then 0 else level] * SECOND;
      if d < max then d else max
    else if Doubled(level - 1) >= max / 2 then max
    else Doubled(level)
  }

  newtype Duration = x: int | -0x8000_0000_0000_0000 <= x < 0x8000_0000_0000_0000

  lemma {:induction false} DoubledGrows(a: nat, b: nat)
    requires 7 <= a <= b
    ensures 0 < Doubled(a) <= Doubled(b)
    ensures Doubled(b) >= Doubled(a) + (b - a)
    decreases b
  {
    if a < b {
      DoubledGrows(a, b - 1);
    } else if a > 7 {
      DoubledGrows(a - 1, a - 1);
    }
  }

  /** cooldownFor, in machine arithmetic: the doubling never overflows. */
  method CooldownFor(level: int, max: Duration) returns (d: Duration)
    requires max > 0
    ensures d as int == Cooldown(level, max as int)
  {
    var lv := if level < 0 then 0 else level;
    if lv < 8 {
      d := LADDER[lv] as Duration * 1_000_000_000;
      return if d < max then d else max;
    }
    d := 120_000_000_000;
    var i := 8;
    while i <= lv
      invariant 8 <= i <= lv + 1
      invariant d as int == Doubled(i - 1) && d > 0
      invariant i > 8 ==> Doubled(i - 2) < max as int / 2
    {
      if d >= max / 2 {
        DoubledGrows(i - 1, lv - 1);
        return max;
      }
      d := d * 2;
      i := i + 1;
    }
    if d > max { return max; }
  }

  /** The first eight cooldowns, in seconds, and then twice the last one for as long as
      that stays under max. */
  lemma CooldownSteps(level: int, max: int)
    requires max > 0
    ensures level < 8 ==>
              var seconds := if level <= 0 then 1 else if level == 1 then 2 else if level == 2 then 4
                             else if level == 3 then 8 else if level == 4 then 15 else if level == 5 then 30
                             else if level == 6 then 60 else 120;
              Cooldown(level, max) == Min(seconds * 1_000_000_000, max)
    ensures level >= 8 ==>
              var last := Cooldown(level - 1, max);
              Cooldown(level, max) == if last >= max / 2 then max else 2 * last
  {
    if level > 8 { DoubledGrows(level - 2, level - 1); }
  }

  lemma CooldownIsMonotone(a: int, b: int, max: int)
    requires a <= b && max > 0
    ensures Cooldown(a, max) <= Cooldown(b, max)
  {
    if a >= 8 {
      DoubledGrows(a - 1, b - 1);
      DoubledGrows(a, b);
    } else if b >= 8 {
      DoubledGrows(7, b);
    }
  }

  /** Never above max, and at max for good once it gets there. */
  lemma CooldownReachesMax(level: int, max: int)
    requires max > 0
    ensures 0 < Cooldown(level, max) <= max
    ensures level >= 8 + max ==> Cooldown(level, max) == max
  {
    if level >= 8 {
      DoubledGrows(7, level - 1);
      DoubledGrows(level - 1, level);
    }
  }

  // ---------------------------------------------------------- admission

  datatype Verdict = Reject | Open | Reopen | Claim

  function Look(m: Entries, k: Key, now: int): Verdict {
    if k !in m || m[k].coolingUntil.None? then Open
    else if now < m[k].coolingUntil.value then Reject
    else if m[k].retryAfterOnly then Reopen
    else if m[k].probing then Reject
    else Claim
  }

  /** availableLocked's effect. */
  function Admit(m: Entries, k: Key, now: int): Entries {
    match Look(m, k, now)
    case Reopen => m[k := m[k].(coolingUntil := None, retryAfterOnly := false)]
    case Claim => m[k := m[k].(probing := true)]
    case _ => m
  }

  predicate Passes(m: Entries, k: Key, now: int) {
    !Look(m, k, now).Reject?
  }

  /** Available, with the two clock readings it takes: whether k may be attempted,
      and the entries after. A credential's claim is given back when the model
      rejects. */
  predicate Available(m: Entries, k: Key, t1: int, t2: int) {
    if k.model == "" then Passes(m, k, t1)
    else Passes(m, k.Cred(), t1) && Passes(Admit(m, k.Cred(), t1), k, t2)
  }

  function AfterAvailable(m: Entries, k: Key, t1: int, t2: int): Entries {
    if k.model == "" then Admit(m, k, t1)
    else if !Passes(m, k.Cred(), t1) then m
    else
      var c := Admit(m, k.Cred(), t1);
      if Passes(c, k, t2) then Admit(c, k, t2)
      else if Look(m, k.Cred(), t1).Claim? then c[k.Cred() := c[k.Cred()].(probing := false)]
      else c
  }

  // ------------------------------------------------------------- outcomes

  function Release(m: Entries, k: Key): Entries {
    if k in m && m[k].probing then m[k := m[k].(probing := false)] else m
  }

  function ReleaseBoth(m: Entries, k: Key): Entries {
    Release(Release(m, k), k.Cred())
  }

  function Get(m: Entries, k: Key): Entry {
    if k in m then m[k] else FRESH
  }

  function Cool(e: Entry, now: int, p: Policy): Entry {
    e.(coolingUntil := Some(now + Cooldown(e.level, p.max)), level := e.level + 1,
       retryAfterOnly := false, probing := false)
  }

  function Min(a: int, b: int): int {
    if a < b then a else b
  }

  /** What one provider failure does to the triple's entry. */
  function Fail(e: Entry, s: Signal, now: int, p: Policy): Entry {
    if s.retryAfter.Some? then
      e.(coolingUntil := Some(now + Min(s.retryAfter.value, p.max)), retryAfterOnly := true, probing := false)
    else if s.status == 429 then Cool(e, now, p)
    else
      var f := e.(failures := e.failures + 1, probing := false);
      if f.failures >= p.tripAfter then Cool(f, now, p) else f
  }

  function Record(m: Entries, k: Key, s: Signal, now: int, p: Policy): Entries {
    match s.outcome
    case ClientCancelled => ReleaseBoth(m, k)
    case RetryableModel => ReleaseBoth(m, k)
    case Success => m - {k} - {k.Cred()}
    case Fatal => Release(m - {k}, k.Cred())
    case RetryableCredential =>
      var r := Release(m, k);
      r[k.Cred() := Cool(Get(r, k.Cred()), now, p)]
    case RetryableProvider =>
      var r := Release(m, k.Cred());
      r[k := Fail(Get(r, k), s, now, p)]
  }

  // ------------------------------------------------------- frozen views

  /** SnapshotAvailability: the keys still cooling at an instant. */
  function CoolingAt(m: Entries, at: int): set<Key> {
    set k | k in m && m[k].coolingUntil.Some? && at < m[k].coolingUntil.value
  }

  /** Availability.Available. */
  predicate FrozenAvailable(cooling: set<Key>, k: Key) {
    (k.model != "" ==> k.Cred() !in cooling) && k !in cooling
  }

  /** An expired ladder cooldown whose probe is out. */
  predicate HeldShut(m: Entries, k: Key, t: int) {
    && k in m && m[k].coolingUntil.Some? && m[k].coolingUntil.value <= t
    && !m[k].retryAfterOnly && m[k].probing
  }

  /** The live answer is the frozen one, less what a probe in flight holds shut. */
  lemma LiveIsFrozenLessProbes(m: Entries, k: Key, t: int)
    ensures Available(m, k, t, t) <==>
            FrozenAvailable(CoolingAt(m, t), k) && !HeldShut(m, k, t) && !HeldShut(m, k.Cred(), t)
  {
    if k.model != "" {
      assert k.Cred() != k;
      assert Look(Admit(m, k.Cred(), t), k, t) == Look(m, k, t);
    } else {
      assert k.Cred() == k;
    }
  }

  datatype Saved = Saved(key: Key, coolingUntil: Option<int>, level: int, failures: int)

  function SaveEntry(k: Key, e: Entry): Saved {
    Saved(k, e.coolingUntil, e.level, e.failures)
  }

  function Restore(s: Saved, now: int): Entry {
    Entry(if s.coolingUntil.Some? && now < s.coolingUntil.value then s.coolingUntil else None,
          s.level, s.failures, false, false)
  }

  function Rehydrated(m: Entries, saved: seq<Saved>, now: int): Entries
    decreases |saved|
  {
    if saved == [] then m
    else Rehydrated(m[saved[0].key := Restore(saved[0], now)], saved[1..], now)
  }

  /** A listing of m: each entry once, in any order. */
  predicate Lists(saved: seq<Saved>, m: Entries) {
    && (forall i | 0 <= i < |saved| :: saved[i].key in m && saved[i] == SaveEntry(saved[i].key, m[saved[i].key]))
    && (forall k | k in m :: SaveEntry(k, m[k]) in saved)
    && (forall i, j | 0 <= i < j < |saved| :: saved[i].key != saved[j].key)
  }

  lemma {:induction false} RehydratedAt(m: Entries, saved: seq<Saved>, now: int, k: Key)
    requires forall i, j | 0 <= i < j < |saved| :: saved[i].key != saved[j].key
    ensures k in Rehydrated(m, saved, now) <==> k in m || exists i | 0 <= i < |saved| :: saved[i].key == k
    ensures forall i | 0 <= i < |saved| && saved[i].key == k :: Rehydrated(m, saved, now)[k] == Restore(saved[i], now)
    ensures (forall i | 0 <= i < |saved| :: saved[i].key != k) && k in m ==> Rehydrated(m, saved, now)[k] == m[k]
    decreases |saved|
  {
    if saved != [] {
      var rest := saved[1..];
      RehydratedAt(m[saved[0].key := Restore(saved[0], now)], rest, now, k);
      assert forall i | 1 <= i < |saved| :: saved[i] == rest[i - 1];
      assert forall i | 0 <= i < |rest| :: rest[i] == saved[i + 1];
    }
  }

  /** Saved and restored, every entry has its level and its failures, and of its cooldown
      what is still to come; no probe is out. */
  lemma RehydrateKeepsLadders(m: Entries, saved: seq<Saved>, now: int, k: Key)
    requires Lists(saved, m)
    ensures var r := Rehydrated(map[], saved, now);
            && (k in r <==> k in m)
            && (k in m ==>
                  && r[k].level == m[k].level && r[k].failures == m[k].failures
                  && !r[k].probing && !r[k].retryAfterOnly
                  && (m[k].coolingUntil.Some? && now < m[k].coolingUntil.value ==> r[k].coolingUntil == m[k].coolingUntil)
                  && (m[k].coolingUntil.Some? && m[k].coolingUntil.value <= now ==> r[k].coolingUntil == None)
                  && (m[k].coolingUntil == None ==> r[k].coolingUntil == None))
  {
    RehydratedAt(map[], saved, now, k);
    if k in m {
      var i :| 0 <= i < |saved| && saved[i] == SaveEntry(k, m[k]);
    }
  }

  /** Saved and restored, the breaker shows the same frozen view ever after, and
      at the restart nothing is held shut by a probe. */
  lemma RehydrateKeepsView(m: Entries, saved: seq<Saved>, now: int, at: int)
    requires Lists(saved, m) && now <= at
    ensures CoolingAt(Rehydrated(map[], saved, now), at) == CoolingAt(m, at)
    ensures forall k :: Available(Rehydrated(map[], saved, now), k, at, at) <==> FrozenAvailable(CoolingAt(m, at), k)
  {
    var r := Rehydrated(map[], saved, now);
    forall k
      ensures k in r <==> k in m
      ensures k in r ==> r[k] == Restore(SaveEntry(k, m[k]), now)
    {
      RehydratedAt(map[], saved, now, k);
      if k in m {
        var i :| 0 <= i < |saved| && saved[i] == SaveEntry(k, m[k]);
      }
    }
    forall k
      ensures Available(r, k, at, at) <==> FrozenAvailable(CoolingAt(r, at), k)
    {
      LiveIsFrozenLessProbes(r, k, at);
    }
  }

  // ------------------------------------------------------------ the class

  /** What the persister would write. */
  ghost function Durable(m: Entries): map<Key, Saved> {
    map k | k in m :: SaveEntry(k, m[k])
  }

  class Breaker {
    var m: Entries
    var dirty: bool
    var policy: Policy

    constructor (p: Policy)
      ensures m == map[] && policy == p && !dirty
    {
      m, policy, dirty := map[], p, false;
    }

    /** availableLocked. */
    method AvailableLocked(k: Key, now: int) returns (ok: bool, claimed: bool)
      modifies this`m, this`dirty
      ensures ok == Passes(old(m), k, now) && claimed == Look(old(m), k, now).Claim?
      ensures m == Admit(old(m), k, now)
      ensures dirty == (old(dirty) || Look(old(m), k, now).Reopen?)
    {
      if k !in m || m[k].coolingUntil.None? { return true, false; }
      var st := m[k];
      if now < st.coolingUntil.value { return false, false; }
      if st.retryAfterOnly {
        m := m[k := st.(coolingUntil := None, retryAfterOnly := false)];
        dirty := true;
        return true, false;
      }
      if st.probing { return false, false; }
      m := m[k := st.(probing := true)];
      return true, true;
    }

    method IsAvailable(k: Key, t1: int, t2: int) returns (ok: bool)
      modifies this`m, this`dirty
      ensures ok == Available(old(m), k, t1, t2)
      ensures m == AfterAvailable(old(m), k, t1, t2)
      ensures old(dirty) || (Durable(m) != Durable(old(m))) ==> dirty
    {
      var claimed;
      if k.model == "" {
        ok, claimed := AvailableLocked(k, t1);
        return;
      }
      ok, claimed := AvailableLocked(k.Cred(), t1);
      if !ok { return; }
      var passed, _ := AvailableLocked(k, t2);
      if !passed {
        if claimed { m := m[k.Cred() := m[k.Cred()].(probing := false)]; }
        return false;
      }
    }

    method RecordSignal(k: Key, s: Signal, now: int)
      requires policy.Clamped()
      modifies this`m, this`dirty
      ensures m == Record(old(m), k, s, now, policy)
      ensures old(dirty) || Durable(m) != Durable(old(m)) ==> dirty
    {
      var ck := k.Cred();
      match s.outcome {
        case ClientCancelled =>
          ReleaseProbeLocked(k);
          ReleaseProbeLocked(ck);
        case RetryableModel =>
          ReleaseProbeLocked(k);
          ReleaseProbeLocked(ck);
        case Success =>
          ResetLocked(k);
          ResetLocked(ck);
        case Fatal =>
          ResetLocked(k);
          ReleaseProbeLocked(ck);
        case RetryableCredential =>
          ReleaseProbeLocked(k);
          CoolLocked(ck, Get(m, ck), now);
        case RetryableProvider =>
          ReleaseProbeLocked(ck);
          var st := Get(m, k);
          if s.retryAfter.Some? {
            var d := if s.retryAfter.value > policy.max then policy.max else s.retryAfter.value;
            m := m[k := st.(coolingUntil := Some(now + d), retryAfterOnly := true, probing := false)];
            dirty := true;
          } else if s.status == 429 {
            CoolLocked(k, st, now);
          } else {
            st := st.(failures := st.failures + 1, probing := false);
            m := m[k := st];
            dirty := true;
            if st.failures >= policy.tripAfter { CoolLocked(k, st, now); }
          }
      }
    }

    method ReleaseProbe(k: Key)
      modifies this`m, this`dirty
      ensures m == ReleaseBoth(old(m), k)
      ensures Durable(m) == Durable(old(m))
    {
      ReleaseProbeLocked(k);
      ReleaseProbeLocked(k.Cred());
    }

    method ReleaseProbeLocked(k: Key)
      modifies this`m, this`dirty
      ensures m == Release(old(m), k) && Durable(m) == Durable(old(m)) && (old(dirty) ==> dirty)
    {
      if k in m && m[k].probing {
        m := m[k := m[k].(probing := false)];
        dirty := true;
      }
    }

    method ResetLocked(k: Key)
      modifies this`m, this`dirty
      ensures m == old(m) - {k}
      ensures old(dirty) || m != old(m) ==> dirty
      ensures m == old(m) ==> Durable(m) == Durable(old(m))
    {
      if k in m {
        m := m - {k};
        dirty := true;
      } else {
        assert m - {k} == m;
      }
    }

    method CoolLocked(k: Key, st: Entry, now: int)
      requires policy.Clamped()
      modifies this`m, this`dirty
      ensures m == old(m)[k := Cool(st, now, policy)] && dirty
    {
      var d := CooldownFor(st.level, policy.max as Duration);
      m := m[k := st.(coolingUntil := Some(now + d as int), level := st.level + 1,
                      retryAfterOnly := false, probing := false)];
      dirty := true;
    }

    /** Built by a loop over the entries; the breaker is only read. */
    method SnapshotAvailability(at: int) returns (cooling: set<Key>)
      ensures cooling == CoolingAt(m, at)
    {
      cooling := {};
      var todo := m.Keys;
      while todo != {}
        invariant todo <= m.Keys
        invariant cooling == set k | k in m && k !in todo && m[k].coolingUntil.Some? && at < m[k].coolingUntil.value
        decreases |todo|
      {
        var k :| k in todo;
        todo := todo - {k};
        if m[k].coolingUntil.Some? && at < m[k].coolingUntil.value { cooling := cooling + {k}; }
      }
    }

    method Snapshot() returns (saved: seq<Saved>)
      ensures Lists(saved, m)
    {
      saved := [];
      var todo := m.Keys;
      while todo != {}
        invariant todo <= m.Keys
        invariant forall i | 0 <= i < |saved| :: saved[i].key in m && saved[i].key !in todo
                                                 && saved[i] == SaveEntry(saved[i].key, m[saved[i].key])
        invariant forall k | k in m && k !in todo :: SaveEntry(k, m[k]) in saved
        invariant forall i, j | 0 <= i < j < |saved| :: saved[i].key != saved[j].key
        decreases |todo|
      {
        var k :| k in todo;
        todo := todo - {k};
        saved := saved + [SaveEntry(k, m[k])];
      }
    }

    method Rehydrate(saved: seq<Saved>, now: int)
      modifies this`m
      ensures m == Rehydrated(old(m), saved, now)
    {
      var i := 0;
      assert saved[0..] == saved;
      while i < |saved|
        invariant 0 <= i <= |saved|
        invariant Rehydrated(m, saved[i..], now) == Rehydrated(old(m), saved, now)
      {
        m := m[saved[i].key := Restore(saved[i], now)];
        assert saved[i..][1..] == saved[i + 1..];
        i := i + 1;
      }
    }
  }
}
