/** The login limiter: a token bucket per client name over a bounded map with a
    recency list (internal/admin/ratelimit.go). Instants are nanoseconds; tokens and
    rates are reals. */
module RateLimit {
  const MAX_BUCKETS: nat := 4096
  const LOCAL_PREFIX_FACTOR: real := 10.0

  datatype Bucket = Bucket(tokens: real, last: int)

  /** The map and, most recently seen first, its keys. */
  datatype State = State(buckets: map<string, Bucket>, recency: seq<string>)

  datatype Limits = Limits(rate: real, burst: real)

  /** One call: the client's key, its local /64 or "", and its clock reading. Calls
      are ordered as they take the lock; the clock is read before that. */
  datatype Call = Call(key: string, prefix: string, now: int)

  function Seconds(d: int): real {
    d as real / 1000000000.0
  }

  function Min(a: real, b: real): real {
    if a <= b then a else b
  }

  function TopUp(b: Bucket, burst: real, rate: real, now: int): Bucket {
    Bucket(Min(burst, b.tokens + Seconds(now - b.last) * rate), now)
  }

  /** Retry-After, truncated to whole nanoseconds. */
  function Wait(b: Bucket, rate: real): int
    requires rate > 0.0
  {
    ((1.0 - b.tokens) / rate * 1000000000.0).Floor
  }

  // ------------------------------------------------------ the recency list

  ghost predicate Distinct(r: seq<string>) {
    forall i, j | 0 <= i < j < |r| :: r[i] != r[j]
  }

  ghost predicate Valid(s: State) {
    && Distinct(s.recency)
    && (forall k :: k in s.recency <==> k in s.buckets)
    && |s.recency| <= MAX_BUCKETS
  }

  function Without(r: seq<string>, k: string): seq<string> {
    if r == [] then []
    else if r[0] == k then r[1..]
    else [r[0]] + Without(r[1..], k)
  }

  /** The names seen more recently than k. */
  ghost function Before(r: seq<string>, k: string): set<string> {
    if r == [] || r[0] == k then {} else {r[0]} + Before(r[1..], k)
  }

  lemma {:induction false} WithoutFacts(r: seq<string>, n: string)
    requires Distinct(r)
    ensures Distinct(Without(r, n))
    ensures forall k :: k in Without(r, n) <==> k in r && k != n
    ensures |Without(r, n)| == if n in r then |r| - 1 else |r|
  {
    if r != [] {
      assert r == [r[0]] + r[1..];
      assert forall k | k in r[1..] :: k != r[0];
      if r[0] != n {
        WithoutFacts(r[1..], n);
        assert r[0] !in Without(r[1..], n);
      }
    }
  }

  lemma {:induction false} BeforeWithout(r: seq<string>, n: string, k: string)
    requires n != k
    ensures Before(Without(r, n), k) <= Before(r, k)
  {
    if r != [] && r[0] != n {
      BeforeWithout(r[1..], n, k);
      assert Without(r, n)[1..] == Without(r[1..], n);
    }
  }

  lemma {:induction false} BeforeDropLast(r: seq<string>, k: string)
    requires r != [] && k in r[..|r| - 1]
    ensures Before(r[..|r| - 1], k) == Before(r, k)
  {
    var t := r[..|r| - 1];
    if r[0] != k {
      assert t == [t[0]] + t[1..] && t[1..] == r[1..][..|r| - 2];
      BeforeDropLast(r[1..], k);
    }
  }

  /** All the others are more recent than the last. */
  lemma {:induction false} BeforeLast(r: seq<string>)
    requires Distinct(r) && r != []
    ensures var k := r[|r| - 1];
            |Before(r, k)| == |r| - 1 && forall x | x in Before(r, k) :: x in r && x != k
  {
    if |r| > 1 {
      BeforeLast(r[1..]);
      assert forall x | x in r[1..] :: x in r && x != r[0];
    }
  }

  lemma {:induction false} SizeOf(m: map<string, Bucket>, r: seq<string>)
    requires Distinct(r) && forall k :: k in r <==> k in m
    ensures |m| == |r|
  {
    if r == [] {
      assert m.Keys == {};
    } else {
      var k, r' := r[0], r[1..];
      var m' := m - {k};
      assert forall x :: x in r <==> x == k || x in r';
      assert k !in r';
      SizeOf(m', r');
      assert m.Keys == m'.Keys + {k};
    }
  }

  // -------------------------------------------------------------- refill

  function Evicted(s: State): State
    requires s.recency != []
  {
    var oldest := s.recency[|s.recency| - 1];
    State(s.buckets - {oldest}, s.recency[..|s.recency| - 1])
  }

  /** Finds or makes the bucket named k, puts it in front and tops it up. */
  function Refill(s: State, k: string, burst: real, rate: real, now: int): State {
    if k in s.buckets then
      State(s.buckets[k := TopUp(s.buckets[k], burst, rate, now)], [k] + Without(s.recency, k))
    else
      var t := if |s.buckets| >= MAX_BUCKETS && s.recency != [] then Evicted(s) else s;
      State(t.buckets[k := TopUp(Bucket(burst, now), burst, rate, now)], [k] + t.recency)
  }

  /** What the bucket held before its top-up: a new one starts full. */
  function Held(s: State, k: string, burst: real, now: int): Bucket {
    if k in s.buckets then s.buckets[k] else Bucket(burst, now)
  }

  lemma EvictedFacts(s: State)
    requires Valid(s) && s.recency != []
    ensures Valid(Evicted(s)) && |Evicted(s).recency| < MAX_BUCKETS
    ensures forall x | x in Evicted(s).buckets ::
              x in s.buckets && x in s.recency && Evicted(s).buckets[x] == s.buckets[x]
  {
    var n := |s.recency| - 1;
    assert s.recency == s.recency[..n] + [s.recency[n]];
  }

  lemma FullIsListed(s: State)
    requires Valid(s)
    ensures |s.buckets| == |s.recency|
  {
    SizeOf(s.buckets, s.recency);
  }

  lemma FoundKeeps(s: State, k: string, b: Bucket)
    requires Valid(s) && k in s.buckets
    ensures Valid(State(s.buckets[k := b], [k] + Without(s.recency, k)))
  {
    WithoutFacts(s.recency, k);
  }

  lemma AddedKeeps(s: State, k: string, b: Bucket)
    requires Valid(s) && k !in s.buckets && |s.recency| < MAX_BUCKETS
    ensures Valid(State(s.buckets[k := b], [k] + s.recency))
  {
  }

  /** The map and the list keep the same distinct names, never above the bound; the
      named bucket is in front, and no other bucket is touched. */
  lemma RefillFacts(s: State, k: string, burst: real, rate: real, now: int)
    requires Valid(s)
    ensures var s' := Refill(s, k, burst, rate, now);
            && Valid(s') && |s'.recency| <= 4096 && k in s'.buckets && s'.recency[0] == k
            && s'.buckets[k] == TopUp(Held(s, k, burst, now), burst, rate, now)
            && forall x | x in s'.buckets && x != k :: x in s.buckets && s'.buckets[x] == s.buckets[x]
  {
    hide TopUp, Evicted, Valid, Without;
    FullIsListed(s);
    if k in s.buckets {
      FoundKeeps(s, k, TopUp(s.buckets[k], burst, rate, now));
    } else if |s.buckets| >= MAX_BUCKETS {
      EvictedFacts(s);
      AddedKeeps(Evicted(s), k, TopUp(Bucket(burst, now), burst, rate, now));
    } else {
      AddedKeeps(s, k, TopUp(Bucket(burst, now), burst, rate, now));
    }
    ValidIsBounded(Refill(s, k, burst, rate, now));
  }

  lemma ValidIsBounded(s: State)
    ensures Valid(s) ==> |s.recency| <= 4096
  {
  }

  lemma BeforeCons(n: string, r: seq<string>, k: string)
    ensures Before([n] + r, k) == if n == k then {} else {n} + Before(r, k)
  {
    assert ([n] + r)[1..] == r;
  }

  /** Making room takes k only if every other slot is more recent. */
  lemma EvictedOrder(s: State, k: string)
    requires Valid(s) && k in s.buckets && |s.recency| == MAX_BUCKETS
    ensures k in Evicted(s).buckets ==> Before(Evicted(s).recency, k) == Before(s.recency, k)
    ensures k !in Evicted(s).buckets ==>
              |Before(s.recency, k)| == MAX_BUCKETS - 1 && forall x | x in Before(s.recency, k) :: x in s.buckets
  {
    hide Before;
    var r := s.recency;
    EvictedFacts(s);
    if k in Evicted(s).buckets { BeforeDropLast(r, k); } else { BeforeLast(r); }
  }

  /** A name leaves only when the bound's worth of others have been seen since. */
  lemma RefillOrder(s: State, n: string, burst: real, rate: real, now: int, k: string)
    requires Valid(s)
    ensures var s' := Refill(s, n, burst, rate, now);
            && (n == k ==> Before(s'.recency, k) == {})
            && (n != k && k in s.buckets && |Before(s.recency, k) + {n}| < MAX_BUCKETS ==>
                  k in s'.buckets && Before(s'.recency, k) <= Before(s.recency, k) + {n})
  {
    hide TopUp, Before, Without;
    SizeOf(s.buckets, s.recency);
    if n in s.buckets {
      BeforeCons(n, Without(s.recency, n), k);
      if n != k { BeforeWithout(s.recency, n, k); }
    } else if |s.recency| == MAX_BUCKETS {
      BeforeCons(n, Evicted(s).recency, k);
      if n != k && k in s.buckets { EvictedOrder(s, k); }
    } else {
      BeforeCons(n, s.recency, k);
    }
  }

  // --------------------------------------------------------------- allow

  function Net(prefix: string): string {
    "net " + prefix
  }

  /** The names of shared buckets; no client address reads like one. */
  predicate IsNet(k: string) {
    |k| >= 4 && k[..4] == "net "
  }

  function Spend(s: State, k: string): State
    requires k in s.buckets
  {
    State(s.buckets[k := Bucket(s.buckets[k].tokens - 1.0, s.buckets[k].last)], s.recency)
  }

  lemma SpendKeeps(s: State, k: string)
    requires Valid(s) && k in s.buckets
    ensures Valid(Spend(s, k))
  {
  }

  /** The client's bucket outlives the refill of its network's. */
  lemma NetRefill(l: Limits, s: State, c: Call)
    requires Valid(s)
    ensures var s1 := Refill(s, c.key, l.burst, l.rate, c.now);
            var s2 := Refill(s1, Net(c.prefix), l.burst * LOCAL_PREFIX_FACTOR, l.rate * LOCAL_PREFIX_FACTOR, c.now);
            && Valid(s2) && c.key in s2.buckets && Net(c.prefix) in s2.buckets
            && (forall x | x in s2.buckets && x != Net(c.prefix) :: x in s1.buckets && s2.buckets[x] == s1.buckets[x])
            && s2.buckets[Net(c.prefix)]
               == TopUp(Held(s1, Net(c.prefix), l.burst * LOCAL_PREFIX_FACTOR, c.now),
                        l.burst * LOCAL_PREFIX_FACTOR, l.rate * LOCAL_PREFIX_FACTOR, c.now)
  {
    hide TopUp, Refill, Before, Valid;
    RefillFacts(s, c.key, l.burst, l.rate, c.now);
    RefillOrder(s, c.key, l.burst, l.rate, c.now, c.key);
    var s1 := Refill(s, c.key, l.burst, l.rate, c.now);
    RefillFacts(s1, Net(c.prefix), l.burst * LOCAL_PREFIX_FACTOR, l.rate * LOCAL_PREFIX_FACTOR, c.now);
    RefillOrder(s1, Net(c.prefix), l.burst * LOCAL_PREFIX_FACTOR, l.rate * LOCAL_PREFIX_FACTOR, c.now, c.key);
  }

  datatype Verdict = Verdict(s: State, ok: bool, retryAfter: int)

  /** allow: spends from the client's bucket and its network's, or from neither. */
  function Allow(l: Limits, s: State, c: Call): Verdict
    requires l.rate > 0.0 && Valid(s)
  {
    RefillFacts(s, c.key, l.burst, l.rate, c.now);
    var s1 := Refill(s, c.key, l.burst, l.rate, c.now);
    if s1.buckets[c.key].tokens < 1.0 then Verdict(s1, false, Wait(s1.buckets[c.key], l.rate))
    else if c.prefix == "" then Verdict(Spend(s1, c.key), true, 0)
    else
      var rate := l.rate * LOCAL_PREFIX_FACTOR;
      var net := Net(c.prefix);
      NetRefill(l, s, c);
      var s2 := Refill(s1, net, l.burst * LOCAL_PREFIX_FACTOR, rate, c.now);
      if s2.buckets[net].tokens < 1.0 then Verdict(s2, false, Wait(s2.buckets[net], rate))
      else Verdict(Spend(Spend(s2, net), c.key), true, 0)
  }

  function BurstOf(l: Limits, k: string): real {
    if IsNet(k) then l.burst * LOCAL_PREFIX_FACTOR else l.burst
  }

  function RateOf(l: Limits, k: string): real {
    if IsNet(k) then l.rate * LOCAL_PREFIX_FACTOR else l.rate
  }

  /** The buckets a call looks at: its network's only once its own has a token. */
  ghost function Touches(l: Limits, s: State, c: Call): set<string>
    requires l.rate > 0.0 && Valid(s)
  {
    if c.prefix != "" && TopUp(Held(s, c.key, l.burst, c.now), l.burst, l.rate, c.now).tokens >= 1.0
    then {c.key, Net(c.prefix)} else {c.key}
  }

  /** The buckets an allowed call is charged to. */
  function Pays(c: Call): set<string> {
    if c.prefix == "" then {c.key} else {c.key, Net(c.prefix)}
  }

  /** What bucket k holds when the call comes to top it up. Room made for the client
      may push out its own network's bucket, which then starts full. */
  ghost function Prior(l: Limits, s: State, c: Call, k: string): Bucket {
    if k == c.key then Held(s, k, BurstOf(l, k), c.now)
    else Held(Refill(s, c.key, l.burst, l.rate, c.now), k, BurstOf(l, k), c.now)
  }

  /** The call does not push k out, not even to put it back. */
  ghost predicate Keeps(l: Limits, s: State, c: Call, k: string)
    requires l.rate > 0.0 && Valid(s)
  {
    k in s.buckets ==> k in Refill(s, c.key, l.burst, l.rate, c.now).buckets && k in Allow(l, s, c).s.buckets
  }

  lemma PriorKept(l: Limits, s: State, c: Call, k: string)
    requires l.rate > 0.0 && Valid(s) && Keeps(l, s, c, k)
    ensures Prior(l, s, c, k) == Held(s, k, BurstOf(l, k), c.now)
  {
    hide TopUp, Refill, Wait, Before, Valid;
    RefillFacts(s, c.key, l.burst, l.rate, c.now);
  }

  /** All one call does: each bucket it looks at is topped up and, if the call is
      allowed, had a whole token and gave one; it still is in the map. No other bucket
      is changed. */
  lemma OneCall(l: Limits, s: State, c: Call, k: string)
    requires l.rate > 0.0 && Valid(s) && !IsNet(c.key)
    ensures var v := Allow(l, s, c);
            && Valid(v.s)
            && (v.ok ==> Touches(l, s, c) == Pays(c))
            && (k in Touches(l, s, c) ==>
                  var b := TopUp(Prior(l, s, c, k), BurstOf(l, k), RateOf(l, k), c.now);
                  && k in v.s.buckets && v.s.buckets[k].last == b.last
                  && (v.ok ==> b.tokens >= 1.0)
                  && v.s.buckets[k].tokens == if v.ok then b.tokens - 1.0 else b.tokens)
            && (k !in Touches(l, s, c) && k in v.s.buckets ==>
                  k in s.buckets && v.s.buckets[k] == s.buckets[k])
  {
    hide TopUp, Refill, Wait, Before, Valid;
    assert Net(c.prefix)[..4] == "net ";
    RefillFacts(s, c.key, l.burst, l.rate, c.now);
    var s1 := Refill(s, c.key, l.burst, l.rate, c.now);
    if s1.buckets[c.key].tokens >= 1.0 {
      if c.prefix == "" {
        SpendKeeps(s1, c.key);
      } else {
        NetRefill(l, s, c);
        var s2 := Refill(s1, Net(c.prefix), l.burst * LOCAL_PREFIX_FACTOR, l.rate * LOCAL_PREFIX_FACTOR, c.now);
        SpendKeeps(s2, Net(c.prefix));
        SpendKeeps(Spend(s2, Net(c.prefix)), c.key);
      }
    }
  }

  /** A call is allowed exactly when each bucket it would be charged to holds a token;
      a refused one is told the wait of the first that does not. */
  lemma AllowedExactly(l: Limits, s: State, c: Call)
    requires l.rate > 0.0 && Valid(s) && !IsNet(c.key)
    ensures var v := Allow(l, s, c);
            && (v.ok <==> forall k | k in Pays(c) ::
                            TopUp(Prior(l, s, c, k), BurstOf(l, k), RateOf(l, k), c.now).tokens >= 1.0)
            && (!v.ok ==>
                  var k := if TopUp(Prior(l, s, c, c.key), l.burst, l.rate, c.now).tokens < 1.0 then c.key else Net(c.prefix);
                  v.retryAfter == Wait(TopUp(Prior(l, s, c, k), BurstOf(l, k), RateOf(l, k), c.now), RateOf(l, k)))
  {
    hide TopUp, Refill, Wait, Before, Valid;
    assert Net(c.prefix)[..4] == "net ";
    RefillFacts(s, c.key, l.burst, l.rate, c.now);
    NetRefill(l, s, c);
    assert c.key in Pays(c) && (c.prefix != "" ==> Net(c.prefix) in Pays(c));
  }

  // ------------------------------------------------------------ whole runs

  predicate Clients(calls: seq<Call>) {
    forall c | c in calls :: !IsNet(c.key)
  }

  ghost function Run(l: Limits, s: State, calls: seq<Call>): (r: State)
    requires l.rate > 0.0 && Valid(s) && Clients(calls)
    ensures Valid(r)
  {
    if calls == [] then s
    else
      var n := |calls| - 1;
      var t := Run(l, s, calls[..n]);
      OneCall(l, t, calls[n], "");
      Allow(l, t, calls[n]).s
  }

  /** How many of the calls were allowed and charged to k. */
  ghost function Charged(l: Limits, s: State, calls: seq<Call>, k: string): nat
    requires l.rate > 0.0 && Valid(s) && Clients(calls)
  {
    if calls == [] then 0
    else
      var n := |calls| - 1;
      Charged(l, s, calls[..n], k)
      + (if Allow(l, Run(l, s, calls[..n]), calls[n]).ok && k in Pays(calls[n]) then 1 else 0)
  }

  /** The buckets looked at during the run. */
  ghost function Seen(l: Limits, s: State, calls: seq<Call>): set<string>
    requires l.rate > 0.0 && Valid(s) && Clients(calls)
  {
    if calls == [] then {}
    else
      var n := |calls| - 1;
      Seen(l, s, calls[..n]) + Touches(l, Run(l, s, calls[..n]), calls[n])
  }

  /** From its first use in the run on, k's bucket is never pushed out. */
  ghost predicate NeverDropped(l: Limits, s: State, calls: seq<Call>, k: string)
    requires l.rate > 0.0 && Valid(s) && Clients(calls)
  {
    calls == [] ||
    var n := |calls| - 1;
    && NeverDropped(l, s, calls[..n], k)
    && (k in Seen(l, s, calls[..n]) ==> Keeps(l, Run(l, s, calls[..n]), calls[n], k))
  }

  lemma Distribute(rate: real, a: int, b: int)
    ensures Seconds(a) * rate + Seconds(b) * rate == Seconds(a + b) * rate
  {
    assert Seconds(a) + Seconds(b) == Seconds(a + b);
  }

  lemma LongerIsMore(rate: real, a: int, b: int)
    requires rate > 0.0 && a <= b
    ensures Seconds(a) * rate <= Seconds(b) * rate
  {
    assert Seconds(a) <= Seconds(b);
  }

  /** What a window starting at t0 may have given out, up to t. */
  ghost function Ceiling(l: Limits, k: string, t0: int, t: int): real {
    BurstOf(l, k) + Seconds(t - t0) * RateOf(l, k)
  }

  /** A top-up keeps what is given out plus what is left under the ceiling. */
  lemma TopUpUnderCeiling(l: Limits, k: string, t0: int, b: Bucket, now: int, given: real)
    requires l.rate > 0.0 && given + b.tokens <= Ceiling(l, k, t0, b.last)
    ensures given + TopUp(b, BurstOf(l, k), RateOf(l, k), now).tokens <= Ceiling(l, k, t0, now)
  {
    Distribute(RateOf(l, k), b.last - t0, now - b.last);
  }

  lemma FreshUnderCeiling(l: Limits, k: string, t0: int, b: Bucket, now: int)
    requires l.rate > 0.0 && t0 <= now
    ensures TopUp(b, BurstOf(l, k), RateOf(l, k), now).tokens <= Ceiling(l, k, t0, now)
  {
    LongerIsMore(RateOf(l, k), 0, now - t0);
  }

  /** In any window of clock readings, a bucket that is not pushed out gives at most
      its burst plus its rate times the window, whatever it held before and however
      the readings are ordered. For a local /64 both are ten times an address's. */
  lemma {:induction false} WindowBound(l: Limits, s: State, calls: seq<Call>, k: string, t0: int, t1: int)
    requires l.rate > 0.0 && l.burst >= 0.0 && Valid(s) && Clients(calls) && t0 <= t1
    requires forall c | c in calls :: t0 <= c.now <= t1
    requires NeverDropped(l, s, calls, k)
    ensures Charged(l, s, calls, k) as real <= Ceiling(l, k, t0, t1)
    ensures k !in Seen(l, s, calls) ==> Charged(l, s, calls, k) == 0
    ensures k in Seen(l, s, calls) ==>
              && k in Run(l, s, calls).buckets
              && var b := Run(l, s, calls).buckets[k];
                 Charged(l, s, calls, k) as real + b.tokens <= Ceiling(l, k, t0, b.last)
  {
    hide Valid, Refill, TopUp, Wait, Ceiling, Touches, Keeps, Prior, Allow, Pays, Held;
    if calls == [] {
      FreshUnderCeiling(l, k, t0, Bucket(BurstOf(l, k), t1), t1);
      EmptyWindow(l, k, t0, t1);
    } else {
      var n := |calls| - 1;
      var t, c := Run(l, s, calls[..n]), calls[n];
      WindowBound(l, s, calls[..n], k, t0, t1);
      var given := Charged(l, s, calls[..n], k);
      WindowStep(l, t, c, k, t0, t1, given, k in Seen(l, s, calls[..n]));
    }
  }

  lemma EmptyWindow(l: Limits, k: string, t0: int, t1: int)
    requires l.rate > 0.0 && l.burst >= 0.0 && t0 <= t1
    ensures 0.0 <= Ceiling(l, k, t0, t1)
  {
    LongerIsMore(RateOf(l, k), 0, t1 - t0);
  }

  /** One call of the window. */
  lemma WindowStep(l: Limits, s: State, c: Call, k: string, t0: int, t1: int, given: nat, seen: bool)
    requires l.rate > 0.0 && Valid(s) && !IsNet(c.key) && t0 <= c.now <= t1
    requires given as real <= Ceiling(l, k, t0, t1)
    requires seen ==> k in s.buckets && given as real + s.buckets[k].tokens <= Ceiling(l, k, t0, s.buckets[k].last)
    requires !seen ==> given == 0
    requires seen ==> Keeps(l, s, c, k)
    ensures var v := Allow(l, s, c);
            var given' := given + if v.ok && k in Pays(c) then 1 else 0;
            && given' as real <= Ceiling(l, k, t0, t1)
            && (k in Touches(l, s, c) || seen ==>
                  k in v.s.buckets && given' as real + v.s.buckets[k].tokens <= Ceiling(l, k, t0, v.s.buckets[k].last))
            && (k !in Touches(l, s, c) && !seen ==> given' == 0)
  {
    hide Valid, Refill, TopUp, Wait, Ceiling, Touches, Prior, Allow, Pays, Held;
    OneCall(l, s, c, k);
    if k in Touches(l, s, c) {
      var p := Prior(l, s, c, k);
      if seen {
        PriorKept(l, s, c, k);
        HeldIs(l, s, k, c.now);
        TopUpUnderCeiling(l, k, t0, p, c.now, given as real);
      } else {
        FreshUnderCeiling(l, k, t0, p, c.now);
      }
      TopUpLast(l, p, k, c.now);
      CeilingGrows(l, k, t0, c.now, t1);
    }
  }

  lemma HeldIs(l: Limits, s: State, k: string, now: int)
    ensures k in s.buckets ==> Held(s, k, BurstOf(l, k), now) == s.buckets[k]
  {
  }

  lemma TopUpLast(l: Limits, b: Bucket, k: string, now: int)
    ensures TopUp(b, BurstOf(l, k), RateOf(l, k), now).last == now
  {
  }

  lemma CeilingGrows(l: Limits, k: string, t0: int, t: int, t1: int)
    requires l.rate > 0.0 && t <= t1
    ensures Ceiling(l, k, t0, t) <= Ceiling(l, k, t0, t1)
  {
    LongerIsMore(RateOf(l, k), t - t0, t1 - t0);
  }

  /** The calls allowed for clients of the local network p. */
  ghost function AllowedIn(l: Limits, s: State, calls: seq<Call>, p: string): nat
    requires l.rate > 0.0 && Valid(s) && Clients(calls)
  {
    if calls == [] then 0
    else
      var n := |calls| - 1;
      AllowedIn(l, s, calls[..n], p)
      + (if Allow(l, Run(l, s, calls[..n]), calls[n]).ok && calls[n].prefix == p then 1 else 0)
  }

  lemma {:induction false} NetworkPays(l: Limits, s: State, calls: seq<Call>, p: string)
    requires l.rate > 0.0 && Valid(s) && Clients(calls) && p != ""
    ensures AllowedIn(l, s, calls, p) == Charged(l, s, calls, Net(p))
  {
    hide Valid, Allow, Run;
    if calls != [] {
      var n := |calls| - 1;
      NetworkPays(l, s, calls[..n], p);
      var c := calls[n];
      assert Net(p)[..4] == "net " && Net(p)[4..] == p && Net(c.prefix)[4..] == c.prefix;
      assert Net(p) in Pays(c) <==> c.prefix == p;
    }
  }

  /** However many addresses a local /64 uses, together they get ten allowances. */
  lemma LocalNetworkBound(l: Limits, s: State, calls: seq<Call>, p: string, t0: int, t1: int)
    requires l.rate > 0.0 && l.burst >= 0.0 && Valid(s) && Clients(calls) && t0 <= t1 && p != ""
    requires forall c | c in calls :: t0 <= c.now <= t1
    requires NeverDropped(l, s, calls, Net(p))
    ensures AllowedIn(l, s, calls, p) as real <= 10.0 * (l.burst + Seconds(t1 - t0) * l.rate)
  {
    hide Valid, AllowedIn, Charged, Run, NeverDropped;
    NetworkPays(l, s, calls, p);
    WindowBound(l, s, calls, Net(p), t0, t1);
    assert Net(p)[..4] == "net ";
    assert Seconds(t1 - t0) * (l.rate * 10.0) == 10.0 * (Seconds(t1 - t0) * l.rate);
  }

  // ---------------------------------------------------- who is pushed out

  /** Bucket k is in the map, and only names in o have been seen since. */
  ghost predicate Behind(s: State, k: string, o: set<string>) {
    k in s.buckets && Before(s.recency, k) <= o
  }

  lemma Within(a: set<string>, b: set<string>)
    requires a <= b
    ensures |a| <= |b|
  {
    assert b == a + (b - a);
  }

  lemma RefillBehind(s: State, n: string, burst: real, rate: real, now: int, k: string, o: set<string>)
    requires Valid(s) && n in o + {k} && |o| < MAX_BUCKETS
    requires n == k || Behind(s, k, o)
    ensures Behind(Refill(s, n, burst, rate, now), k, o)
  {
    hide Refill, Before, Valid;
    RefillFacts(s, n, burst, rate, now);
    RefillOrder(s, n, burst, rate, now, k);
    if n != k { Within(Before(s.recency, k) + {n}, o); }
  }

  /** Charging moves nothing: the names are as the refills left them. */
  lemma AllowShape(l: Limits, s: State, c: Call)
    requires l.rate > 0.0 && Valid(s)
    ensures var s1 := Refill(s, c.key, l.burst, l.rate, c.now);
            var s2 := Refill(s1, Net(c.prefix), l.burst * LOCAL_PREFIX_FACTOR, l.rate * LOCAL_PREFIX_FACTOR, c.now);
            var s' := if c.prefix != "" && s1.buckets[c.key].tokens >= 1.0 then s2 else s1;
            && Allow(l, s, c).s.recency == s'.recency && Allow(l, s, c).s.buckets.Keys == s'.buckets.Keys
            && Touches(l, s, c) == if c.prefix != "" && s1.buckets[c.key].tokens >= 1.0 then {c.key, Net(c.prefix)} else {c.key}
  {
    hide TopUp, Refill, Wait, Before, Valid;
    RefillFacts(s, c.key, l.burst, l.rate, c.now);
    NetRefill(l, s, c);
  }

  /** One call keeps k behind the names it looks at and those k was behind. */
  lemma CallOrder(l: Limits, s: State, c: Call, k: string, o: set<string>)
    requires l.rate > 0.0 && Valid(s) && !IsNet(c.key) && |o| < MAX_BUCKETS && Touches(l, s, c) <= o + {k}
    requires k in Touches(l, s, c) || Behind(s, k, o)
    ensures Behind(Allow(l, s, c).s, k, o)
    ensures Behind(s, k, o) ==> Keeps(l, s, c, k)
  {
    hide TopUp, Refill, Wait, Before, Valid, Touches, Allow;
    RefillFacts(s, c.key, l.burst, l.rate, c.now);
    AllowShape(l, s, c);
    var net := Net(c.prefix);
    var s1 := Refill(s, c.key, l.burst, l.rate, c.now);
    if c.key == k || Behind(s, k, o) { RefillBehind(s, c.key, l.burst, l.rate, c.now, k, o); }
    if c.prefix != "" && s1.buckets[c.key].tokens >= 1.0 {
      RefillBehind(s1, net, l.burst * LOCAL_PREFIX_FACTOR, l.rate * LOCAL_PREFIX_FACTOR, c.now, k, o);
    }
  }

  lemma {:induction false} SeenBefore(l: Limits, s: State, calls: seq<Call>, k: string, o: set<string>)
    requires l.rate > 0.0 && Valid(s) && Clients(calls) && |o| < MAX_BUCKETS
    requires Seen(l, s, calls) <= o + {k}
    ensures NeverDropped(l, s, calls, k)
    ensures k in Seen(l, s, calls) ==> Behind(Run(l, s, calls), k, o)
  {
    hide Valid, Behind, Touches, Allow, Keeps;
    if calls != [] {
      var n := |calls| - 1;
      var t := Run(l, s, calls[..n]);
      SeenBefore(l, s, calls[..n], k, o);
      if k in Seen(l, s, calls) { CallOrder(l, t, calls[n], k, o); }
    }
  }

  /** A client is pushed out only by the bound's worth of others: with fewer other
      names about, all in `others`, the limit holds with no more said. */
  lemma LimitUnlessCrowded(l: Limits, s: State, calls: seq<Call>, k: string, others: set<string>, t0: int, t1: int)
    requires l.rate > 0.0 && l.burst >= 0.0 && Valid(s) && Clients(calls) && t0 <= t1
    requires forall c | c in calls :: t0 <= c.now <= t1
    requires |others| < 4096 && Seen(l, s, calls) <= others + {k}
    ensures Charged(l, s, calls, k) as real <= BurstOf(l, k) + Seconds(t1 - t0) * RateOf(l, k)
  {
    hide Valid, Charged, Run, NeverDropped, Seen;
    SeenBefore(l, s, calls, k, others);
    WindowBound(l, s, calls, k, t0, t1);
  }

  // ------------------------------------------------------ tokens and waits

  ghost predicate InRange(l: Limits, s: State, now: int) {
    forall k | k in s.buckets :: 0.0 <= s.buckets[k].tokens <= BurstOf(l, k) && s.buckets[k].last <= now
  }

  lemma TopUpInRange(l: Limits, b: Bucket, k: string, now: int)
    requires l.rate > 0.0 && l.burst >= 0.0
    ensures TopUp(b, BurstOf(l, k), RateOf(l, k), now).tokens <= BurstOf(l, k)
    ensures b.tokens >= 0.0 && b.last <= now ==> TopUp(b, BurstOf(l, k), RateOf(l, k), now).tokens >= 0.0
    ensures TopUp(b, BurstOf(l, k), RateOf(l, k), now).last == now
  {
    if b.last <= now { LongerIsMore(RateOf(l, k), 0, now - b.last); }
  }

  lemma RefillInRange(l: Limits, s: State, n: string, now: int)
    requires l.rate > 0.0 && l.burst >= 0.0 && Valid(s) && InRange(l, s, now)
    ensures InRange(l, Refill(s, n, BurstOf(l, n), RateOf(l, n), now), now)
  {
    hide Valid, Refill, TopUp, BurstOf, RateOf;
    RefillFacts(s, n, BurstOf(l, n), RateOf(l, n), now);
    var b := Held(s, n, BurstOf(l, n), now);
    BurstIsPositive(l, n);
    TopUpInRange(l, b, n, now);
  }

  lemma BurstIsPositive(l: Limits, k: string)
    requires l.burst >= 0.0
    ensures BurstOf(l, k) >= 0.0
  {
  }

  /** One call with a reading no older than the last. */
  lemma CallInRange(l: Limits, s: State, c: Call, before: int)
    requires l.rate > 0.0 && l.burst >= 0.0 && Valid(s) && !IsNet(c.key)
    requires InRange(l, s, before) && before <= c.now
    ensures InRange(l, Allow(l, s, c).s, c.now)
  {
    hide Valid, Refill, TopUp, BurstOf, RateOf, Allow, Touches, Prior;
    forall k | k in Allow(l, s, c).s.buckets
      ensures var b := Allow(l, s, c).s.buckets[k]; 0.0 <= b.tokens <= BurstOf(l, k) && b.last <= c.now
    {
      OneCall(l, s, c, k);
      PriorInRange(l, s, c, k);
      TopUpInRange(l, Prior(l, s, c, k), k, c.now);
    }
  }

  lemma PriorInRange(l: Limits, s: State, c: Call, k: string)
    requires l.rate > 0.0 && l.burst >= 0.0 && Valid(s) && InRange(l, s, c.now) && !IsNet(c.key)
    ensures Prior(l, s, c, k).tokens >= 0.0 && Prior(l, s, c, k).last <= c.now
  {
    hide Valid, Refill;
    RefillInRange(l, s, c.key, c.now);
  }

  /** Readings taken one after another, none before `start`. */
  predicate Rising(calls: seq<Call>, start: int) {
    && (forall c | c in calls :: start <= c.now)
    && forall i, j | 0 <= i < j < |calls| :: calls[i].now <= calls[j].now
  }

  function Latest(calls: seq<Call>, start: int): int {
    if calls == [] then start else calls[|calls| - 1].now
  }

  /** Over every run whose clock does not go back, from any limiter in range: tokens
      stay between none and the bucket's burst. */
  lemma {:induction false} RunInRange(l: Limits, s: State, calls: seq<Call>, start: int)
    requires l.rate > 0.0 && l.burst >= 0.0 && Valid(s) && Clients(calls) && Rising(calls, start)
    requires InRange(l, s, start)
    ensures InRange(l, Run(l, s, calls), Latest(calls, start))
  {
    hide Valid, InRange, Allow;
    if calls != [] {
      var n := |calls| - 1;
      var init := calls[..n];
      RunInRange(l, s, init, start);
      assert calls[n] in calls;
      CallInRange(l, Run(l, s, init), calls[n], Latest(init, start));
    }
  }

  /** A clock without the promise: a reading that is a second old can leave less than
      nothing in the bucket. */
  lemma ClockGoingBack()
    ensures exists l: Limits, b: Bucket, now ::
              l.rate > 0.0 && 0.0 <= b.tokens && now < b.last
              && TopUp(b, l.burst, l.rate, now).tokens < 0.0
  {
    var l, b := Limits(1.0, 10.0), Bucket(0.0, 1000000000);
    assert TopUp(b, l.burst, l.rate, 0).tokens < 0.0;
  }

  /** Retry-After is the time to the next token: no sooner has one, and one
      nanosecond past it does, unless the bucket can never hold one. */
  lemma WaitIsTight(b: Bucket, burst: real, rate: real, d: nat)
    requires rate > 0.0 && b.tokens < 1.0
    ensures Wait(b, rate) >= 0
    ensures d < Wait(b, rate) ==> TopUp(b, burst, rate, b.last + d).tokens < 1.0
    ensures d > Wait(b, rate) && burst >= 1.0 ==> TopUp(b, burst, rate, b.last + d).tokens >= 1.0
  {
    var x := (1.0 - b.tokens) / rate;
    Quotient(1.0 - b.tokens, rate);
    assert Seconds(d) * 1000000000.0 == d as real;
    var elapsed := Seconds(d);
    assert Seconds(b.last + d - b.last) == elapsed;
    hide Seconds;
    if d < Wait(b, rate) {
      Scale(elapsed, x, rate);
    } else if d > Wait(b, rate) {
      Scale(x, elapsed, rate);
    }
  }

  lemma Quotient(a: real, rate: real)
    requires rate > 0.0 && a > 0.0
    ensures a / rate * rate == a && a / rate > 0.0
  {
  }

  lemma Scale(a: real, b: real, rate: real)
    requires rate > 0.0 && a < b
    ensures a * rate < b * rate
  {
  }

  // ---------------------------------------------------------- the limiter

  lemma PutTwice(m: map<string, Bucket>, k: string, a: Bucket, b: Bucket)
    ensures m[k := a][k := b] == m[k := b]
  {
  }

  class LoginLimiter {
    const rate: real
    const burst: real
    var buckets: map<string, Bucket>
    var recency: seq<string>

    ghost function S(): State
      reads this
    {
      State(buckets, recency)
    }

    constructor (rate: real, burst: real)
      ensures this.rate == rate && this.burst == burst && Valid(S()) && S() == State(map[], [])
    {
      this.rate, this.burst := rate, burst;
      buckets, recency := map[], [];
    }

    method RefillBucket(key: string, burst: real, rate: real, now: int)
      requires Valid(S())
      modifies this
      ensures Valid(S()) && S() == Refill(old(S()), key, burst, rate, now) && key in buckets
    {
      hide Valid, Without, TopUp;
      RefillFacts(S(), key, burst, rate, now);
      FullIsListed(S());
      PutTwice(buckets, key, Bucket(burst, now), TopUp(Bucket(burst, now), burst, rate, now));
      if key in buckets {
        recency := [key] + Without(recency, key);
      } else {
        if |buckets| >= MAX_BUCKETS {
          var oldest := recency[|recency| - 1];
          recency := recency[..|recency| - 1];
          buckets := buckets - {oldest};
          PutTwice(buckets, key, Bucket(burst, now), TopUp(Bucket(burst, now), burst, rate, now));
        }
        recency := [key] + recency;
        buckets := buckets[key := Bucket(burst, now)];
      }
      buckets := buckets[key := TopUp(buckets[key], burst, rate, now)];
    }

    method AllowCall(key: string, prefix: string, now: int) returns (ok: bool, retryAfter: int)
      requires Valid(S()) && rate > 0.0
      modifies this
      ensures Valid(S())
      ensures Allow(Limits(rate, burst), old(S()), Call(key, prefix, now)) == Verdict(S(), ok, retryAfter)
    {
      hide Refill, TopUp, Wait, Valid;
      NetRefill(Limits(rate, burst), S(), Call(key, prefix, now));
      RefillBucket(key, burst, rate, now);
      if buckets[key].tokens < 1.0 { return false, Wait(buckets[key], rate); }
      if prefix != "" {
        var wide := rate * LOCAL_PREFIX_FACTOR;
        var net := Net(prefix);
        RefillBucket(net, burst * LOCAL_PREFIX_FACTOR, wide, now);
        if buckets[net].tokens < 1.0 { return false, Wait(buckets[net], wide); }
        SpendKeeps(S(), net);
        buckets := buckets[net := Bucket(buckets[net].tokens - 1.0, buckets[net].last)];
      }
      SpendKeeps(S(), key);
      buckets := buckets[key := Bucket(buckets[key].tokens - 1.0, buckets[key].last)];
      return true, 0;
    }
  }
}
