/** What eviction costs the login limiter (internal/admin/ratelimit.go): a bucket that
    is pushed out comes back full, and a client can push out its own network's. */
module Crowding {
  import opened RateLimit

  // ------------------------------------------------ a client's own network

  /** With the map full, the network's bucket last seen of all and the client new, the
      client's own refill pushes its network out: it starts full, whatever it held. */
  lemma PushesOwnNetwork(l: Limits, s: State, c: Call)
    requires l.rate > 0.0 && l.burst >= 1.0 && Valid(s) && !IsNet(c.key) && c.prefix != ""
    requires |s.recency| == MAX_BUCKETS && s.recency[MAX_BUCKETS - 1] == Net(c.prefix) && c.key !in s.buckets
    ensures Prior(l, s, c, Net(c.prefix)) == Bucket(l.burst * LOCAL_PREFIX_FACTOR, c.now)
    ensures !Keeps(l, s, c, Net(c.prefix)) && Allow(l, s, c).ok
  {
    hide Before, Wait;
    var net := Net(c.prefix);
    assert net[..4] == "net ";
    FullIsListed(s);
    assert net !in Evicted(s).buckets;
    assert net !in Refill(s, c.key, l.burst, l.rate, c.now).buckets;
    FullBucket(l, c.key, c.now);
    FullBucket(l, net, c.now);
    AllowedExactly(l, s, c);
    OneCall(l, s, c, net);
  }

  /** A new bucket has its burst, which is a token at least. */
  lemma FullBucket(l: Limits, k: string, now: int)
    requires l.burst >= 1.0
    ensures TopUp(Bucket(BurstOf(l, k), now), BurstOf(l, k), RateOf(l, k), now) == Bucket(BurstOf(l, k), now)
    ensures BurstOf(l, k) >= 1.0
  {
  }

  // ---------------------------------------------------- the bound broken

  /** Names of clients, all different. */
  function Name(n: nat): string {
    seq(n + 1, _ => 'b')
  }

  lemma NamesDiffer(a: nat, b: nat, p: string)
    ensures (Name(a) == Name(b) <==> a == b) && !IsNet(Name(a)) && Name(a) != Net(p)
  {
    assert |Name(a)| == a + 1 && |Name(b)| == b + 1;
    assert Name(a)[0] == 'b' && Net(p)[0] == 'n';
    if a >= 3 { assert Name(a)[..4][0] == 'b'; }
  }

  const ONE: Limits := Limits(1.0, 1.0)

  /** The last of the calls: ten clients of the network, then enough strangers to leave
      the network's bucket last, then one more client of it. */
  const LAST: nat := MAX_BUCKETS + 9

  /** All at the same instant. */
  function CallAt(p: string, i: nat): Call {
    Call(Name(i), if i < 10 || i == LAST then p else "", 0)
  }

  function Calls(p: string, n: nat): seq<Call> {
    seq(n, i requires 0 <= i < n => CallAt(p, i))
  }

  const NONE_YET: State := State(map[], [])

  lemma CallsAre(p: string, n: nat)
    ensures Clients(Calls(p, n))
    ensures Calls(p, n + 1)[..n] == Calls(p, n) && Calls(p, n + 1)[n] == CallAt(p, n)
  {
    forall c | c in Calls(p, n)
      ensures !IsNet(c.key)
    {
      var i :| 0 <= i < n && Calls(p, n)[i] == c;
      NamesDiffer(i, i, p);
    }
  }

  lemma EmptyIsValid()
    ensures Valid(NONE_YET)
  {
  }

  /** The state after the first n calls, and how many of them were allowed. */
  ghost function After(p: string, n: nat): (s: State)
    ensures Valid(s)
  {
    CallsAre(p, n);
    EmptyIsValid();
    Run(ONE, NONE_YET, Calls(p, n))
  }

  ghost function Allowed(p: string, n: nat): nat {
    CallsAre(p, n);
    EmptyIsValid();
    AllowedIn(ONE, NONE_YET, Calls(p, n), p)
  }

  lemma AfterStep(p: string, n: nat)
    ensures After(p, n + 1) == Allow(ONE, After(p, n), CallAt(p, n)).s
    ensures Allowed(p, n + 1) ==
            Allowed(p, n) + (if Allow(ONE, After(p, n), CallAt(p, n)).ok && CallAt(p, n).prefix == p then 1 else 0)
  {
    hide Allow, Valid;
    CallsAre(p, n);
    CallsAre(p, n + 1);
  }

  lemma AfterNone(p: string)
    ensures After(p, 0) == NONE_YET && Allowed(p, 0) == 0
  {
    assert Calls(p, 0) == [];
  }

  /** Names n - 1 down to m. */
  function Down(n: nat, m: nat): seq<string>
    requires m <= n
  {
    seq(n - m, i requires 0 <= i < n - m => Name(n - 1 - i))
  }

  lemma DownStep(n: nat, m: nat, p: string)
    requires m <= n
    ensures Down(n + 1, m) == [Name(n)] + Down(n, m)
    ensures Name(n) !in Down(n, m) && Net(p) !in Down(n, m)
  {
    NamesDiffer(n, n, p);
    forall i | 0 <= i < n - m
      ensures Down(n, m)[i] != Name(n) && Down(n, m)[i] != Net(p)
    {
      NamesDiffer(n - 1 - i, n, p);
    }
  }

  lemma {:induction false} WithoutAll(r: seq<string>, k: string, tail: seq<string>)
    requires k !in r
    ensures Without(r + [k] + tail, k) == r + tail
  {
    if r == [] {
      assert r + [k] + tail == [k] + tail && r + tail == tail;
    } else {
      assert (r + [k] + tail)[1..] == r[1..] + [k] + tail;
      WithoutAll(r[1..], k, tail);
      assert r + tail == [r[0]] + (r[1..] + tail);
    }
  }

  /** A client new to a map with room goes in front, with its burst. */
  lemma NewInFront(s: State, k: string, burst: real, rate: real, now: int)
    requires Valid(s) && k !in s.buckets && |s.recency| < MAX_BUCKETS
    ensures Refill(s, k, burst, rate, now).recency == [k] + s.recency
    ensures Refill(s, k, burst, rate, now).buckets == s.buckets[k := TopUp(Bucket(burst, now), burst, rate, now)]
  {
    FullIsListed(s);
  }

  /** After n of the network's ten clients the network is in front of them all with
      10 - n tokens left. */
  lemma {:induction false} TenClients(p: string, n: nat)
    requires 1 <= n <= 10 && p != ""
    ensures var s := After(p, n);
            && s.recency == [Net(p)] + Down(n, 0) && Net(p) in s.buckets
            && s.buckets[Net(p)] == Bucket((10 - n) as real, 0) && Allowed(p, n) == n
  {
    hide Allow, Valid, Run;
    AfterStep(p, n - 1);
    if n == 1 {
      AfterNone(p);
      FirstClient(p);
    } else {
      TenClients(p, n - 1);
      OneMoreClient(p, After(p, n - 1), n - 1);
    }
  }

  lemma FirstClient(p: string)
    requires p != ""
    ensures Valid(NONE_YET)
    ensures var v := Allow(ONE, NONE_YET, CallAt(p, 0));
            && v.ok && v.s.recency == [Net(p)] + Down(1, 0)
            && Net(p) in v.s.buckets && v.s.buckets[Net(p)] == Bucket(9.0, 0)
  {
    EmptyIsValid();
    NamesDiffer(0, 0, p);
    var c := CallAt(p, 0);
    NewInFront(NONE_YET, c.key, 1.0, 1.0, 0);
    var s1 := Refill(NONE_YET, c.key, 1.0, 1.0, 0);
    RefillFacts(NONE_YET, c.key, 1.0, 1.0, 0);
    NewInFront(s1, Net(p), 10.0, 10.0, 0);
    assert [c.key] + [] == [c.key] == Down(1, 0);
  }

  /** A bucket topped up where it was last seen stays as it is. */
  lemma NoTimePassed(b: Bucket, burst: real, rate: real)
    requires b.tokens <= burst
    ensures TopUp(b, burst, rate, b.last) == b
  {
  }

  lemma OneMoreTokens(p: string, s: State, n: nat)
    requires 1 <= n < 10 && p != "" && Valid(s) && Name(n) !in s.buckets && |s.recency| < MAX_BUCKETS
    requires Net(p) in s.buckets && s.buckets[Net(p)] == Bucket((10 - n) as real, 0)
    ensures var v := Allow(ONE, s, CallAt(p, n));
            && v.ok && Net(p) in v.s.buckets && v.s.buckets[Net(p)] == Bucket((10 - (n + 1)) as real, 0)
  {
    var c, net := CallAt(p, n), Net(p);
    NamesDiffer(n, n, p);
    assert net[..4] == "net ";
    NewInFront(s, c.key, 1.0, 1.0, 0);
    hide Refill, Valid, Allow, TopUp, Wait;
    FullBucket(ONE, c.key, 0);
    NoTimePassed(s.buckets[net], 10.0, 10.0);
    assert Prior(ONE, s, c, net) == s.buckets[net];
    AllowedExactly(ONE, s, c);
    OneCall(ONE, s, c, net);
  }

  lemma OneMoreOrder(p: string, s: State, n: nat)
    requires 1 <= n < 10 && p != "" && Valid(s) && s.recency == [Net(p)] + Down(n, 0) && Name(n) !in s.buckets
    requires Net(p) in s.buckets
    requires Allow(ONE, s, CallAt(p, n)).ok
    ensures Allow(ONE, s, CallAt(p, n)).s.recency == [Net(p)] + Down(n + 1, 0)
  {
    var c, net := CallAt(p, n), Net(p);
    NamesDiffer(n, n, p);
    DownStep(n, 0, p);
    assert net in s.recency;
    hide Refill, Valid, TopUp, Wait, Allow, Touches, Prior, Down, Name;
    NewInFront(s, c.key, 1.0, 1.0, 0);
    var s1 := Refill(s, c.key, 1.0, 1.0, 0);
    assert s1.recency == [c.key] + [net] + Down(n, 0);
    FoundInFront(s1, net, 10.0, 10.0, 0);
    WithoutAll([c.key], net, Down(n, 0));
    AllowShape(ONE, s, c);
    OneCall(ONE, s, c, net);
  }

  lemma FoundInFront(s: State, k: string, burst: real, rate: real, now: int)
    requires k in s.buckets
    ensures Refill(s, k, burst, rate, now).recency == [k] + Without(s.recency, k)
  {
  }

  lemma OneMoreClient(p: string, s: State, n: nat)
    requires 1 <= n < 10 && p != "" && Valid(s) && s.recency == [Net(p)] + Down(n, 0)
    requires Net(p) in s.buckets && s.buckets[Net(p)] == Bucket((10 - n) as real, 0)
    ensures var v := Allow(ONE, s, CallAt(p, n));
            && v.ok && v.s.recency == [Net(p)] + Down(n + 1, 0)
            && Net(p) in v.s.buckets && v.s.buckets[Net(p)] == Bucket((10 - (n + 1)) as real, 0)
  {
    NamesDiffer(n, n, p);
    DownStep(n, 0, p);
    assert Name(n) !in s.recency;
    hide Allow;
    OneMoreTokens(p, s, n);
    OneMoreOrder(p, s, n);
  }

  // The strangers.

  /** What a stranger new to the map does to the list: in front, and the last goes if
      there is no room. */
  lemma Stranger(s: State, c: Call)
    requires Valid(s) && !IsNet(c.key) && c.key !in s.buckets && c.prefix == ""
    ensures var r := [c.key] + s.recency;
            Allow(ONE, s, c).s.recency == if |r| <= MAX_BUCKETS then r else r[..MAX_BUCKETS]
  {
    var s' := Refill(s, c.key, 1.0, 1.0, c.now);
    FullIsListed(s);
    var r := [c.key] + s.recency;
    if |r| > MAX_BUCKETS {
      assert r[..MAX_BUCKETS] == [c.key] + s.recency[..MAX_BUCKETS - 1];
    }
    assert s'.recency == if |r| <= MAX_BUCKETS then r else r[..MAX_BUCKETS];
    hide Refill, Valid, TopUp, Wait;
    AllowShape(ONE, s, c);
  }

  function Cut(r: seq<string>): seq<string> {
    if |r| <= MAX_BUCKETS then r else r[..MAX_BUCKETS]
  }

  lemma {:induction false} Strangers(p: string, n: nat)
    requires 10 <= n <= LAST && p != ""
    ensures After(p, n).recency == Cut(Down(n, 10) + ([Net(p)] + Down(10, 0))) && Allowed(p, n) == 10
  {
    hide Allow, Valid, Run, After, Allowed;
    if n == 10 {
      TenClients(p, 10);
      assert Down(10, 10) + ([Net(p)] + Down(10, 0)) == [Net(p)] + Down(10, 0);
    } else {
      Strangers(p, n - 1);
      AfterStep(p, n - 1);
      var s, c := After(p, n - 1), CallAt(p, n - 1);
      var seen := Down(n - 1, 10) + ([Net(p)] + Down(10, 0));
      NotYet(p, n - 1);
      Listed(s, c.key, seen);
      Stranger(s, c);
      DownStep(n - 1, 10, p);
      assert Down(n, 10) + ([Net(p)] + Down(10, 0)) == [c.key] + seen;
      CutAgain(c.key, seen);
    }
  }

  lemma Listed(s: State, k: string, r: seq<string>)
    requires Valid(s) && s.recency == Cut(r) && k !in r
    ensures k !in s.buckets
  {
  }

  lemma CutAgain(k: string, r: seq<string>)
    ensures Cut([k] + Cut(r)) == Cut([k] + r)
  {
  }

  lemma NotYet(p: string, n: nat)
    requires n >= 10
    ensures Name(n) !in Down(n, 10) + ([Net(p)] + Down(10, 0)) && !IsNet(Name(n))
  {
    DownStep(n, 10, p);
    NamesDiffer(n, n, p);
    forall i | 0 <= i < 10
      ensures Down(10, 0)[i] != Name(n)
    {
      NamesDiffer(9 - i, n, p);
    }
  }

  /** Before the last call the map is full and the network last. */
  lemma NetworkIsLast(p: string)
    requires p != ""
    ensures var s := After(p, LAST);
            && |s.recency| == MAX_BUCKETS && s.recency[MAX_BUCKETS - 1] == Net(p)
            && Name(LAST) !in s.buckets && Allowed(p, LAST) == 10
  {
    hide After, Allowed;
    Strangers(p, LAST);
    var r := Down(LAST, 10) + ([Net(p)] + Down(10, 0));
    NotYet(p, LAST);
    Listed(After(p, LAST), Name(LAST), r);
    assert |Down(LAST, 10)| == MAX_BUCKETS - 1;
    assert r[MAX_BUCKETS - 1] == Net(p);
  }

  /** Eleven attempts allowed to one local network at one instant, where ten allowances
      are ten attempts: the bound does not survive an eviction. */
  lemma LocalBoundBroken(p: string)
    requires p != ""
    ensures Clients(Calls(p, LAST + 1)) && Valid(NONE_YET)
    ensures forall c | c in Calls(p, LAST + 1) :: c.now == 0
    ensures AllowedIn(ONE, NONE_YET, Calls(p, LAST + 1), p) == 11
    ensures 11 as real > 10.0 * (ONE.burst + Seconds(0 - 0) * ONE.rate)
    ensures !Keeps(ONE, After(p, LAST), CallAt(p, LAST), Net(p))
  {
    hide Allow, Valid, Run, After, AllowedIn;
    NetworkIsLast(p);
    NamesDiffer(LAST, LAST, p);
    PushesOwnNetwork(ONE, After(p, LAST), CallAt(p, LAST));
    AfterStep(p, LAST);
    CallsAre(p, LAST + 1);
    EmptyIsValid();
    assert Allowed(p, LAST + 1) == 11;
  }
}
