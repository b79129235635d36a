/** The proxy-token check answered from memory (internal/server/tokenauth.go), and the
    gate that asks it (internal/server/server.go).

    A request reads the clock, takes the lock, asks the store and takes the lock
    again as separate steps; any number of requests, token issues and revocations
    interleave. The shared secret is unset: the gate is open until a token has been
    issued. */
module TokenAuth {
  import opened Options

  /** tokenCacheTTL, in nanoseconds. */
  const TTL: int := 5 * 1000000000

  // ------------------------------------------------------- lock sections

  datatype Cache = Cache(accepted: map<string, int>, anyAt: Option<int>, anyTokens: bool, issued: bool)

  datatype Answer = Yes | No | Failed

  predicate Fresh(now: int, at: int) {
    now - at < TTL
  }

  predicate Remembers(c: Cache, secret: string, now: int) {
    secret in c.accepted && Fresh(now, c.accepted[secret])
  }

  function Landed(c: Cache, secret: string, now: int, a: Answer): Cache {
    if a == Yes then c.(accepted := c.accepted[secret := now]) else c.(accepted := c.accepted - {secret})
  }

  /** What memory says about issuance, if it may speak. */
  function Recalled(c: Cache, now: int): Option<bool> {
    if c.issued then Some(true)
    else if c.anyAt.Some? && Fresh(now, c.anyAt.value) then Some(c.anyTokens)
    else None
  }

  function Settled(c: Cache, now: int, a: Answer): Cache {
    c.(anyAt := Some(now), anyTokens := a != No, issued := c.issued || a == Yes)
  }

  class TokenCache {
    var accepted: map<string, int>
    var anyAt: Option<int>
    var anyTokens: bool
    var issued: bool

    ghost function C(): Cache
      reads this
    {
      Cache(accepted, anyAt, anyTokens, issued)
    }

    constructor ()
      ensures C() == Cache(map[], None, false, false)
    {
      accepted, anyAt, anyTokens, issued := map[], None, false, false;
    }

    method LookAccepted(secret: string, now: int) returns (hit: bool)
      ensures hit <==> Remembers(C(), secret, now)
      ensures hit <==> secret in accepted && now - accepted[secret] < 5_000_000_000
    {
      return secret in accepted && now - accepted[secret] < TTL;
    }

    method LandAccepted(secret: string, now: int, a: Answer) returns (ok: bool)
      modifies this
      ensures C() == Landed(old(C()), secret, now, a) && (ok <==> a == Yes)
      ensures if ok then secret in accepted && accepted[secret] == now else secret !in accepted
      ensures forall k | k != secret ::
                (k in accepted <==> k in old(accepted)) && (k in accepted ==> accepted[k] == old(accepted)[k])
    {
      if a == Failed || a == No {
        accepted := accepted - {secret};
        return false;
      }
      accepted := accepted[secret := now];
      return true;
    }

    method LookConfigured(now: int) returns (known: Option<bool>)
      ensures known == Recalled(C(), now)
      ensures known == if issued then Some(true)
                       else if anyAt.Some? && now - anyAt.value < 5_000_000_000 then Some(anyTokens) else None
    {
      if issued { return Some(true); }
      if anyAt.Some? && now - anyAt.value < TTL { return Some(anyTokens); }
      return None;
    }

    method LandConfigured(now: int, a: Answer) returns (v: bool)
      modifies this
      ensures C() == Settled(old(C()), now, a) && (v <==> a != No)
    {
      v := a == Failed || a == Yes;
      anyAt, anyTokens := Some(now), v;
      if a != Failed && a == Yes { issued := true; }
    }
  }

  // ------------------------------------------------------- the protocol

  datatype Life = Life(issued: int, revoked: Option<int>)

  datatype Via = ByToken | Open | Refused

  /** A request's progress. `now` is the reading accept took, `later` the one
      configured took after it, `fault` whether the store failed to answer accept. */
  datatype Pc =
    | Checking(secret: string, now: int)
    | Asking(secret: string, now: int)
    | Landing(secret: string, now: int, answer: Answer)
    | Turned(secret: string, now: int, fault: bool)
    | Probing(secret: string, now: int, fault: bool, later: int)
    | Inquiring(secret: string, now: int, fault: bool, later: int)
    | Settling(secret: string, now: int, fault: bool, later: int, answer: Answer)
    | Done(secret: string, now: int, fault: bool, later: int, via: Via)

  /** `outage`: the store once failed to say whether a token was ever issued. */
  datatype State = State(clock: int, cache: Cache, tokens: map<string, Life>, firstIssue: Option<int>,
                         outage: bool, calls: map<nat, Pc>)

  datatype Action =
    | Tick(d: nat)
    | Issue(secret: string)
    | Revoke(secret: string)
    | Arrive(id: nat, secret: string)
    | Step(id: nat, fails: bool)

  predicate Live(s: State, secret: string) {
    secret in s.tokens && s.tokens[secret].revoked.None?
  }

  predicate Enabled(s: State, a: Action) {
    match a
    case Tick(_) => true
    case Issue(secret) => secret != "" && secret !in s.tokens
    case Revoke(secret) => Live(s, secret)
    case Arrive(id, _) => id !in s.calls
    case Step(id, _) => id in s.calls && !s.calls[id].Done?
  }

  /** The next step of a request, and the cache after it. */
  function Advance(s: State, pc: Pc, fails: bool): (Pc, Cache)
    requires !pc.Done?
  {
    var c := s.cache;
    match pc
    case Checking(k, n) =>
      if k == "" then (Turned(k, n, false), c)
      else if Remembers(c, k, n) then (Done(k, n, false, n, ByToken), c)
      else (Asking(k, n), c)
    case Asking(k, n) =>
      (Landing(k, n, if fails then Failed else if Live(s, k) then Yes else No), c)
    case Landing(k, n, a) =>
      (if a == Yes then Done(k, n, false, n, ByToken) else Turned(k, n, a == Failed), Landed(c, k, n, a))
    case Turned(k, n, f) => (Probing(k, n, f, s.clock), c)
    case Probing(k, n, f, m) =>
      var r := Recalled(c, m);
      (if r.None? then Inquiring(k, n, f, m) else Done(k, n, f, m, if r.value then Refused else Open), c)
    case Inquiring(k, n, f, m) =>
      (Settling(k, n, f, m, if fails then Failed else if s.firstIssue.Some? then Yes else No), c)
    case Settling(k, n, f, m, a) =>
      (Done(k, n, f, m, if a == No then Open else Refused), Settled(c, m, a))
  }

  /** A token remembered as accepted less than five seconds before is accepted without
      asking the store; any other is asked for, and what the store says, or that it fails,
      is what the request goes by; one turned away reads the clock again. */
  lemma AcceptAsks(s: State, pc: Pc, fails: bool)
    requires pc.Checking? || pc.Asking? || pc.Turned?
    ensures pc.Checking? && pc.secret != "" ==>
              Advance(s, pc, fails).0 ==
              if pc.secret in s.cache.accepted && pc.now - s.cache.accepted[pc.secret] < 5_000_000_000
              then Done(pc.secret, pc.now, false, pc.now, ByToken) else Asking(pc.secret, pc.now)
    ensures pc.Asking? ==>
              Advance(s, pc, fails).0 ==
              Landing(pc.secret, pc.now,
                      if fails then Failed
                      else if pc.secret in s.tokens && s.tokens[pc.secret].revoked == None then Yes else No)
    ensures pc.Turned? ==> Advance(s, pc, fails).0 == Probing(pc.secret, pc.now, pc.fault, s.clock)
  {
  }

  function Do(s: State, a: Action): State
    requires Enabled(s, a)
  {
    match a
    case Tick(d) => s.(clock := s.clock + d)
    case Issue(secret) =>
      s.(tokens := s.tokens[secret := Life(s.clock, None)],
         firstIssue := if s.firstIssue.None? then Some(s.clock) else s.firstIssue)
    case Revoke(secret) => s.(tokens := s.tokens[secret := s.tokens[secret].(revoked := Some(s.clock))])
    case Arrive(id, secret) => s.(calls := s.calls[id := Checking(secret, s.clock)])
    case Step(id, fails) =>
      var (pc, c) := Advance(s, s.calls[id], fails);
      s.(cache := c, calls := s.calls[id := pc], outage := s.outage || (fails && s.calls[id].Inquiring?))
  }

  function Start(clock: int): State {
    State(clock, Cache(map[], None, false, false), map[], None, false, map[])
  }

  // ---------------------------------------------------------- the invariant

  /** Nothing at all before instant n had revoked the secret. */
  predicate GoodAt(s: State, secret: string, n: int) {
    secret in s.tokens && (s.tokens[secret].revoked.Some? ==> n <= s.tokens[secret].revoked.value)
  }

  predicate UnissuedAt(s: State, n: int) {
    s.firstIssue.Some? ==> n <= s.firstIssue.value
  }

  /** With the store answering, a refusal means the secret was not live all along. */
  predicate RefusedRightly(s: State, secret: string, n: int) {
    secret !in s.tokens || n <= s.tokens[secret].issued || s.tokens[secret].revoked.Some?
  }

  predicate TokensOk(s: State) {
    && (s.firstIssue.Some? ==> s.firstIssue.value <= s.clock)
    && forall k | k in s.tokens ::
         && s.tokens[k].issued <= s.clock && s.firstIssue.Some? && s.firstIssue.value <= s.tokens[k].issued
         && (s.tokens[k].revoked.Some? ==> s.tokens[k].issued <= s.tokens[k].revoked.value <= s.clock)
  }

  predicate CacheOk(s: State) {
    && (forall k | k in s.cache.accepted :: s.cache.accepted[k] <= s.clock && GoodAt(s, k, s.cache.accepted[k]))
    && (s.cache.anyAt.Some? ==> s.cache.anyAt.value <= s.clock)
    && (s.cache.anyAt.Some? && !s.cache.anyTokens ==> UnissuedAt(s, s.cache.anyAt.value))
    && (s.cache.anyAt.Some? && s.cache.anyTokens ==> s.firstIssue.Some? || s.outage)
    && (s.cache.issued ==> s.firstIssue.Some?)
  }

  predicate CallOk(s: State, pc: Pc) {
    && pc.now <= s.clock
    && (pc.Landing? && pc.answer == Yes ==> GoodAt(s, pc.secret, pc.now))
    && (pc.Landing? && pc.answer == No ==> RefusedRightly(s, pc.secret, pc.now))
    && (pc.Turned? || pc.Probing? || pc.Inquiring? || pc.Settling? ==>
          pc.fault || pc.secret == "" || RefusedRightly(s, pc.secret, pc.now))
    && (pc.Probing? || pc.Inquiring? || pc.Settling? || pc.Done? ==> pc.now <= pc.later <= s.clock)
    && (pc.Settling? && pc.answer == Yes ==> s.firstIssue.Some?)
    && (pc.Settling? && pc.answer == No ==> UnissuedAt(s, pc.later))
    && (pc.Settling? && pc.answer == Failed ==> s.outage)
    && (pc.Done? ==> Verdict(s, pc))
  }

  /** What a finished request's outcome says about the tokens, then and ever after. */
  predicate Verdict(s: State, pc: Pc)
    requires pc.Done?
  {
    match pc.via
    case ByToken =>
      pc.secret in s.tokens
      && (s.tokens[pc.secret].revoked.Some? ==> pc.now < s.tokens[pc.secret].revoked.value + TTL)
    case Open => s.firstIssue.Some? ==> pc.later < s.firstIssue.value + TTL
    case Refused =>
      && (pc.fault || pc.secret == "" || RefusedRightly(s, pc.secret, pc.now))
      && (s.firstIssue.Some? || s.outage)
  }

  predicate Inv(s: State) {
    TokensOk(s) && CacheOk(s) && "" !in s.tokens && forall id | id in s.calls :: CallOk(s, s.calls[id])
  }

  /** Time passing, a new token or a revocation disturbs nothing already known. */
  lemma WorldKeepsCall(s: State, a: Action, pc: Pc)
    requires Inv(s) && Enabled(s, a) && !a.Step? && CallOk(s, pc)
    ensures CallOk(Do(s, a), pc)
  {
  }

  lemma WorldKeeps(s: State, a: Action)
    requires Inv(s) && Enabled(s, a) && !a.Step?
    ensures Inv(Do(s, a))
  {
    forall id | id in s.calls
      ensures CallOk(Do(s, a), s.calls[id])
    {
      WorldKeepsCall(s, a, s.calls[id]);
    }
    WorldKeepsCache(s, a);
    hide CallOk;
    if a.Arrive? { ArriveOk(s, a); }
  }

  lemma ArriveOk(s: State, a: Action)
    requires Inv(s) && Enabled(s, a) && a.Arrive?
    ensures CallOk(Do(s, a), Checking(a.secret, s.clock))
  {
  }

  lemma WorldKeepsCache(s: State, a: Action)
    requires Inv(s) && Enabled(s, a) && !a.Step?
    ensures TokensOk(Do(s, a)) && CacheOk(Do(s, a)) && "" !in Do(s, a).tokens
  {
  }

  lemma AcceptStep(s: State, pc: Pc, fails: bool)
    requires Inv(s) && CallOk(s, pc) && (pc.Checking? || pc.Asking? || pc.Landing?)
    ensures CallOk(s, Advance(s, pc, fails).0)
  {
  }

  lemma ConfiguredStep(s: State, pc: Pc, fails: bool)
    requires Inv(s) && CallOk(s, pc) && (pc.Turned? || pc.Probing? || pc.Inquiring? || pc.Settling?)
    ensures CallOk(s.(outage := s.outage || (fails && pc.Inquiring?)), Advance(s, pc, fails).0)
  {
  }

  lemma CacheStep(s: State, pc: Pc, fails: bool)
    requires Inv(s) && CallOk(s, pc) && !pc.Done?
    ensures CacheOk(s.(cache := Advance(s, pc, fails).1))
  {
  }

  /** CallOk does not look at the cache or the other calls, nor mind an outage. */
  lemma CallOkFrame(s: State, t: State, pc: Pc)
    requires CallOk(s, pc) && t.clock == s.clock && t.tokens == s.tokens && t.firstIssue == s.firstIssue
    requires s.outage ==> t.outage
    ensures CallOk(t, pc)
  {
  }

  lemma InvKept(s: State, a: Action)
    requires Inv(s) && Enabled(s, a)
    ensures Inv(Do(s, a))
  {
    if a.Step? {
      var s', pc := Do(s, a), s.calls[a.id];
      if pc.Checking? || pc.Asking? || pc.Landing? { AcceptStep(s, pc, a.fails); } else { ConfiguredStep(s, pc, a.fails); }
      CallOkFrame(s.(outage := s'.outage), s', Advance(s, pc, a.fails).0);
      CacheStep(s, pc, a.fails);
      forall id | id in s'.calls && id != a.id
        ensures CallOk(s', s'.calls[id])
      {
        CallOkFrame(s, s', s.calls[id]);
      }
      hide CallOk, Advance;
    } else {
      WorldKeeps(s, a);
    }
  }

  // ------------------------------------------------------------- whole runs

  /** The actions, in this order, lead from s to t. */
  predicate Leads(s: State, acts: seq<Action>, t: State)
    decreases |acts|
  {
    if acts == [] then s == t
    else Enabled(s, acts[0]) && Leads(Do(s, acts[0]), acts[1..], t)
  }

  lemma {:induction false} RunKeeps(s: State, acts: seq<Action>, t: State)
    requires Inv(s) && Leads(s, acts, t)
    ensures Inv(t)
    decreases |acts|
  {
    hide Inv, Do;
    if acts != [] {
      InvKept(s, acts[0]);
      RunKeeps(Do(s, acts[0]), acts[1..], t);
    }
  }

  /** No request that presents a token at least the TTL after its revocation gets
      through, by the token or by the gate standing open. */
  lemma RevokedIsRefused(clock: int, acts: seq<Action>, s: State, id: nat)
    requires Leads(Start(clock), acts, s)
    requires id in s.calls && s.calls[id].Done? && s.calls[id].secret in s.tokens
    requires s.tokens[s.calls[id].secret].revoked.Some?
    requires s.calls[id].now >= s.tokens[s.calls[id].secret].revoked.value + 5_000_000_000
    ensures s.calls[id].via == Refused
  {
    hide Leads;
    RunKeeps(Start(clock), acts, s);
    assert CallOk(s, s.calls[id]);
  }

  /** The gate stands open only for readings less than the TTL after the first token
      was issued; a token is accepted only if issued; and one that is live throughout
      is refused only when the store fails. The gate is shut only once a token has been
      issued or the store has failed to say. */
  lemma OutcomesAreRight(clock: int, acts: seq<Action>, s: State, id: nat)
    requires Leads(Start(clock), acts, s)
    requires id in s.calls && s.calls[id].Done?
    ensures Verdict(s, s.calls[id])
  {
    hide Leads;
    RunKeeps(Start(clock), acts, s);
    assert CallOk(s, s.calls[id]);
  }

  /** The request has not passed configured's first section. */
  predicate BeforeAsking(s: State, id: nat) {
    id in s.calls ==> !s.calls[id].Inquiring? && !s.calls[id].Settling? && !s.calls[id].Done?
  }

  /** Not let through unauthenticated, nor able to be. */
  predicate ShutOut(s: State, id: nat) {
    s.cache.issued && (id in s.calls ==>
      !s.calls[id].Inquiring? && !s.calls[id].Settling? && !(s.calls[id].Done? && s.calls[id].via == Open))
  }

  lemma LatchStep(s: State, a: Action, id: nat)
    requires ShutOut(s, id) && Enabled(s, a)
    ensures ShutOut(Do(s, a), id)
  {
  }

  lemma {:induction false} LatchRun(s: State, acts: seq<Action>, t: State, id: nat)
    requires Leads(s, acts, t) && ShutOut(s, id)
    ensures ShutOut(t, id)
    decreases |acts|
  {
    hide Do, ShutOut;
    if acts != [] {
      LatchStep(s, acts[0], id);
      LatchRun(Do(s, acts[0]), acts[1..], t, id);
    }
  }

  /** Once issuance is latched, no stale answer that lands later unlatches it, and no
      request yet to come to configured is let through unauthenticated. */
  lemma LatchHolds(s: State, acts: seq<Action>, t: State, id: nat)
    requires Leads(s, acts, t) && s.cache.issued && BeforeAsking(s, id)
    ensures t.cache.issued
    ensures id in t.calls && t.calls[id].Done? ==> t.calls[id].via != Open
  {
    hide Leads;
    LatchRun(s, acts, t, id);
  }

  /** What the latch is for: a "no" asked before the first issue that lands after a
      "yes" would have the gate open again. */
  lemma StaleAnswerLands(c: Cache, asked: int, now: int)
    requires now - asked < TTL
    ensures var landed := Settled(Settled(c, now, Yes), asked, No);
            && Recalled(landed, now) == Some(true)
            && Recalled(landed.(issued := false), now) == Some(false)
  {
  }
}
