/** The router's credential order and target filter (internal/router/order.go,
    filter.go and router.go). */
module Router {
  import opened Options
  import opened Health

  datatype Credential = Credential(id: string, payload: int)

  // ------------------------------------------------------------ the order

  /** Byte-wise string order, reflexive. */
  predicate Lex(a: string, b: string) {
    a == "" || (b != "" && (a[0] < b[0] || (a[0] == b[0] && Lex(a[1..], b[1..]))))
  }

  lemma {:induction false} LexTotal(a: string, b: string)
    ensures Lex(a, b) || Lex(b, a)
    ensures Lex(a, b) && Lex(b, a) ==> a == b
  {
    if a != "" && b != "" && a[0] == b[0] {
      LexTotal(a[1..], b[1..]);
      if a[1..] == b[1..] { assert a == [a[0]] + a[1..] && b == [b[0]] + b[1..]; }
    }
  }

  lemma {:induction false} LexTransitive(a: string, b: string, c: string)
    requires Lex(a, b) && Lex(b, c)
    ensures Lex(a, c)
  {
    if a != "" && a[0] == b[0] && b[0] == c[0] { LexTransitive(a[1..], b[1..], c[1..]); }
  }

  datatype CredKey = CredKey(provider: string, cred: string)

  /** When each credential of each provider was last dispatched to. */
  type Uses = map<CredKey, int>

  /** Least recently used first: never used, then by time, ties by id. */
  predicate Leq(used: Uses, p: string, a: string, b: string) {
    var ka, kb := CredKey(p, a), CredKey(p, b);
    if ka !in used && kb !in used then Lex(a, b)
    else if ka !in used then true
    else if kb !in used then false
    else used[ka] < used[kb] || (used[ka] == used[kb] && Lex(a, b))
  }

  lemma LeqOrder(used: Uses, p: string, a: string, b: string, c: string)
    ensures Leq(used, p, a, b) || Leq(used, p, b, a)
    ensures Leq(used, p, a, b) && Leq(used, p, b, a) ==> a == b
    ensures Leq(used, p, a, b) && Leq(used, p, b, c) ==> Leq(used, p, a, c)
  {
    LexTotal(a, b);
    if Lex(a, b) && Lex(b, c) { LexTransitive(a, b, c); }
  }

  ghost predicate Sorted(used: Uses, p: string, s: seq<Credential>) {
    forall i, j | 0 <= i < j < |s| :: Leq(used, p, s[i].id, s[j].id)
  }

  lemma InsertSorted(used: Uses, p: string, s: seq<Credential>, k: nat, c: Credential, t: seq<Credential>)
    requires Sorted(used, p, s) && k <= |s| && t == s[..k] + [c] + s[k..]
    requires forall i | 0 <= i < k :: Leq(used, p, s[i].id, c.id)
    requires forall i | k <= i < |s| :: Leq(used, p, c.id, s[i].id)
    ensures Sorted(used, p, t)
  {
    hide Leq;
    forall i, j | 0 <= i < j < |t|
      ensures Leq(used, p, t[i].id, t[j].id)
    {
      assert i < k ==> t[i] == s[i];
      assert j < k ==> t[j] == s[j];
      assert i > k ==> t[i] == s[i - 1];
      assert j > k ==> t[j] == s[j - 1];
    }
  }

  lemma InsertContents(s: seq<Credential>, k: nat, c: Credential)
    requires k <= |s|
    ensures multiset(s[..k] + [c] + s[k..]) == multiset(s) + multiset{c}
  {
    assert s == s[..k] + s[k..];
  }

  /** a is before b byte by byte: a prefix of it, or smaller where they first differ. */
  ghost predicate Ascends(a: string, b: string) {
    || (|a| <= |b| && a == b[..|a|])
    || exists d | 0 <= d < |a| && d < |b| :: a[..d] == b[..d] && a[d] < b[d]
  }

  lemma {:induction false} LexIs(a: string, b: string)
    requires Lex(a, b)
    ensures Ascends(a, b)
  {
    if a != "" && a[0] == b[0] {
      LexIs(a[1..], b[1..]);
      assert a == [a[0]] + a[1..] && b == [b[0]] + b[1..];
      if |a| <= |b| && a[1..] == b[1..][..|a| - 1] {
        assert b[..|a|] == [b[0]] + b[1..][..|a| - 1];
      } else {
        var d :| 0 <= d < |a| - 1 && d < |b| - 1 && a[1..][..d] == b[1..][..d] && a[1..][d] < b[1..][d];
        assert a[..d + 1] == [a[0]] + a[1..][..d] && b[..d + 1] == [b[0]] + b[1..][..d];
      }
    } else if a != "" {
      assert a[..0] == b[..0];
    }
  }

  /** Least recently used first: one never used before any used one, an earlier use
      before a later, and ties by id. */
  ghost predicate LeastRecentFirst(used: Uses, p: string, ids: seq<string>) {
    forall i, j | 0 <= i < j < |ids| ::
      var a, b := CredKey(p, ids[i]), CredKey(p, ids[j]);
      && (a in used ==> b in used && used[a] <= used[b])
      && (a !in used && b !in used ==> Ascends(ids[i], ids[j]))
      && (a in used && b in used && used[a] == used[b] ==> Ascends(ids[i], ids[j]))
  }

  lemma LeqIs(used: Uses, p: string, a: string, b: string)
    requires Leq(used, p, a, b)
    ensures var ka, kb := CredKey(p, a), CredKey(p, b);
            && (ka in used ==> kb in used && used[ka] <= used[kb])
            && (ka !in used && kb !in used ==> Ascends(a, b))
            && (ka in used && kb in used && used[ka] == used[kb] ==> Ascends(a, b))
  {
    if Lex(a, b) { LexIs(a, b); }
  }

  lemma AscendingIs(used: Uses, p: string, ids: seq<string>)
    requires forall i, j | 0 <= i < j < |ids| :: Leq(used, p, ids[i], ids[j])
    ensures LeastRecentFirst(used, p, ids)
  {
    hide Leq, Ascends;
    forall i, j | 0 <= i < j < |ids|
      ensures var a, b := CredKey(p, ids[i]), CredKey(p, ids[j]);
              && (a in used ==> b in used && used[a] <= used[b])
              && (a !in used && b !in used ==> Ascends(ids[i], ids[j]))
              && (a in used && b in used && used[a] == used[b] ==> Ascends(ids[i], ids[j]))
    {
      LeqIs(used, p, ids[i], ids[j]);
    }
  }

  /** orderCredentials: a sorted copy. Each credential is placed after those not
      above it, so equal keys keep their order. */
  method OrderCredentials(p: string, creds: seq<Credential>, used: Uses) returns (out: seq<Credential>)
    ensures Sorted(used, p, out) && multiset(out) == multiset(creds)
    ensures LeastRecentFirst(used, p, CredIds(out))
  {
    hide Leq, LeastRecentFirst;
    out := [];
    var n := 0;
    assert creds[..0] == [];
    while n < |creds|
      invariant 0 <= n <= |creds| && Sorted(used, p, out) && multiset(out) == multiset(creds[..n])
    {
      var c, k := creds[n], |out|;
      while k > 0 && !Leq(used, p, out[k - 1].id, c.id)
        invariant 0 <= k <= |out|
        invariant forall i | k <= i < |out| :: Leq(used, p, c.id, out[i].id)
      {
        LeqOrder(used, p, out[k - 1].id, c.id, c.id);
        k := k - 1;
      }
      forall i | 0 <= i < k
        ensures Leq(used, p, out[i].id, c.id)
      {
        if i < k - 1 { LeqOrder(used, p, out[i].id, out[k - 1].id, c.id); }
      }
      InsertSorted(used, p, out, k, c, out[..k] + [c] + out[k..]);
      InsertContents(out, k, c);
      assert creds[..n + 1] == creds[..n] + [c];
      out := out[..k] + [c] + out[k..];
      n := n + 1;
    }
    assert creds[..n] == creds;
    AscendingIs(used, p, CredIds(out));
  }

  predicate DistinctIds(s: seq<Credential>) {
    forall i, j | 0 <= i < j < |s| :: s[i].id != s[j].id
  }

  /** The least element comes first in every order of the same credentials. */
  lemma SameHead(used: Uses, p: string, a: seq<Credential>, b: seq<Credential>)
    requires Sorted(used, p, a) && Sorted(used, p, b) && multiset(a) == multiset(b) && DistinctIds(a)
    requires a != [] && b != []
    ensures a[0] == b[0]
  {
    hide Leq;
    assert b[0] in multiset(a) && a[0] in multiset(b);
    var i :| 0 <= i < |a| && a[i] == b[0];
    var j :| 0 <= j < |b| && b[j] == a[0];
    LeqOrder(used, p, a[0].id, b[0].id, b[0].id);
  }

  lemma DropHead(s: seq<Credential>)
    requires s != []
    ensures multiset(s[1..]) == multiset(s) - multiset{s[0]}
  {
    assert s == [s[0]] + s[1..];
  }

  /** With distinct ids there is one such order: it does not depend on the slice's. */
  lemma {:induction false} OrderIsUnique(used: Uses, p: string, a: seq<Credential>, b: seq<Credential>)
    requires Sorted(used, p, a) && Sorted(used, p, b) && multiset(a) == multiset(b) && DistinctIds(a)
    ensures a == b
    decreases |a|
  {
    hide Leq;
    assert |a| == |multiset(a)| == |multiset(b)| == |b|;
    if a != [] {
      SameHead(used, p, a, b);
      DropHead(a);
      DropHead(b);
      OrderIsUnique(used, p, a[1..], b[1..]);
      assert a == [a[0]] + a[1..] && b == [b[0]] + b[1..];
    }
  }

  // ----------------------------------------------------------- the filter

  datatype Reason = Disabled | Surface | Removed | Unsanctioned | AdapterSurface | Capability | NoCredential | CoolingDown

  datatype Provider = Provider(id: string, creds: seq<Credential>, keyless: bool, allowUnsanctioned: bool)

  /** What the catalog and adapters say of one model at one provider. */
  datatype Offer = Offer(onSurface: bool, routable: bool, vetoed: bool, adapterRenders: bool, capable: bool)

  datatype Cand = Cand(provider: string, cred: string, model: string)
  datatype Skipped = Skipped(provider: string, cred: string, model: string, reason: Reason)

  /** The first check a target fails, durable problems before transient ones. */
  function Fault(p: Option<Provider>, o: Offer): Option<Reason> {
    if p.None? then Some(Disabled)
    else if !o.onSurface then Some(Surface)
    else if !o.routable then Some(Removed)
    else if o.vetoed && !p.value.allowUnsanctioned then Some(Unsanctioned)
    else if !o.adapterRenders then Some(AdapterSurface)
    else if !o.capable then Some(Capability)
    else if p.value.creds == [] && !p.value.keyless then Some(NoCredential)
    else None
  }

  /** The check whose failure is named is the first that fails, in this order. */
  lemma FaultIsFirst(p: Option<Provider>, o: Offer)
    ensures var known, offered := p.Some?, o.onSurface;
            var lives := known && offered && o.routable;
            var allowed := lives && (!o.vetoed || p.value.allowUnsanctioned);
            var rendered := allowed && o.adapterRenders;
            var able := rendered && o.capable;
            && (Fault(p, o) == Some(Disabled) <==> !known)
            && (Fault(p, o) == Some(Surface) <==> known && !offered)
            && (Fault(p, o) == Some(Removed) <==> known && offered && !o.routable)
            && (Fault(p, o) == Some(Unsanctioned) <==> lives && !allowed)
            && (Fault(p, o) == Some(AdapterSurface) <==> allowed && !o.adapterRenders)
            && (Fault(p, o) == Some(Capability) <==> rendered && !o.capable)
            && (Fault(p, o) == Some(NoCredential) <==> able && p.value.creds == [] && !p.value.keyless)
            && (Fault(p, o) == None <==> able && (p.value.creds != [] || p.value.keyless))
  {
  }

  /** A keyless provider is one attempt with no credential. */
  function CredsOf(p: Provider): seq<Credential> {
    if p.creds == [] then [Credential("", 0)] else p.creds
  }

  predicate Up(cooling: set<Key>, p: string, model: string, c: Credential) {
    FrozenAvailable(cooling, Key(p, c.id, model))
  }

  function CandsOf(cooling: set<Key>, p: string, model: string, creds: seq<Credential>): seq<Cand> {
    if creds == [] then []
    else
      var n := |creds| - 1;
      CandsOf(cooling, p, model, creds[..n])
      + (if Up(cooling, p, model, creds[n]) then [Cand(p, creds[n].id, model)] else [])
  }

  function CoolingOf(cooling: set<Key>, p: string, model: string, creds: seq<Credential>): seq<Skipped> {
    if creds == [] then []
    else
      var n := |creds| - 1;
      CoolingOf(cooling, p, model, creds[..n])
      + (if Up(cooling, p, model, creds[n]) then [] else [Skipped(p, creds[n].id, model, CoolingDown)])
  }

  /** filterTarget's last loop. */
  method ShareOut(id: string, model: string, creds: seq<Credential>, cooling: set<Key>)
    returns (cands: seq<Cand>, skips: seq<Skipped>)
    ensures cands == CandsOf(cooling, id, model, creds) && skips == CoolingOf(cooling, id, model, creds)
  {
    hide Up;
    cands, skips := [], [];
    var n := 0;
    assert creds[..0] == [];
    while n < |creds|
      invariant 0 <= n <= |creds|
      invariant cands == CandsOf(cooling, id, model, creds[..n])
      invariant skips == CoolingOf(cooling, id, model, creds[..n])
    {
      assert creds[..n + 1][..n] == creds[..n];
      if Up(cooling, id, model, creds[n]) {
        cands := cands + [Cand(id, creds[n].id, model)];
      } else {
        skips := skips + [Skipped(id, creds[n].id, model, CoolingDown)];
      }
      n := n + 1;
    }
    assert creds[..n] == creds;
  }

  /** filterTarget: a faulty target gives one skip that names its first fault; any
      other gives each credential exactly once, up or cooling, both in the order. */
  method FilterTarget(id: string, model: string, p: Option<Provider>, o: Offer, used: Uses, cooling: set<Key>)
    returns (cands: seq<Cand>, skips: seq<Skipped>, ghost order: seq<Credential>)
    requires p.Some? ==> p.value.id == id
    ensures Fault(p, o).Some? ==> cands == [] && skips == [Skipped(id, "", model, Fault(p, o).value)]
    ensures Fault(p, o).None? ==>
              && p.Some? && Sorted(used, id, order) && multiset(order) == multiset(CredsOf(p.value))
              && cands == CandsOf(cooling, id, model, order) && skips == CoolingOf(cooling, id, model, order)
              && LeastRecentFirst(used, id, Ids(cands)) && LeastRecentFirst(used, id, SkipIds(skips))
              && (if p.value.creds == [] then CredIds(order) == [""] else multiset(order) == multiset(p.value.creds))
  {
    hide Leq, LeastRecentFirst, CandsOf, CoolingOf;
    cands, skips, order := [], [], [];
    if p.None? { return [], [Skipped(id, "", model, Disabled)], order; }
    if !o.onSurface { return [], [Skipped(id, "", model, Surface)], order; }
    if !o.routable { return [], [Skipped(id, "", model, Removed)], order; }
    if o.vetoed && !p.value.allowUnsanctioned { return [], [Skipped(id, "", model, Unsanctioned)], order; }
    if !o.adapterRenders { return [], [Skipped(id, "", model, AdapterSurface)], order; }
    if !o.capable { return [], [Skipped(id, "", model, Capability)], order; }
    var creds := OrderCredentials(id, p.value.creds, used);
    if |creds| == 0 {
      assert |p.value.creds| == |multiset(p.value.creds)| == |multiset(creds)| == 0;
      if !p.value.keyless { return [], [Skipped(id, "", model, NoCredential)], order; }
      creds := [Credential("", 0)];
    } else {
      assert p.value.creds == [] ==> |multiset(creds)| == 0;
    }
    order := creds;
    cands, skips := ShareOut(id, model, creds, cooling);
    CandidatesInUseOrder(used, cooling, id, model, creds);
  }

  lemma {:induction false} SharedOut(cooling: set<Key>, p: string, model: string, creds: seq<Credential>)
    ensures multiset(Ids(CandsOf(cooling, p, model, creds))) + multiset(SkipIds(CoolingOf(cooling, p, model, creds)))
            == multiset(CredIds(creds))
  {
    hide Up;
    if creds != [] {
      var n := |creds| - 1;
      var init, c := creds[..n], creds[n];
      assert creds == init + [c];
      SharedOut(cooling, p, model, init);
      var cs, ss := CandsOf(cooling, p, model, init), CoolingOf(cooling, p, model, init);
      IdsSnoc(cs, Cand(p, c.id, model), ss, Skipped(p, c.id, model, CoolingDown), init, c);
      assert cs + [] == cs && ss + [] == ss;
    }
  }

  /** Candidates and cooling skips share the credentials out: none twice, none
      lost. */
  lemma {:induction false} EachCredentialOnce(cooling: set<Key>, p: string, model: string, creds: seq<Credential>)
    ensures |CandsOf(cooling, p, model, creds)| + |CoolingOf(cooling, p, model, creds)| == |creds|
    ensures forall c | c in creds ::
              if (model != "" ==> Key(p, c.id, "") !in cooling) && Key(p, c.id, model) !in cooling
              then Cand(p, c.id, model) in CandsOf(cooling, p, model, creds)
              else Skipped(p, c.id, model, CoolingDown) in CoolingOf(cooling, p, model, creds)
    ensures multiset(Ids(CandsOf(cooling, p, model, creds))) + multiset(SkipIds(CoolingOf(cooling, p, model, creds)))
            == multiset(CredIds(creds))
  {
    SharedOut(cooling, p, model, creds);
    hide Ids, SkipIds, CredIds;
    if creds != [] {
      var n := |creds| - 1;
      assert creds == creds[..n] + [creds[n]];
      EachCredentialOnce(cooling, p, model, creds[..n]);
    }
  }

  function Ids(s: seq<Cand>): seq<string> {
    seq(|s|, i requires 0 <= i < |s| => s[i].cred)
  }

  function SkipIds(s: seq<Skipped>): seq<string> {
    seq(|s|, i requires 0 <= i < |s| => s[i].cred)
  }

  function CredIds(s: seq<Credential>): seq<string> {
    seq(|s|, i requires 0 <= i < |s| => s[i].id)
  }

  lemma IdsSnoc(cs: seq<Cand>, x: Cand, ss: seq<Skipped>, y: Skipped, creds: seq<Credential>, c: Credential)
    ensures multiset(Ids(cs + [x])) == multiset(Ids(cs)) + multiset{x.cred}
    ensures multiset(SkipIds(ss + [y])) == multiset(SkipIds(ss)) + multiset{y.cred}
    ensures multiset(CredIds(creds + [c])) == multiset(CredIds(creds)) + multiset{c.id}
  {
    assert Ids(cs + [x]) == Ids(cs) + [x.cred];
    assert SkipIds(ss + [y]) == SkipIds(ss) + [y.cred];
    assert CredIds(creds + [c]) == CredIds(creds) + [c.id];
  }

  /** A row comes from a credential in the state the row says. */
  lemma {:induction false} FromACredential(cooling: set<Key>, p: string, model: string, creds: seq<Credential>)
    ensures forall x | x in CandsOf(cooling, p, model, creds) ::
              exists i | 0 <= i < |creds| :: Up(cooling, p, model, creds[i]) && x == Cand(p, creds[i].id, model)
    ensures forall x | x in CoolingOf(cooling, p, model, creds) ::
              exists i | 0 <= i < |creds| ::
                !Up(cooling, p, model, creds[i]) && x == Skipped(p, creds[i].id, model, CoolingDown)
  {
    if creds != [] {
      var n := |creds| - 1;
      var init := creds[..n];
      FromACredential(cooling, p, model, init);
      assert forall i | 0 <= i < n :: init[i] == creds[i];
    }
  }

  ghost predicate Ascending(used: Uses, p: string, ids: seq<string>) {
    forall i, j | 0 <= i < j < |ids| :: Leq(used, p, ids[i], ids[j])
  }

  /** Candidates and cooling rows each keep to the order. */
  lemma {:induction false} InTheOrder(used: Uses, cooling: set<Key>, p: string, model: string, creds: seq<Credential>)
    requires Sorted(used, p, creds)
    ensures Ascending(used, p, Ids(CandsOf(cooling, p, model, creds)))
    ensures Ascending(used, p, SkipIds(CoolingOf(cooling, p, model, creds)))
  {
    hide Leq, Up;
    if creds != [] {
      var n := |creds| - 1;
      var init, c := creds[..n], creds[n];
      InTheOrder(used, cooling, p, model, init);
      FromACredential(cooling, p, model, init);
      var cs, ss := CandsOf(cooling, p, model, init), CoolingOf(cooling, p, model, init);
      assert forall k | 0 <= k < n :: init[k] == creds[k] && Leq(used, p, creds[k].id, c.id);
      forall i | 0 <= i < |cs|
        ensures Leq(used, p, Ids(cs)[i], c.id)
      {
        assert cs[i] in cs;
        var k :| 0 <= k < n && cs[i] == Cand(p, init[k].id, model);
      }
      forall i | 0 <= i < |ss|
        ensures Leq(used, p, SkipIds(ss)[i], c.id)
      {
        assert ss[i] in ss;
        var k :| 0 <= k < n && ss[i] == Skipped(p, init[k].id, model, CoolingDown);
      }
      assert Ids(cs + [Cand(p, c.id, model)]) == Ids(cs) + [c.id];
      assert SkipIds(ss + [Skipped(p, c.id, model, CoolingDown)]) == SkipIds(ss) + [c.id];
      assert cs + [] == cs && ss + [] == ss;
    }
  }

  /** One target's candidates, and its cooling rows, are least recently used first. */
  lemma CandidatesInUseOrder(used: Uses, cooling: set<Key>, p: string, model: string, creds: seq<Credential>)
    requires Sorted(used, p, creds)
    ensures LeastRecentFirst(used, p, Ids(CandsOf(cooling, p, model, creds)))
    ensures LeastRecentFirst(used, p, SkipIds(CoolingOf(cooling, p, model, creds)))
  {
    hide Leq, CandsOf, CoolingOf, LeastRecentFirst;
    InTheOrder(used, cooling, p, model, creds);
    AscendingIs(used, p, Ids(CandsOf(cooling, p, model, creds)));
    AscendingIs(used, p, SkipIds(CoolingOf(cooling, p, model, creds)));
  }

  // ------------------------------------------------------ empty results

  datatype Failure = ModelNotFound | SurfaceUnsupported | AllCooling | CapabilityUnsatisfied | UnsanctionedFree

  predicate Has(skips: seq<Skipped>, r: Reason) {
    exists i | 0 <= i < |skips| :: skips[i].reason == r
  }

  /** emptyReason: cooling only when it explains everything; otherwise the opt-in,
      the surface, the capabilities, in that order. */
  method EmptyReason(skips: seq<Skipped>) returns (f: Failure)
    ensures f == if skips == [] then ModelNotFound
                 else if forall i | 0 <= i < |skips| :: skips[i].reason == CoolingDown then AllCooling
                 else if Has(skips, Unsanctioned) then UnsanctionedFree
                 else if Has(skips, Surface) || Has(skips, AdapterSurface) then SurfaceUnsupported
                 else if Has(skips, Capability) then CapabilityUnsatisfied
                 else ModelNotFound
  {
    if |skips| == 0 { return ModelNotFound; }
    var allCooling, sawSurface, sawCapability, sawUnsanctioned := true, false, false, false;
    var n := 0;
    while n < |skips|
      invariant 0 <= n <= |skips|
      invariant allCooling <==> forall i | 0 <= i < n :: skips[i].reason == CoolingDown
      invariant sawSurface <==> exists i | 0 <= i < n :: skips[i].reason == Surface || skips[i].reason == AdapterSurface
      invariant sawCapability <==> exists i | 0 <= i < n :: skips[i].reason == Capability
      invariant sawUnsanctioned <==> exists i | 0 <= i < n :: skips[i].reason == Unsanctioned
    {
      match skips[n].reason {
        case CoolingDown =>
        case Surface => allCooling, sawSurface := false, true;
        case AdapterSurface => allCooling, sawSurface := false, true;
        case Capability => allCooling, sawCapability := false, true;
        case Unsanctioned => allCooling, sawUnsanctioned := false, true;
        case _ => allCooling := false;
      }
      n := n + 1;
    }
    return if allCooling then AllCooling
           else if sawUnsanctioned then UnsanctionedFree
           else if sawSurface then SurfaceUnsupported
           else if sawCapability then CapabilityUnsatisfied
           else ModelNotFound;
  }

  // ---------------------------------------------------------- resolution

  /** One resolved target, with its provider if the snapshot has it. */
  datatype Target = Target(id: string, model: string, p: Option<Provider>, o: Offer)

  predicate Proper(t: Target) {
    t.p.Some? ==> t.p.value.id == t.id
  }

  /** The target passes every check and a credential of it is up (down). */
  ghost predicate Serves(cooling: set<Key>, t: Target) {
    Fault(t.p, t.o).None? && exists c | c in CredsOf(t.p.value) :: Up(cooling, t.id, t.model, c)
  }

  ghost predicate Cools(cooling: set<Key>, t: Target) {
    Fault(t.p, t.o).None? && exists c | c in CredsOf(t.p.value) :: !Up(cooling, t.id, t.model, c)
  }

  /** The reason r is on record for t. */
  ghost predicate Explains(cooling: set<Key>, t: Target, r: Reason) {
    if r == CoolingDown then Cools(cooling, t) else Fault(t.p, t.o) == Some(r)
  }

  /** A surviving target's rows say of it exactly what is so. */
  lemma RowsAreTrue(cooling: set<Key>, t: Target, order: seq<Credential>)
    requires t.p.Some? && Fault(t.p, t.o).None?
    requires multiset(order) == multiset(CredsOf(t.p.value))
    ensures CandsOf(cooling, t.id, t.model, order) != [] <==> Serves(cooling, t)
    ensures forall r :: Has(CoolingOf(cooling, t.id, t.model, order), r) <==> Explains(cooling, t, r)
  {
    hide Leq, Fault, CandsOf, CoolingOf, Sorted, CredsOf;
    var cs, ss := CandsOf(cooling, t.id, t.model, order), CoolingOf(cooling, t.id, t.model, order);
    EachCredentialOnce(cooling, t.id, t.model, order);
    FromACredential(cooling, t.id, t.model, order);
    forall c
      ensures c in order <==> c in CredsOf(t.p.value)
    {
      assert c in multiset(order) <==> c in multiset(CredsOf(t.p.value));
    }
    if cs != [] { assert cs[0] in cs; }
    if ss != [] { assert ss[0] in ss; }
    assert forall i | 0 <= i < |ss| :: ss[i] in ss;
  }

  lemma HasConcat(a: seq<Skipped>, b: seq<Skipped>, r: Reason)
    ensures Has(a + b, r) <==> Has(a, r) || Has(b, r)
  {
    if Has(b, r) {
      var i :| 0 <= i < |b| && b[i].reason == r;
      assert (a + b)[|a| + i].reason == r;
    }
    if Has(a, r) {
      var i :| 0 <= i < |a| && a[i].reason == r;
      assert (a + b)[i].reason == r;
    }
  }

  /** Fault names only the seven lasting reasons; a survivor has a credential. */
  lemma FaultFacts(t: Target)
    ensures Fault(t.p, t.o) != Some(CoolingDown)
    ensures Fault(t.p, t.o).None? ==> t.p.Some? && CredsOf(t.p.value)[0] in CredsOf(t.p.value)
  {
  }

  /** The order in which a surviving target's credentials are looked at. */
  ghost predicate OrderOf(used: Uses, t: Target, order: seq<Credential>) {
    Fault(t.p, t.o).None? ==>
      t.p.Some? && Sorted(used, t.id, order) && multiset(order) == multiset(CredsOf(t.p.value))
  }

  /** One target's candidates and skips, its credentials looked at in this order. */
  function CandsAt(cooling: set<Key>, t: Target, order: seq<Credential>): seq<Cand> {
    if Fault(t.p, t.o).Some? then [] else CandsOf(cooling, t.id, t.model, order)
  }

  function SkipsAt(cooling: set<Key>, t: Target, order: seq<Credential>): seq<Skipped> {
    if Fault(t.p, t.o).Some? then [Skipped(t.id, "", t.model, Fault(t.p, t.o).value)]
    else CoolingOf(cooling, t.id, t.model, order)
  }

  /** All the targets', in the targets' order. */
  function AllCands(cooling: set<Key>, targets: seq<Target>, orders: seq<seq<Credential>>): seq<Cand>
    requires |targets| == |orders|
  {
    if targets == [] then []
    else
      var n := |targets| - 1;
      AllCands(cooling, targets[..n], orders[..n]) + CandsAt(cooling, targets[n], orders[n])
  }

  function AllSkips(cooling: set<Key>, targets: seq<Target>, orders: seq<seq<Credential>>): seq<Skipped>
    requires |targets| == |orders|
  {
    if targets == [] then []
    else
      var n := |targets| - 1;
      AllSkips(cooling, targets[..n], orders[..n]) + SkipsAt(cooling, targets[n], orders[n])
  }

  lemma AllSnoc(cooling: set<Key>, targets: seq<Target>, orders: seq<seq<Credential>>, t: Target, o: seq<Credential>)
    requires |targets| == |orders|
    ensures AllCands(cooling, targets + [t], orders + [o]) == AllCands(cooling, targets, orders) + CandsAt(cooling, t, o)
    ensures AllSkips(cooling, targets + [t], orders + [o]) == AllSkips(cooling, targets, orders) + SkipsAt(cooling, t, o)
  {
    assert (targets + [t])[..|targets|] == targets && (orders + [o])[..|orders|] == orders;
  }

  /** Earlier targets' candidates and skips come first. */
  lemma {:induction false} EarlierTargetsFirst(cooling: set<Key>, targets: seq<Target>, orders: seq<seq<Credential>>, n: nat)
    requires n <= |targets| == |orders|
    ensures AllCands(cooling, targets[..n], orders[..n]) <= AllCands(cooling, targets, orders)
    ensures AllSkips(cooling, targets[..n], orders[..n]) <= AllSkips(cooling, targets, orders)
    decreases |targets|
  {
    hide CandsAt, SkipsAt;
    if n == |targets| {
      assert targets[..n] == targets && orders[..n] == orders;
    } else {
      var m := |targets| - 1;
      assert targets[..m][..n] == targets[..n] && orders[..m][..n] == orders[..n];
      EarlierTargetsFirst(cooling, targets[..m], orders[..m], n);
    }
  }

  /** Neither the credential itself nor the model on it is cooling. */
  predicate NotCooling(cooling: set<Key>, t: Target, c: Credential) {
    (t.model != "" ==> Key(t.id, c.id, "") !in cooling) && Key(t.id, c.id, t.model) !in cooling
  }

  /** A target that fails a check gives one skip for that; of any other each credential
      that is not cooling is a candidate, and each that is a skip. Nothing else comes
      back. */
  lemma RowsOfTarget(cooling: set<Key>, t: Target, order: seq<Credential>)
    ensures Fault(t.p, t.o).Some? ==>
              && CandsAt(cooling, t, order) == []
              && SkipsAt(cooling, t, order) == [Skipped(t.id, "", t.model, Fault(t.p, t.o).value)]
    ensures Fault(t.p, t.o).None? ==>
              && (forall c | c in order && NotCooling(cooling, t, c) ::
                    Cand(t.id, c.id, t.model) in CandsAt(cooling, t, order))
              && (forall c | c in order && !NotCooling(cooling, t, c) ::
                    Skipped(t.id, c.id, t.model, CoolingDown) in SkipsAt(cooling, t, order))
              && |CandsAt(cooling, t, order)| + |SkipsAt(cooling, t, order)| == |order|
  {
    hide Fault, CandsOf, CoolingOf;
    EachCredentialOnce(cooling, t.id, t.model, order);
  }

  method ResolveOne(t: Target, used: Uses, cooling: set<Key>)
    returns (cands: seq<Cand>, skips: seq<Skipped>, ghost order: seq<Credential>)
    requires Proper(t)
    ensures OrderOf(used, t, order) && cands == CandsAt(cooling, t, order) && skips == SkipsAt(cooling, t, order)
    ensures LeastRecentFirst(used, t.id, Ids(cands))
    ensures cands != [] <==> Serves(cooling, t)
    ensures forall r :: Has(skips, r) <==> Explains(cooling, t, r)
  {
    hide Leq, Up, Fault, CandsOf, CoolingOf, Sorted, CredsOf;
    FaultFacts(t);
    cands, skips, order := FilterTarget(t.id, t.model, t.p, t.o, used, cooling);
    if Fault(t.p, t.o).None? {
      RowsAreTrue(cooling, t, order);
    } else {
      assert skips[0].reason == Fault(t.p, t.o).value;
    }
  }

  lemma NoRows()
    ensures forall r :: !Has([], r)
  {
  }

  /** With nothing serving, the rows are all cooling exactly when no target is at
      fault, and hold a lasting reason exactly when a target has it. */
  lemma ReasonIsTrue(targets: seq<Target>, cooling: set<Key>, skips: seq<Skipped>)
    requires targets != [] && forall t | t in targets :: !Serves(cooling, t)
    requires forall r :: Has(skips, r) <==> exists t | t in targets :: Explains(cooling, t, r)
    ensures skips != []
    ensures (forall i | 0 <= i < |skips| :: skips[i].reason == CoolingDown)
            <==> forall t | t in targets :: Fault(t.p, t.o).None?
    ensures forall r | r != CoolingDown ::
              Has(skips, r) <==> exists t | t in targets :: Fault(t.p, t.o) == Some(r)
  {
    hide Fault, CredsOf;
    var t := targets[0];
    assert t in targets && !Serves(cooling, t);
    FaultFacts(t);
    if Fault(t.p, t.o).None? {
      var c := CredsOf(t.p.value)[0];
      assert !Up(cooling, t.id, t.model, c);
      assert Explains(cooling, t, CoolingDown) && Has(skips, CoolingDown);
    } else {
      assert Explains(cooling, t, Fault(t.p, t.o).value) && Has(skips, Fault(t.p, t.o).value);
    }
    forall i | 0 <= i < |skips|
      ensures Has(skips, skips[i].reason)
    {
    }
    forall u | u in targets && Fault(u.p, u.o).Some?
      ensures Has(skips, Fault(u.p, u.o).value) && Fault(u.p, u.o).value != CoolingDown
    {
      FaultFacts(u);
      assert Explains(cooling, u, Fault(u.p, u.o).value);
    }
  }

  /** Resolve's loop over the targets. */
  method ResolveAll(targets: seq<Target>, used: Uses, cooling: set<Key>)
    returns (cands: seq<Cand>, skips: seq<Skipped>, ghost orders: seq<seq<Credential>>)
    requires forall t | t in targets :: Proper(t)
    ensures |orders| == |targets| && forall i | 0 <= i < |targets| :: OrderOf(used, targets[i], orders[i])
    ensures cands == AllCands(cooling, targets, orders) && skips == AllSkips(cooling, targets, orders)
    ensures forall i | 0 <= i < |targets| ::
              LeastRecentFirst(used, targets[i].id, Ids(CandsAt(cooling, targets[i], orders[i])))
    ensures cands != [] <==> exists t | t in targets :: Serves(cooling, t)
    ensures forall r :: Has(skips, r) <==> exists t | t in targets :: Explains(cooling, t, r)
  {
    hide Fault, CandsOf, CoolingOf, Has, Explains, Serves, OrderOf, CandsAt, SkipsAt, AllCands, AllSkips, Proper, LeastRecentFirst;
    cands, skips, orders := [], [], [];
    NoRows();
    NoTargets(cooling);
    var n := 0;
    while n < |targets|
      invariant 0 <= n <= |targets|
      invariant |orders| == n && forall i | 0 <= i < n :: OrderOf(used, targets[i], orders[i])
      invariant forall i | 0 <= i < n ::
                  LeastRecentFirst(used, targets[i].id, Ids(CandsAt(cooling, targets[i], orders[i])))
      invariant cands == AllCands(cooling, targets[..n], orders) && skips == AllSkips(cooling, targets[..n], orders)
      invariant cands != [] <==> exists t | t in targets[..n] :: Serves(cooling, t)
      invariant forall r :: Has(skips, r) <==> exists t | t in targets[..n] :: Explains(cooling, t, r)
    {
      var t := targets[n];
      assert targets[..n + 1] == targets[..n] + [t];
      var cs, ss, order := ResolveOne(t, used, cooling);
      AllSnoc(cooling, targets[..n], orders, t, order);
      forall r { HasConcat(skips, ss, r); }
      cands, skips, orders, n := cands + cs, skips + ss, orders + [order], n + 1;
    }
    assert targets[..n] == targets;
  }

  lemma NoTargets(cooling: set<Key>)
    ensures AllCands(cooling, [], []) == [] && AllSkips(cooling, [], []) == []
  {
  }

  /** Resolve, after the name is resolved. Target by target, in order, the candidates are
      the available credentials, least recently used first. It fails exactly when no
      target serves, and says "all cooling" exactly when every target would pass but for
      that. */
  method Resolve(targets: seq<Target>, used: Uses, cooling: set<Key>)
    returns (cands: seq<Cand>, skips: seq<Skipped>, failure: Option<Failure>, ghost orders: seq<seq<Credential>>)
    requires forall t | t in targets :: Proper(t)
    ensures |orders| == |targets| && forall i | 0 <= i < |targets| :: OrderOf(used, targets[i], orders[i])
    ensures cands == AllCands(cooling, targets, orders) && skips == AllSkips(cooling, targets, orders)
    ensures forall i | 0 <= i < |targets| ::
              LeastRecentFirst(used, targets[i].id, Ids(CandsAt(cooling, targets[i], orders[i])))
    ensures forall n | 0 <= n <= |targets| ::
              && AllCands(cooling, targets[..n], orders[..n]) <= cands
              && AllSkips(cooling, targets[..n], orders[..n]) <= skips
    ensures failure.Some? <==> cands == []
    ensures failure.None? <==> exists t | t in targets :: Serves(cooling, t)
    ensures failure == Some(AllCooling) <==>
              targets != [] && forall t | t in targets :: Fault(t.p, t.o).None? && !Serves(cooling, t)
    ensures failure == Some(UnsanctionedFree) <==>
              cands == [] && exists t | t in targets :: Fault(t.p, t.o) == Some(Unsanctioned)
    ensures failure == Some(SurfaceUnsupported) <==>
              && cands == [] && (forall t | t in targets :: Fault(t.p, t.o) != Some(Unsanctioned))
              && exists t | t in targets :: Fault(t.p, t.o) == Some(Surface) || Fault(t.p, t.o) == Some(AdapterSurface)
    ensures forall r :: Has(skips, r) <==> exists t | t in targets :: Explains(cooling, t, r)
  {
    hide Fault, Explains, Serves, OrderOf, AllCands, AllSkips, Proper, LeastRecentFirst;
    if |targets| == 0 {
      NoTargets(cooling);
      NoRows();
      return [], [], Some(ModelNotFound), [];
    }
    cands, skips, orders := ResolveAll(targets, used, cooling);
    forall n | 0 <= n <= |targets|
      ensures AllCands(cooling, targets[..n], orders[..n]) <= cands
      ensures AllSkips(cooling, targets[..n], orders[..n]) <= skips
    {
      EarlierTargetsFirst(cooling, targets, orders, n);
    }
    if |cands| == 0 {
      var f := EmptyReason(skips);
      ReasonIsTrue(targets, cooling, skips);
      return [], skips, Some(f), orders;
    }
    return cands, skips, None, orders;
  }
}
