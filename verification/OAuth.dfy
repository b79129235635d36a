/** The OAuth refresh protocol of internal/auth/oauth.go and lock.go, for one
    credential kept in a store.

    Requests, Forget, operator writes to the row and the substeps of a renewal are
    atomic steps interleaved in any order. The lock holder is its own thread of
    control: a caller that stops waiting does not stop it (detach), so nothing
    here depends on the caller. Every write to the row by an operator opens a new
    lineage, numbered by `epoch`; a pair belongs to the lineage of the row it was
    read from or refreshed from, or that has since been given the same text. */
module OAuth {
  import opened Options

  datatype Token = Token(access: string, refresh: string, expires: Option<int>)
  {
    /** A token with no stated expiry never expires. */
    predicate Expired(now: int, delta: int) {
      expires.Some? && expires.value <= now + delta
    }

    predicate Usable(now: int, delta: int) {
      access != "" && !Expired(now, delta)
    }
  }

  /** A stored document: what it parses to, if it parses, and which of the many
      texts for that token it is. The gateway writes form 0. */
  datatype Secret = Secret(doc: Option<Token>, form: nat)

  function Marshal(t: Token): Secret {
    Secret(Some(t), 0)
  }

  const DELTA: int := 60

  datatype Account = Account(tok: Token, secret: Secret, unpersisted: bool, dead: bool, stale: bool,
                             loaded: bool, origin: nat)

  /** Where the lock holder is; `floor` belongs to the call that took the lock. */
  datatype Pc =
    | Idle
    | Locked(floor: nat)
    | Renewing(floor: nat)
    | Retrying(floor: nat)
    | Retried(floor: nat)
    | Testing(floor: nat)
    | Clearing(floor: nat)
    | Reading(floor: nat)
    | Unread(floor: nat)
    | Ready(floor: nat)
    | Sent(floor: nat)
    | Received(floor: nat, next: Token)
    | Refusing(floor: nat)

  /** `forgotten` is the lineage current at the last Forget, `waiting` the floors
      of calls not yet holding the lock, and newest[e] the last refresh token the
      gateway received in lineage e. */
  datatype State = State(row: Option<Secret>, epoch: nat, enabled: bool, acct: Option<Account>, pc: Pc,
                         waiting: multiset<nat>, forgotten: nat, newest: seq<string>)

  datatype Reply = Granted(tok: Token) | Refused | Transient

  datatype Action =
    | Operator(secret: Option<Secret>)
    | Forget
    | Call(snapshot: Secret)
    | GiveUp(floor: nat)
    | Lock(floor: nat)
    | FastPath(now: int)
    | Renew
    | Retry(works: bool)
    | AfterRetry
    | TestStale
    | ClearStale
    | ReadRow(works: bool)
    | MarkUnread
    | Decide(now: int)
    | Answer(reply: Reply)
    | Save(works: bool)
    | Refuse(works: bool)

  /** What the outside sees of a step. A header is served from the account as it stood at
      a clock reading, at once or after a renewal, or from a pair just minted. */
  datatype Observation =
    | Header(floor: nat, acct: Account, now: int, atOnce: bool)
    | Minted(floor: nat, origin: nat, tok: Token)
    | Presented(refresh: string, newest: string)
    | Wrote(origin: nat, epoch: nat)
    | Disabled(origin: nat, epoch: nat)

  predicate Matches(s: State)
    requires s.acct.Some?
  {
    s.row == Some(s.acct.value.secret)
  }

  /** The operator wrote the very text the account's pair hangs on. */
  predicate SameText(s: State, secret: Option<Secret>) {
    s.acct.Some? && s.acct.value.loaded && secret == Some(s.acct.value.secret)
  }

  predicate Enabled(s: State, a: Action) {
    match a
    case Operator(secret) => SameText(s, secret) ==> s.acct.value.origin < |s.newest|
    case Forget => true
    case Call(snapshot) => snapshot.doc.Some?
    case GiveUp(floor) => floor in s.waiting
    case Lock(floor) => floor in s.waiting && s.pc.Idle? && s.acct.Some?
    case FastPath(_) => s.pc.Locked? && s.acct.Some?
    case Renew => s.pc.Renewing? && s.acct.Some?
    case Retry(_) => s.pc.Retrying? && s.acct.Some?
    case AfterRetry => s.pc.Retried? && s.acct.Some?
    case TestStale => s.pc.Testing? && s.acct.Some?
    case ClearStale => s.pc.Clearing? && s.acct.Some?
    case ReadRow(_) => s.pc.Reading? && s.acct.Some?
    case MarkUnread => s.pc.Unread? && s.acct.Some?
    case Decide(_) => s.pc.Ready? && s.acct.Some? && s.acct.value.origin < |s.newest|
    case Answer(reply) => s.pc.Sent? && s.acct.Some? && s.acct.value.origin < |s.newest|
                          && (reply.Granted? ==> reply.tok.access != "")
    case Save(_) => s.pc.Received? && s.acct.Some?
    case Refuse(_) => s.pc.Refusing? && s.acct.Some?
  }

  /** A refresh that returns no new refresh token keeps the one it was sent. */
  function Renewed(sent: Token, granted: Token): Token {
    if granted.refresh == "" then granted.(refresh := sent.refresh) else granted
  }

  function With(s: State, acct: Account, pc: Pc): State {
    s.(acct := Some(acct), pc := pc)
  }

  function Do(s: State, a: Action): State
    requires Enabled(s, a)
  {
    match a
    case Operator(secret) =>
      // A pair that hangs on the text just written is the new lineage's own: nobody who
      // reads the row could tell otherwise.
      if SameText(s, secret) then
        var x := s.acct.value;
        var refresh := if x.unpersisted || s.pc.Received? then s.newest[x.origin] else RefreshOf(secret);
        s.(row := secret, epoch := s.epoch + 1, enabled := true, newest := s.newest + [refresh],
           acct := Some(x.(origin := s.epoch + 1)))
      else
        s.(row := secret, epoch := s.epoch + 1, enabled := true, newest := s.newest + [RefreshOf(secret)])
    case Forget =>
      s.(forgotten := s.epoch,
         acct := if s.acct.Some? then Some(s.acct.value.(stale := true)) else None)
    case Call(snapshot) =>
      // With a store, a new account distrusts the caller's snapshot of the row.
      s.(waiting := s.waiting + multiset{s.forgotten},
         acct := if s.acct.Some? then s.acct
                 else Some(Account(snapshot.doc.value, snapshot, false, false, true, false, 0)))
    case GiveUp(floor) => s.(waiting := s.waiting - multiset{floor})
    case Lock(floor) => s.(waiting := s.waiting - multiset{floor}, pc := Locked(floor))
    case FastPath(now) =>
      var x := s.acct.value;
      s.(pc := if Serves(x, now) then Idle else Renewing(s.pc.floor))
    case Renew =>
      s.(pc := if s.acct.value.unpersisted then Retrying(s.pc.floor) else Testing(s.pc.floor))
    case Retry(works) =>
      var x := s.acct.value;
      if !works then s.(pc := Retried(s.pc.floor))
      else if Matches(s) then
        With(s, x.(secret := Marshal(x.tok), unpersisted := false), Retried(s.pc.floor))
          .(row := Some(Marshal(x.tok)))
      else
        With(s, x.(stale := true, unpersisted := false), Retried(s.pc.floor))
    case AfterRetry =>
      var x := s.acct.value;
      s.(pc := if x.unpersisted && x.stale then Idle else Testing(s.pc.floor))
    case TestStale =>
      var x := s.acct.value;
      s.(pc := if x.stale && !x.unpersisted then Clearing(s.pc.floor) else Ready(s.pc.floor))
    case ClearStale => With(s, s.acct.value.(stale := false), Reading(s.pc.floor))
    case ReadRow(works) =>
      if works && s.row.Some? && s.row.value.doc.Some? then
        With(s, s.acct.value.(tok := s.row.value.doc.value, secret := s.row.value, dead := false,
                              loaded := true, origin := s.epoch), Ready(s.pc.floor))
      else s.(pc := Unread(s.pc.floor))
    case MarkUnread => With(s, s.acct.value.(stale := true), Idle)
    case Decide(now) =>
      var x := s.acct.value;
      s.(pc := if x.dead || x.tok.Usable(now, DELTA) then Idle
               else if x.tok.refresh == "" then Refusing(s.pc.floor) else Sent(s.pc.floor))
    case Answer(reply) =>
      var x := s.acct.value;
      (match reply
       case Granted(tok) =>
         var next := Renewed(x.tok, tok);
         s.(pc := Received(s.pc.floor, next), newest := s.newest[x.origin := next.refresh])
       case Refused => s.(pc := Refusing(s.pc.floor))
       case Transient => s.(pc := Idle))
    case Save(works) =>
      var x, next := s.acct.value, s.pc.next;
      if !works then With(s, x.(tok := next, unpersisted := true), Idle)
      else if Matches(s) then
        With(s, x.(tok := next, secret := Marshal(next), unpersisted := false), Idle)
          .(row := Some(Marshal(next)))
      else With(s, x.(stale := true, unpersisted := false), Idle)
    case Refuse(works) =>
      var x := s.acct.value;
      if works && !Matches(s) then With(s, x.(stale := true), Idle)
      else With(s, x.(dead := true), Idle).(enabled := if works then false else s.enabled)
  }

  /** The lock-held test that serves the cached pair without renewing. */
  predicate Serves(x: Account, now: int) {
    !x.stale && !x.unpersisted && !x.dead && x.tok.Usable(now, DELTA)
  }

  function Observe(s: State, a: Action): seq<Observation>
    requires Enabled(s, a)
  {
    match a
    case FastPath(now) =>
      if Serves(s.acct.value, now) then [Header(s.pc.floor, s.acct.value, now, true)] else []
    case Retry(works) =>
      if works && Matches(s) then [Wrote(s.acct.value.origin, s.epoch)] else []
    case Decide(now) =>
      var x := s.acct.value;
      if x.dead then []
      else if x.tok.Usable(now, DELTA) then [Header(s.pc.floor, x, now, false)]
      else if x.tok.refresh == "" then []
      else [Presented(x.tok.refresh, s.newest[x.origin])]
    case Save(works) =>
      var x := s.acct.value;
      if works && Matches(s) then [Wrote(x.origin, s.epoch), Minted(s.pc.floor, x.origin, s.pc.next)]
      else if works then []
      else [Minted(s.pc.floor, x.origin, s.pc.next)]
    case Refuse(works) =>
      if works && Matches(s) then [Disabled(s.acct.value.origin, s.epoch)] else []
    case _ => []
  }

  // ---------------------------------------------------------- invariants

  predicate Init(s: State) {
    && s.row.Some? && s.epoch == 0 && s.acct.None? && s.pc.Idle? && s.waiting == multiset{} && s.forgotten == 0
    && s.newest == [RefreshOf(s.row)]
  }

  function RefreshOf(row: Option<Secret>): string {
    if row.Some? && row.value.doc.Some? then row.value.doc.value.refresh else ""
  }

  predicate Acting(pc: Pc) {
    pc.Ready? || pc.Sent? || pc.Received? || pc.Refusing?
  }

  predicate Reloading(pc: Pc) {
    pc.Reading? || pc.Unread?
  }

  predicate Calls(s: State) {
    && s.forgotten <= s.epoch && |s.newest| == s.epoch + 1
    && (forall f | f in s.waiting :: f <= s.forgotten)
    && (!s.pc.Idle? ==> s.pc.floor <= s.forgotten && s.acct.Some?)
    && (s.acct.None? ==> s.waiting == multiset{})
  }

  /** The account's secret is the row's exactly while its lineage is current. */
  predicate Lineage(s: State, x: Account) {
    && x.origin <= s.epoch
    && (x.loaded ==> (s.row == Some(x.secret) <==> x.origin == s.epoch))
    && (!x.loaded ==> (x.stale || Reloading(s.pc)) && !x.unpersisted && !Acting(s.pc))
  }

  /** Only an unsaved pair is retried, and only a saved one is read over. */
  predicate Phase(s: State, x: Account) {
    && (s.pc.Retrying? ==> x.unpersisted)
    && (s.pc.Clearing? || Reloading(s.pc) ==> !x.unpersisted)
  }

  /** A pair that may be served is no older than any Forget that preceded it. */
  predicate Recent(s: State, x: Account) {
    && (!x.stale && !Reloading(s.pc) ==> x.origin >= s.forgotten)
    && (Acting(s.pc) || (s.pc.Testing? && x.unpersisted) ==> x.origin >= s.pc.floor)
  }

  /** The rotations are where they can be found: in the account while they are
      unsaved or in use, in the row otherwise. */
  predicate Rotations(s: State, x: Account)
    requires x.origin <= s.epoch < |s.newest|
  {
    && (s.pc.Received? ==> s.pc.next.refresh == s.newest[x.origin] && s.pc.next.access != "")
    && (x.loaded && !s.pc.Received? && (x.unpersisted || Acting(s.pc) || (!x.stale && !Reloading(s.pc)))
        ==> x.tok.refresh == s.newest[x.origin])
    && (x.loaded && !x.unpersisted && (Acting(s.pc) || (!x.stale && !Reloading(s.pc)))
        ==> x.secret.doc == Some(x.tok))
    && (!(x.loaded && x.origin == s.epoch && (x.unpersisted || s.pc.Received?))
        ==> RefreshOf(s.row) == s.newest[s.epoch])
  }

  predicate Inv(s: State) {
    && Calls(s)
    && (s.acct.None? ==> RefreshOf(s.row) == s.newest[s.epoch])
    && (s.acct.Some? ==> Lineage(s, s.acct.value) && Phase(s, s.acct.value)
                         && Recent(s, s.acct.value) && Rotations(s, s.acct.value))
  }

  /** What no run may show otherwise. A header is never from a lineage older than the
      Forget its call came after, nor from a dead account, and its pair has an access
      token and no expiry within a minute of the reading; at once it is served only if
      the account is neither stale nor unsaved. A minted pair has an access token. A
      refresh presents the newest token its lineage was given; a write or a disable
      lands only on its own lineage. */
  predicate Proper(o: Observation) {
    match o
    case Header(floor, x, now, atOnce) =>
      && floor <= x.origin && !x.dead && x.tok.access != ""
      && (x.tok.expires.Some? ==> x.tok.expires.value > now + 60)
      && (atOnce ==> !x.stale && !x.unpersisted)
    case Minted(floor, origin, tok) => floor <= origin && tok.access != ""
    case Presented(refresh, newest) => refresh == newest
    case Wrote(origin, epoch) => origin == epoch
    case Disabled(origin, epoch) => origin == epoch
  }

  /** One step from a good state: good again, and nothing improper was seen. */
  predicate GoodStep(s: State, a: Action)
    requires Enabled(s, a)
  {
    Inv(Do(s, a)) && forall i | 0 <= i < |Observe(s, a)| :: Proper(Observe(s, a)[i])
  }

  lemma StepOperator(s: State, secret: Option<Secret>)
    requires Inv(s) && Enabled(s, Operator(secret))
    ensures GoodStep(s, Operator(secret))
  {
  }

  lemma StepForget(s: State)
    requires Inv(s) && Enabled(s, Forget)
    ensures GoodStep(s, Forget)
  {
  }

  lemma StepCall(s: State, snapshot: Secret)
    requires Inv(s) && Enabled(s, Call(snapshot))
    ensures GoodStep(s, Call(snapshot))
  {
  }

  lemma StepGiveUp(s: State, floor: nat)
    requires Inv(s) && Enabled(s, GiveUp(floor))
    ensures GoodStep(s, GiveUp(floor))
  {
  }

  lemma StepLock(s: State, floor: nat)
    requires Inv(s) && Enabled(s, Lock(floor))
    ensures GoodStep(s, Lock(floor))
  {
  }

  lemma StepFastPath(s: State, now: int)
    requires Inv(s) && Enabled(s, FastPath(now))
    ensures GoodStep(s, FastPath(now))
  {
  }

  lemma StepRenew(s: State)
    requires Inv(s) && Enabled(s, Renew)
    ensures GoodStep(s, Renew)
  {
  }

  lemma StepRetry(s: State, works: bool)
    requires Inv(s) && Enabled(s, Retry(works))
    ensures GoodStep(s, Retry(works))
  {
  }

  lemma StepAfterRetry(s: State)
    requires Inv(s) && Enabled(s, AfterRetry)
    ensures GoodStep(s, AfterRetry)
  {
  }

  lemma StepTestStale(s: State)
    requires Inv(s) && Enabled(s, TestStale)
    ensures GoodStep(s, TestStale)
  {
  }

  lemma StepClearStale(s: State)
    requires Inv(s) && Enabled(s, ClearStale)
    ensures GoodStep(s, ClearStale)
  {
  }

  lemma StepReadRow(s: State, works: bool)
    requires Inv(s) && Enabled(s, ReadRow(works))
    ensures GoodStep(s, ReadRow(works))
  {
  }

  lemma StepMarkUnread(s: State)
    requires Inv(s) && Enabled(s, MarkUnread)
    ensures GoodStep(s, MarkUnread)
  {
  }

  lemma StepDecide(s: State, now: int)
    requires Inv(s) && Enabled(s, Decide(now))
    ensures GoodStep(s, Decide(now))
  {
  }

  lemma StepAnswer(s: State, reply: Reply)
    requires Inv(s) && Enabled(s, Answer(reply))
    ensures GoodStep(s, Answer(reply))
  {
  }

  lemma StepSave(s: State, works: bool)
    requires Inv(s) && Enabled(s, Save(works))
    ensures GoodStep(s, Save(works))
  {
  }

  lemma StepRefuse(s: State, works: bool)
    requires Inv(s) && Enabled(s, Refuse(works))
    ensures GoodStep(s, Refuse(works))
  {
  }

  lemma StepIsGood(s: State, a: Action)
    requires Inv(s) && Enabled(s, a)
    ensures GoodStep(s, a)
  {
    hide Inv, GoodStep, Enabled;
    match a
    case Operator(secret) => StepOperator(s, secret);
    case Forget => StepForget(s);
    case Call(snapshot) => StepCall(s, snapshot);
    case GiveUp(floor) => StepGiveUp(s, floor);
    case Lock(floor) => StepLock(s, floor);
    case FastPath(now) => StepFastPath(s, now);
    case Renew => StepRenew(s);
    case Retry(works) => StepRetry(s, works);
    case AfterRetry => StepAfterRetry(s);
    case TestStale => StepTestStale(s);
    case ClearStale => StepClearStale(s);
    case ReadRow(works) => StepReadRow(s, works);
    case MarkUnread => StepMarkUnread(s);
    case Decide(now) => StepDecide(s, now);
    case Answer(reply) => StepAnswer(s, reply);
    case Save(works) => StepSave(s, works);
    case Refuse(works) => StepRefuse(s, works);
  }

  // ---------------------------------------------------------------- runs

  /** A run: every step admitted where it is taken. */
  predicate Runs(s: State, steps: seq<Action>)
    decreases |steps|
  {
    steps == [] || (Enabled(s, steps[0]) && Runs(Do(s, steps[0]), steps[1..]))
  }

  function End(s: State, steps: seq<Action>): State
    requires Runs(s, steps)
    decreases |steps|
  {
    if steps == [] then s else End(Do(s, steps[0]), steps[1..])
  }

  function History(s: State, steps: seq<Action>): seq<Observation>
    requires Runs(s, steps)
    decreases |steps|
  {
    if steps == [] then [] else Observe(s, steps[0]) + History(Do(s, steps[0]), steps[1..])
  }

  lemma InitIsGood(s: State)
    requires Init(s)
    ensures Inv(s)
  {
  }

  /** Every run, whatever the interleaving: only proper observations. */
  lemma {:induction false} RunIsProper(s: State, steps: seq<Action>)
    requires Inv(s) && Runs(s, steps)
    ensures Inv(End(s, steps))
    ensures forall o | o in History(s, steps) :: Proper(o)
    decreases |steps|
  {
    hide Inv, Do, Observe, Enabled;
    if steps != [] {
      StepIsGood(s, steps[0]);
      RunIsProper(Do(s, steps[0]), steps[1..]);
    }
  }

  lemma {:induction false} RunsAppend(s: State, a: seq<Action>, b: seq<Action>)
    requires Runs(s, a + b)
    ensures Runs(s, a) && Runs(End(s, a), b) && End(s, a + b) == End(End(s, a), b)
    decreases |a|
  {
    hide Do, Enabled;
    if a == [] {
      assert a + b == b;
    } else {
      assert (a + b)[1..] == a[1..] + b;
      RunsAppend(Do(s, a[0]), a[1..], b);
    }
  }

  /** The last refresh token the gateway was given, reading only the answers. */
  function LastGranted(first: string, steps: seq<Action>): string {
    if steps == [] then first
    else
      var a := steps[|steps| - 1];
      if a.Answer? && a.reply.Granted? && a.reply.tok.refresh != "" then a.reply.tok.refresh
      else LastGranted(first, steps[..|steps| - 1])
  }

  predicate NoOperator(steps: seq<Action>) {
    forall a | a in steps :: !a.Operator?
  }

  lemma AnswerMovesNewest(s: State, a: Action)
    requires Inv(s) && Enabled(s, a) && !a.Operator? && s.epoch == 0
    ensures Do(s, a).epoch == 0
    ensures Do(s, a).newest ==
            if a.Answer? && a.reply.Granted? && a.reply.tok.refresh != "" then [a.reply.tok.refresh] else s.newest
  {
    assert |s.newest| == 1 && (s.acct.Some? ==> s.acct.value.origin == 0);
    hide Inv, Observe;
  }

  lemma {:induction false} NewestIsLastGranted(s: State, steps: seq<Action>)
    requires Init(s) && Runs(s, steps) && NoOperator(steps)
    ensures End(s, steps).epoch == 0
    ensures End(s, steps).newest == [LastGranted(RefreshOf(s.row), steps)]
    decreases |steps|
  {
    hide Do, Enabled;
    if steps != [] {
      var init, last := steps[..|steps| - 1], steps[|steps| - 1];
      assert steps == init + [last];
      RunsAppend(s, init, [last]);
      var t := End(s, init);
      assert Runs(t, [last]) && Enabled(t, last);
      assert End(t, [last]) == End(Do(t, last), []) by { assert [last][1..] == []; }
      NewestIsLastGranted(s, init);
      InitIsGood(s);
      RunIsProper(s, init);
      AnswerMovesNewest(t, last);
    }
  }

  /** With the row left alone by operators, each refresh presents the last refresh
      token the gateway was ever given: no rotation is lost or read back over. */
  lemma PresentsLastGranted(s: State, steps: seq<Action>, now: int, refresh: string, newest: string)
    requires Init(s) && Runs(s, steps + [Decide(now)]) && NoOperator(steps)
    requires Runs(s, steps) && Enabled(End(s, steps), Decide(now))
    requires Presented(refresh, newest) in Observe(End(s, steps), Decide(now))
    ensures refresh == LastGranted(RefreshOf(s.row), steps)
  {
    InitIsGood(s);
    RunIsProper(s, steps);
    NewestIsLastGranted(s, steps);
    StepDecide(End(s, steps), now);
    hide Runs, End, LastGranted;
    var t := End(s, steps);
    assert Lineage(t, t.acct.value) && t.acct.value.origin == 0;
  }

  /** A rotation the store has not taken stays the account's pair until it is
      saved, replaced by the next one, or an operator has changed the row. */
  lemma RotationKept(s: State, a: Action)
    requires Inv(s) && Enabled(s, a) && s.acct.Some? && s.acct.value.unpersisted
    ensures var x, t := s.acct.value, Do(s, a);
            && t.acct.Some?
            && ((t.acct.value.tok == x.tok && t.acct.value.unpersisted)
                || t.row == Some(Marshal(x.tok))
                || (a.Save? && t.acct.value.tok == s.pc.next)
                || x.origin < s.epoch)
  {
  }

  lemma {:induction false} ForgottenOnlyGrows(s: State, steps: seq<Action>)
    requires Inv(s) && Runs(s, steps)
    ensures s.forgotten <= End(s, steps).forgotten && s.epoch <= End(s, steps).epoch
    decreases |steps|
  {
    if steps != [] {
      StepIsGood(s, steps[0]);
      assert s.forgotten <= Do(s, steps[0]).forgotten && s.epoch <= Do(s, steps[0]).epoch;
      ForgottenOnlyGrows(Do(s, steps[0]), steps[1..]);
    }
  }

  /** A replacement and then a Forget: a call that starts at any point afterwards,
      here at the end of `later`, takes as its floor a lineage no older than the
      replacement's. No header a call is given is from a lineage older than its
      floor, and no write or disable lands on a lineage other than its own. */
  lemma ReplacedSecretIsGone(s: State, before: seq<Action>, secret: Option<Secret>, between: seq<Action>,
                             later: seq<Action>)
    requires Init(s)
    requires Runs(s, before + ([Operator(secret)] + (between + ([Forget] + later))))
    ensures Runs(s, before)
    ensures var steps := before + ([Operator(secret)] + (between + ([Forget] + later)));
            && End(s, before).epoch < End(s, steps).forgotten
            && forall o | o in History(s, steps) :: Proper(o)
  {
    hide Do, Enabled, Inv;
    var r1 := between + ([Forget] + later);
    RunsAppend(s, before, [Operator(secret)] + r1);
    var s1 := End(s, before);
    InitIsGood(s);
    RunIsProper(s, before);
    RunsAppend(s1, [Operator(secret)], r1);
    var s2 := AfterOne(s1, Operator(secret));
    RunsAppend(s2, between, [Forget] + later);
    var s3 := End(s2, between);
    ForgottenOnlyGrows(s2, between);
    RunIsProper(s2, between);
    RunsAppend(s3, [Forget], later);
    var s4 := AfterOne(s3, Forget);
    ForgottenOnlyGrows(s4, later);
    RunIsProper(s, before + ([Operator(secret)] + r1));
  }

  lemma AfterOne(s: State, a: Action) returns (t: State)
    requires Inv(s) && Runs(s, [a])
    ensures t == End(s, [a]) && Inv(t)
    ensures a.Operator? ==> t.epoch == s.epoch + 1
    ensures a.Forget? ==> t.forgotten == s.epoch
  {
    assert [a][1..] == [];
    assert Enabled(s, a);
    t := Do(s, a);
    assert End(s, [a]) == End(t, []);
    StepIsGood(s, a);
  }

  // --------------------------------------------- and it gets somewhere

  lemma RunsCons(s: State, a: Action, rest: seq<Action>)
    requires Enabled(s, a) && Runs(Do(s, a), rest)
    ensures Runs(s, [a] + rest)
    ensures End(s, [a] + rest) == End(Do(s, a), rest)
    ensures History(s, [a] + rest) == Observe(s, a) + History(Do(s, a), rest)
  {
    hide Do, Enabled, Observe;
    assert ([a] + rest)[1..] == rest;
  }

  /** One header, of this pair from this lineage. */
  predicate Serving(obs: seq<Observation>, floor: nat, tok: Token, origin: nat) {
    |obs| == 1 && obs[0].Header? && obs[0].floor == floor && obs[0].acct.tok == tok && obs[0].acct.origin == origin
  }

  lemma NoSteps(s: State)
    ensures Runs(s, []) && End(s, []) == s && History(s, []) == []
  {
  }

  /** A pair that may not be served at once takes its call to the staleness test. */
  lemma ToTheTest(s: State, now: int, rest: seq<Action>)
    requires s.pc.Locked? && s.acct.Some? && !Serves(s.acct.value, now) && !s.acct.value.unpersisted
    requires Runs(s.(pc := Testing(s.pc.floor)), rest)
    ensures var steps, t := [FastPath(now)] + ([Renew] + rest), s.(pc := Testing(s.pc.floor));
            Runs(s, steps) && End(s, steps) == End(t, rest) && History(s, steps) == History(t, rest)
  {
    hide Runs, End, History;
    var s1, t := s.(pc := Renewing(s.pc.floor)), s.(pc := Testing(s.pc.floor));
    assert Enabled(s, FastPath(now)) && Do(s, FastPath(now)) == s1 && Observe(s, FastPath(now)) == [];
    assert Enabled(s1, Renew) && Do(s1, Renew) == t && Observe(s1, Renew) == [];
    hide Do, Observe, Enabled;
    RunsCons(s1, Renew, rest);
    RunsCons(s, FastPath(now), [Renew] + rest);
    assert [] + History(t, rest) == History(t, rest);
  }

  /** The reload and what follows it. */
  lemma ReadAndServe(s: State, now: int)
    requires s.pc.Testing? && s.acct.Some? && s.acct.value.stale && !s.acct.value.unpersisted && s.epoch < |s.newest|
    requires s.row.Some? && s.row.value.doc.Some? && !NeedsRefresh(s.row.value.doc.value, now)
    ensures var steps := [TestStale] + ([ClearStale] + ([ReadRow(true)] + ([Decide(now)] + [])));
            && Runs(s, steps) && Serving(History(s, steps), s.pc.floor, s.row.value.doc.value, s.epoch) && End(s, steps).pc.Idle?
            && End(s, steps).acct.Some? && End(s, steps).acct.value.tok == s.row.value.doc.value
  {
    hide Runs, End, History;
    var x, f := s.acct.value, s.pc.floor;
    var y := x.(tok := s.row.value.doc.value, secret := s.row.value, dead := false, loaded := true, origin := s.epoch,
                stale := false);
    var s3, s4, s5 := s.(pc := Clearing(f)), With(s, x.(stale := false), Reading(f)), With(s, y, Ready(f));
    assert Enabled(s, TestStale) && Do(s, TestStale) == s3 && Observe(s, TestStale) == [];
    assert Enabled(s3, ClearStale) && Do(s3, ClearStale) == s4 && Observe(s3, ClearStale) == [];
    assert Enabled(s4, ReadRow(true)) && Do(s4, ReadRow(true)) == s5 && Observe(s4, ReadRow(true)) == [];
    assert Enabled(s5, Decide(now)) && Observe(s5, Decide(now)) == [Header(f, y, now, false)];
    assert Do(s5, Decide(now)) == s5.(pc := Idle);
    hide Do, Observe, Enabled;
    NoSteps(s5.(pc := Idle));
    RunsCons(s5, Decide(now), []);
    RunsCons(s4, ReadRow(true), [Decide(now)] + []);
    RunsCons(s3, ClearStale, [ReadRow(true)] + ([Decide(now)] + []));
    RunsCons(s, TestStale, [ClearStale] + ([ReadRow(true)] + ([Decide(now)] + [])));
  }

  /** A call that finds the account stale, with nothing of its own to save, serves the
      row's pair. */
  lemma ReloadServes(s: State, now: int)
    requires s.pc.Locked? && s.acct.Some? && s.acct.value.stale && !s.acct.value.unpersisted && s.epoch < |s.newest|
    requires s.row.Some? && s.row.value.doc.Some? && !NeedsRefresh(s.row.value.doc.value, now)
    ensures var steps := [FastPath(now)] + ([Renew] + ([TestStale] + ([ClearStale] + ([ReadRow(true)] + ([Decide(now)] + [])))));
            && Runs(s, steps) && Serving(History(s, steps), s.pc.floor, s.row.value.doc.value, s.epoch) && End(s, steps).pc.Idle?
            && End(s, steps).acct.Some? && End(s, steps).acct.value.tok == s.row.value.doc.value
  {
    hide Runs, End, History, Do, Observe, Enabled;
    ReadAndServe(s.(pc := Testing(s.pc.floor)), now);
    ToTheTest(s, now, [TestStale] + ([ClearStale] + ([ReadRow(true)] + ([Decide(now)] + []))));
  }

  /** A pair with no access token, or whose expiry is less than a minute away or past; one
      with no stated expiry does not expire. */
  predicate NeedsRefresh(tok: Token, now: int) {
    tok.access == "" || (tok.expires.Some? && tok.expires.value - 60 <= now)
  }

  /** Once the account is up to date and alive, and has a refresh token, that is presented
      if and only if the pair needs it, and the pair is served if and only if not. */
  lemma RefreshesExactly(s: State, now: int)
    requires Inv(s) && s.pc.Ready? && s.acct.Some? && !s.acct.value.dead && s.acct.value.tok.refresh != ""
    ensures Enabled(s, Decide(now))
    ensures Observe(s, Decide(now)) ==
            if NeedsRefresh(s.acct.value.tok, now)
            then [Presented(s.acct.value.tok.refresh, s.newest[s.acct.value.origin])]
            else [Header(s.pc.floor, s.acct.value, now, false)]
  {
  }

  /** A call that has the lock is served at once exactly from an account that is alive,
      saved, not stale, and needs no refresh. */
  lemma AtOnceExactly(s: State, now: int)
    requires s.pc.Locked? && s.acct.Some?
    ensures var x := s.acct.value;
            Observe(s, FastPath(now)) ==
            if !x.dead && !x.unpersisted && !x.stale && !NeedsRefresh(x.tok, now)
            then [Header(s.pc.floor, x, now, true)] else []
  {
  }

  /** An expiring pair that the row still holds. */
  predicate Expiring(s: State, now: int) {
    && s.acct.Some? && s.acct.value.origin < |s.newest| && Matches(s)
    && var x := s.acct.value;
       !x.stale && !x.unpersisted && !x.dead && NeedsRefresh(x.tok, now) && x.tok.refresh != ""
  }

  lemma RefreshAndSave(s: State, now: int, tok: Token)
    requires s.pc.Testing? && Expiring(s, now) && tok.access != ""
    ensures var x, steps := s.acct.value, [TestStale] + ([Decide(now)] + ([Answer(Granted(tok))] + ([Save(true)] + [])));
            && Runs(s, steps)
            && History(s, steps) == [Presented(x.tok.refresh, s.newest[x.origin]), Wrote(x.origin, s.epoch),
                                     Minted(s.pc.floor, x.origin, Renewed(x.tok, tok))]
            && End(s, steps).row == Some(Marshal(Renewed(x.tok, tok)))
            && End(s, steps).acct == Some(x.(tok := Renewed(x.tok, tok), secret := Marshal(Renewed(x.tok, tok))))
  {
    hide Runs, End, History;
    var x, f := s.acct.value, s.pc.floor;
    var next := Renewed(x.tok, tok);
    var s3, s4 := s.(pc := Ready(f)), s.(pc := Sent(f));
    var s5 := s.(pc := Received(f, next), newest := s.newest[x.origin := next.refresh]);
    var s6 := With(s5, x.(tok := next, secret := Marshal(next)), Idle).(row := Some(Marshal(next)));
    assert Enabled(s, TestStale) && Do(s, TestStale) == s3 && Observe(s, TestStale) == [];
    assert Enabled(s3, Decide(now)) && Do(s3, Decide(now)) == s4
           && Observe(s3, Decide(now)) == [Presented(x.tok.refresh, s.newest[x.origin])];
    assert Enabled(s4, Answer(Granted(tok))) && Do(s4, Answer(Granted(tok))) == s5 && Observe(s4, Answer(Granted(tok))) == [];
    assert Enabled(s5, Save(true)) && Do(s5, Save(true)) == s6
           && Observe(s5, Save(true)) == [Wrote(x.origin, s.epoch), Minted(f, x.origin, next)];
    hide Do, Observe, Enabled;
    NoSteps(s6);
    RunsCons(s5, Save(true), []);
    RunsCons(s4, Answer(Granted(tok)), [Save(true)] + []);
    RunsCons(s3, Decide(now), [Answer(Granted(tok))] + ([Save(true)] + []));
    RunsCons(s, TestStale, [Decide(now)] + ([Answer(Granted(tok))] + ([Save(true)] + [])));
  }

  /** A call that finds its pair expiring presents the refresh token, serves the pair
      it is granted, and leaves it in the row. */
  lemma RefreshLands(s: State, now: int, tok: Token)
    requires s.pc.Locked? && Expiring(s, now) && tok.access != ""
    ensures var x, steps := s.acct.value,
                            [FastPath(now)] + ([Renew] + ([TestStale] + ([Decide(now)]
                            + ([Answer(Granted(tok))] + ([Save(true)] + [])))));
            && Runs(s, steps)
            && History(s, steps) == [Presented(x.tok.refresh, s.newest[x.origin]), Wrote(x.origin, s.epoch),
                                     Minted(s.pc.floor, x.origin, Renewed(x.tok, tok))]
            && End(s, steps).row == Some(Marshal(Renewed(x.tok, tok)))
            && End(s, steps).acct == Some(x.(tok := Renewed(x.tok, tok), secret := Marshal(Renewed(x.tok, tok))))
  {
    hide Runs, End, History, Do, Observe, Enabled;
    RefreshAndSave(s.(pc := Testing(s.pc.floor)), now, tok);
    ToTheTest(s, now, [TestStale] + ([Decide(now)] + ([Answer(Granted(tok))] + ([Save(true)] + []))));
  }

  /** A call that finds a pair unsaved saves it first, over the secret it came from. */
  lemma RetryLands(s: State, now: int)
    requires s.pc.Locked? && s.acct.Some? && s.acct.value.unpersisted && Matches(s)
    ensures var x, steps := s.acct.value, [FastPath(now)] + ([Renew] + ([Retry(true)] + []));
            && Runs(s, steps) && History(s, steps) == [Wrote(x.origin, s.epoch)]
            && End(s, steps).row == Some(Marshal(x.tok))
            && End(s, steps).acct == Some(x.(secret := Marshal(x.tok), unpersisted := false))
  {
    var s1 := Do(s, FastPath(now));
    var s2 := Do(s1, Renew);
    hide Runs, End, History;
    NoSteps(Do(s2, Retry(true)));
    RunsCons(s2, Retry(true), []);
    RunsCons(s1, Renew, [Retry(true)] + []);
    RunsCons(s, FastPath(now), [Renew] + ([Retry(true)] + []));
  }

  // ----------------------------------------------- what a step leaves behind

  /** A row, and whether its credential is enabled, change only by an operator, who
      enables it, by a save or retry that finds the account's own text in it, and by a
      refusal that does, which disables it. */
  lemma RowChanges(s: State, a: Action)
    requires Inv(s) && Enabled(s, a)
    ensures var t := Do(s, a);
            && (t.row != s.row ==> a.Operator? || ((a == Save(true) || a == Retry(true)) && s.row == Some(s.acct.value.secret)))
            && (t.enabled != s.enabled ==> a.Operator? || (a == Refuse(true) && s.row == Some(s.acct.value.secret)))
            && (a.Operator? ==> t.enabled && t.row == a.secret)
            && (a == Refuse(true) && s.row == Some(s.acct.value.secret) ==> !t.enabled)
            && (t.epoch != s.epoch ==> a.Operator?)
  {
  }

  /** A write of a pair: it lands and is the account's own; or it fails and the pair is
      kept for another try; or the row has moved on and the pair is dropped, the account
      to be read again. */
  lemma WriteOutcomes(s: State, works: bool)
    requires Inv(s) && (s.pc.Received? || s.pc.Retrying?)
    ensures var a := if s.pc.Received? then Save(works) else Retry(works);
            var x, pair := s.acct.value, if s.pc.Received? then s.pc.next else s.acct.value.tok;
            && Enabled(s, a) && Do(s, a).acct.Some?
            && var y, t := Do(s, a).acct.value, Do(s, a);
            && y.dead == x.dead && y.loaded == x.loaded && y.origin == x.origin
            && (!works ==> y.tok == pair && y.unpersisted && y.secret == x.secret && y.stale == x.stale && t.row == s.row)
            && (works && s.row == Some(x.secret) ==>
                  y.tok == pair && !y.unpersisted && y.secret == Secret(Some(pair), 0) && y.stale == x.stale
                  && t.row == Some(Secret(Some(pair), 0)))
            && (works && s.row != Some(x.secret) ==>
                  y.tok == x.tok && !y.unpersisted && y.secret == x.secret && y.stale && t.row == s.row)
  {
  }

  /** A refusal: of the row's own secret, or one the store did not take, it ends the
      account; of a secret the row no longer holds, it means nothing and the row is read
      again. */
  lemma RefusalOutcomes(s: State, works: bool)
    requires Inv(s) && s.pc.Refusing?
    ensures Enabled(s, Refuse(works)) && Do(s, Refuse(works)).acct.Some? && Do(s, Refuse(works)).pc.Idle?
    ensures var x, y := s.acct.value, Do(s, Refuse(works)).acct.value;
            if works && s.row != Some(x.secret) then y == x.(stale := true) && Do(s, Refuse(works)).enabled == s.enabled
            else y == x.(dead := true) && (Do(s, Refuse(works)).enabled <==> s.enabled && !works)
  {
  }

  /** A pair that needs a refresh and cannot have one, and one whose refresh is refused,
      go to the refusal; a refresh that fails for the moment leaves all as it was. */
  lemma WhereRefusalsComeFrom(s: State, now: int)
    requires Inv(s) && s.acct.Some?
    ensures s.pc.Ready? && !s.acct.value.dead && NeedsRefresh(s.acct.value.tok, now) && s.acct.value.tok.refresh == "" ==>
              Enabled(s, Decide(now)) && Do(s, Decide(now)) == s.(pc := Refusing(s.pc.floor)) && Observe(s, Decide(now)) == []
    ensures s.pc.Sent? ==>
              && Enabled(s, Answer(Refused)) && Do(s, Answer(Refused)) == s.(pc := Refusing(s.pc.floor))
              && Enabled(s, Answer(Transient)) && Do(s, Answer(Transient)) == s.(pc := Idle)
  {
  }

  /** A dead account serves nothing and presents nothing; only a reload revives it. */
  lemma DeadIsSilent(s: State, a: Action)
    requires Inv(s) && Enabled(s, a) && s.acct.Some? && s.acct.value.dead
    ensures a.FastPath? || a.Decide? ==> Observe(s, a) == []
    ensures Do(s, a).acct.Some? && (!Do(s, a).acct.value.dead ==> a == ReadRow(true))
  {
  }

  /** The most steps the holder of the lock can still take. */
  function StepsLeft(pc: Pc): nat {
    match pc
    case Idle => 0
    case Locked(_) => 10
    case Renewing(_) => 9
    case Retrying(_) => 8
    case Retried(_) => 7
    case Testing(_) => 6
    case Clearing(_) => 5
    case Reading(_) => 4
    case Ready(_) => 3
    case Sent(_) => 2
    case _ => 1
  }

  /** The steps only the holder of the lock takes. */
  predicate HolderStep(a: Action) {
    !a.Operator? && !a.Forget? && !a.Call? && !a.GiveUp? && !a.Lock?
  }

  /** One holder at a time, whom nobody else moves, and who lets go after ten steps at the
      most. */
  lemma OneHolderWhoFinishes(s: State, a: Action)
    requires Enabled(s, a)
    ensures a.Lock? ==> s.pc.Idle?
    ensures HolderStep(a) ==> !s.pc.Idle? && StepsLeft(Do(s, a).pc) < StepsLeft(s.pc)
    ensures !HolderStep(a) && !a.Lock? ==> Do(s, a).pc == s.pc
  {
  }

  /** And who can always go on. */
  lemma HolderIsNeverStuck(s: State)
    requires Inv(s)
    ensures !s.pc.Idle? ==> exists b | HolderStep(b) :: Enabled(s, b)
  {
    if !s.pc.Idle? {
      var b := match s.pc
               case Locked(_) => FastPath(0)
               case Renewing(_) => Renew
               case Retrying(_) => Retry(true)
               case Retried(_) => AfterRetry
               case Testing(_) => TestStale
               case Clearing(_) => ClearStale
               case Reading(_) => ReadRow(true)
               case Unread(_) => MarkUnread
               case Ready(_) => Decide(0)
               case Sent(_) => Answer(Refused)
               case Received(_, _) => Save(true)
               case _ => Refuse(true);
      assert HolderStep(b) && Enabled(s, b);
    }
  }

  /** A caller that stops waiting takes itself off and stops nothing. */
  lemma GivingUpStopsNothing(s: State, floor: nat)
    requires Enabled(s, GiveUp(floor))
    ensures Do(s, GiveUp(floor)) == s.(waiting := s.waiting - multiset{floor}) && Observe(s, GiveUp(floor)) == []
  {
  }

  // ------------------------------------------ the limit of the guarantee

  /** The store takes the write or the disable. */
  predicate Lands(obs: seq<Observation>) {
    exists i | 0 <= i < |obs| :: obs[i].Wrote? || obs[i].Disabled?
  }

  /** What the lock holder is about to do to the row. */
  function Pending(pc: Pc): Action
    requires pc.Received? || pc.Retrying? || pc.Refusing?
  {
    if pc.Received? then Save(true) else if pc.Retrying? then Retry(true) else Refuse(true)
  }

  /** A refresh, a retried save or a disable in flight lands after an operator's write
      exactly when the operator wrote back the very text it started from: the store
      compares texts, and cannot tell that the row ever held anything else. */
  lemma LandsOnlyOnSameText(s: State, secret: Option<Secret>)
    requires Inv(s) && (s.pc.Received? || s.pc.Retrying? || s.pc.Refusing?)
    ensures Enabled(s, Operator(secret)) && Enabled(Do(s, Operator(secret)), Pending(s.pc))
    ensures Lands(Observe(Do(s, Operator(secret)), Pending(s.pc))) <==> secret == Some(s.acct.value.secret)
    ensures secret != Some(s.acct.value.secret) ==> Observe(Do(s, Operator(secret)), Pending(s.pc)) == []
  {
    var t := Do(s, Operator(secret));
    var obs := Observe(t, Pending(s.pc));
    if secret == Some(s.acct.value.secret) { assert obs[0].Wrote? || obs[0].Disabled?; }
  }

  /** Any other replacement leaves the account in the lineage it was of. */
  lemma ReplacementParts(s: State, secret: Option<Secret>)
    requires Inv(s) && s.acct.Some? && s.acct.value.loaded
    ensures Enabled(s, Operator(secret))
    ensures var t := Do(s, Operator(secret));
            t.acct.Some? && (t.acct.value.origin == t.epoch <==> secret == Some(s.acct.value.secret))
  {
  }
}
