/** What the chunking of a forwarded stream (internal/exec/forward.go and
    rawstream.go) can and cannot change: exactly when the raw events are those of the
    stream taken whole, what the client reads in any case, and the inputs at which
    something does change. */
module Chunking {
  import opened Options
  import opened Sse
  import opened Splitter
  import opened Forward
  import SseWriter

  // ------------------------------------------- when the raw cuts agree

  /** Closed by a CR that took no LF, and would have taken one. */
  predicate BareCr(raw: Bytes) {
    |raw| >= 2 && raw[|raw| - 1] == CR && raw[|raw| - 2] != CR
  }

  predicate StartsLf(b: Bytes) {
    b != [] && b[0] == LF
  }

  /** More bytes do not move a boundary, except that an LF joins its CR. */
  lemma {:induction false} EndExtends(x: Bytes, y: Bytes, i: nat)
    requires i <= |x| && EndFrom(x, i) != -1
    ensures var e := EndFrom(x, i);
            EndFrom(x + y, i) == if e == |x| && BareCr(x) && StartsLf(y) then e + 1 else e
    decreases |x| - i
  {
    var b := x + y;
    assert forall j | 0 <= j < |x| :: b[j] == x[j];
    assert |y| > 0 ==> b[|x|] == y[0];
    if x[i] == LF && i + 1 < |x| && IsEol(x[i + 1]) {
    } else if x[i] == CR && i + 1 < |x| && x[i + 1] == LF {
      if !(i + 2 < |x| && IsEol(x[i + 2])) { EndExtends(x, y, i + 2); }
    } else if x[i] == CR && i + 1 < |x| && x[i + 1] == CR {
    } else {
      EndExtends(x, y, i + 1);
    }
  }

  /** The cut between what was fed, with last raw event of f and no carry, and y falls
      inside a CRLF that closes an event. */
  predicate CutsCrLf(f: Fed, y: Bytes) {
    f.carry == [] && f.raws != [] && BareCr(f.raws[|f.raws| - 1]) && StartsLf(y)
  }

  lemma {:induction false} SlicedJoin(x: Bytes, y: Bytes)
    requires !CutsCrLf(Sliced(x), y)
    ensures var f := Sliced(x);
            var g := Sliced(f.carry + y);
            Sliced(x + y) == Fed(f.raws + g.raws, g.carry)
    decreases |x|
  {
    hide EndFrom;
    var e := EndOf(x);
    if e == -1 {
      assert [] + Sliced(x + y).raws == Sliced(x + y).raws;
    } else {
      var f := Sliced(x[e..]);
      assert e == |x| ==> x[e..] == [] && x[..e] == x && f == Fed([], []);
      EndExtends(x, y, 0);
      assert (x + y)[..e] == x[..e] && (x + y)[e..] == x[e..] + y;
      assert Sliced(x).raws[|Sliced(x).raws| - 1] == if f.raws == [] then x[..e] else f.raws[|f.raws| - 1];
      SlicedJoin(x[e..], y);
      var g := Sliced(f.carry + y);
      assert [x[..e]] + (f.raws + g.raws) == [x[..e]] + f.raws + g.raws;
    }
  }

  /** Where the cut does fall so, the stream taken whole has the LF in the event. */
  lemma {:induction false} SlicedDiffers(x: Bytes, y: Bytes)
    requires CutsCrLf(Sliced(x), y)
    ensures var n := |Sliced(x).raws| - 1;
            |Sliced(x + y).raws| > n && Sliced(x + y).raws[n] == Sliced(x).raws[n] + [LF]
    decreases |x|
  {
    hide EndFrom;
    var e := EndOf(x);
    var f := Sliced(x[e..]);
    EndExtends(x, y, 0);
    if f.raws == [] {
      assert x[e..] == f.carry == [];
      assert x[..e] == x;
      assert (x + y)[..e + 1] == x + [LF];
    } else {
      assert x[e..] != [];
      assert (x + y)[..e] == x[..e] && (x + y)[e..] == x[e..] + y;
      assert Sliced(x).raws == [x[..e]] + f.raws;
      SlicedDiffers(x[e..], y);
      assert Sliced(x + y).raws == [x[..e]] + Sliced(x[e..] + y).raws;
    }
  }

  predicate CutsAt(chunks: seq<Bytes>, n: nat)
    requires n < |chunks|
  {
    CutsCrLf(Feed(chunks[..n]), chunks[n])
  }

  lemma {:induction false} CutsAgree(chunks: seq<Bytes>)
    requires forall n | 0 <= n < |chunks| :: !CutsAt(chunks, n)
    ensures Feed(chunks) == Sliced(Concat(chunks))
  {
    hide Sliced, Concat, CutsCrLf;
    NothingJoined();
    if chunks == [] {
      NothingSliced();
    } else {
      var n := |chunks| - 1;
      var init := chunks[..n];
      forall m | 0 <= m < n
        ensures !CutsAt(init, m)
      {
        assert init[..m] == chunks[..m];
        assert !CutsAt(chunks, m);
      }
      CutsAgree(init);
      assert !CutsAt(chunks, n);
      SlicedJoin(Concat(init), chunks[n]);
      assert chunks == init + [chunks[n]];
      ConcatSnoc(init, chunks[n]);
    }
  }

  lemma NothingSliced()
    ensures Sliced([]) == Fed([], [])
  {
  }

  /** The raw events are those of the stream taken whole if and only if no chunk
      boundary falls inside a CRLF that closes an event. */
  lemma CutsAgreeExactly(chunks: seq<Bytes>)
    ensures Feed(chunks) == Sliced(Concat(chunks)) <==> forall n | 0 <= n < |chunks| :: !CutsAt(chunks, n)
  {
    if n :| 0 <= n < |chunks| && CutsAt(chunks, n) {
      var m := FirstCut(chunks, n);
      CutsDiffer(chunks, m);
    } else {
      CutsAgree(chunks);
    }
  }

  lemma FirstCut(chunks: seq<Bytes>, n: nat) returns (m: nat)
    requires n < |chunks| && CutsAt(chunks, n)
    ensures m < |chunks| && CutsAt(chunks, m) && forall k | 0 <= k < m :: !CutsAt(chunks, k)
  {
    m := 0;
    while !CutsAt(chunks, m)
      invariant m <= n && forall k | 0 <= k < m :: !CutsAt(chunks, k)
      decreases n - m
    {
      m := m + 1;
    }
  }

  lemma CutsDiffer(chunks: seq<Bytes>, n: nat)
    requires n < |chunks| && CutsAt(chunks, n) && forall k | 0 <= k < n :: !CutsAt(chunks, k)
    ensures Feed(chunks) != Sliced(Concat(chunks))
  {
    hide Sliced, Concat, Feed, CutsCrLf;
    var before, after := chunks[..n], chunks[n..];
    forall k | 0 <= k < n
      ensures !CutsAt(before, k)
    {
      assert before[..k] == chunks[..k];
      assert !CutsAt(chunks, k);
    }
    CutsAgree(before);
    assert after == [chunks[n]] + chunks[n + 1..];
    ConcatCons(chunks[n], chunks[n + 1..]);
    StillCuts(Feed(before), chunks[n], Concat(chunks[n + 1..]));
    SlicedDiffers(Concat(before), Concat(after));
    assert chunks == before + after;
    ConcatAppend(before, after);
    FeedGrows(chunks, n);
    HasRaws(Feed(before), chunks[n]);
    var last := |Feed(before).raws| - 1;
    assert Feed(chunks).raws[last] == Feed(before).raws[last];
    assert |Feed(chunks).raws[last] + [LF]| != |Feed(chunks).raws[last]|;
  }

  lemma StillCuts(f: Fed, y: Bytes, z: Bytes)
    requires CutsCrLf(f, y)
    ensures CutsCrLf(f, y + z)
  {
  }

  lemma HasRaws(f: Fed, y: Bytes)
    requires CutsCrLf(f, y)
    ensures f.raws != []
  {
  }

  /** In particular, no boundary inside any CRLF is enough. */
  lemma NoCrLfCut(chunks: seq<Bytes>)
    requires forall n | 0 <= n < |chunks| :: !SplitsCrLf(Concat(chunks[..n]), chunks[n])
    ensures Feed(chunks) == Sliced(Concat(chunks))
  {
    hide CutsAt, Concat, SplitsCrLf, Feed, Sliced;
    forall n | 0 <= n < |chunks|
      ensures !CutsAt(chunks, n)
    {
      CutsInCrLf(chunks, n);
    }
    CutsAgree(chunks);
  }

  lemma CutsInCrLf(chunks: seq<Bytes>, n: nat)
    requires n < |chunks|
    ensures CutsAt(chunks, n) ==> SplitsCrLf(Concat(chunks[..n]), chunks[n])
  {
    hide Concat, Feed;
    var f := Feed(chunks[..n]);
    FeedBytes(chunks[..n]);
    if f.carry == [] && f.raws != [] {
      var k := |f.raws| - 1;
      assert f.raws == f.raws[..k] + [f.raws[k]];
      ConcatSnoc(f.raws[..k], f.raws[k]);
    }
  }

  // ---------------------------------------------- what the client reads

  /** What a response means, event by event. */
  predicate AnyError(cfg: Config, events: seq<Event>) {
    exists e | e in events :: cfg.recognise(e).error
  }

  predicate AnyContent(cfg: Config, events: seq<Event>) {
    exists e | e in events :: cfg.recognise(e).kind.Content?
  }

  /** No error event comes before the first content. */
  predicate Opens(cfg: Config, events: seq<Event>) {
    forall n | 0 <= n < |events| && cfg.recognise(events[n]).error :: AnyContent(cfg, events[..n])
  }

  lemma EventsSnoc(cfg: Config, events: seq<Event>, e: Event)
    ensures AnyError(cfg, events + [e]) <==> AnyError(cfg, events) || cfg.recognise(e).error
    ensures AnyContent(cfg, events + [e]) <==> AnyContent(cfg, events) || cfg.recognise(e).kind.Content?
    ensures Opens(cfg, events + [e]) <==>
            Opens(cfg, events) && (cfg.recognise(e).error ==> AnyContent(cfg, events))
  {
    hide AnyContent, AnyError;
    var all := events + [e];
    assert all[..|events|] == events;
    assert forall n | 0 <= n < |events| :: all[..n] == events[..n] && all[n] == events[n];
    MembersSnoc(cfg, events, e);
    if Opens(cfg, all) {
      forall n | 0 <= n < |events| && cfg.recognise(events[n]).error
        ensures AnyContent(cfg, events[..n])
      {
        assert all[n] == events[n];
      }
      assert all[|events|] == e;
    }
  }

  lemma MembersSnoc(cfg: Config, events: seq<Event>, e: Event)
    ensures AnyError(cfg, events + [e]) <==> AnyError(cfg, events) || cfg.recognise(e).error
    ensures AnyContent(cfg, events + [e]) <==> AnyContent(cfg, events) || cfg.recognise(e).kind.Content?
  {
    var all := events + [e];
    assert e in all && forall x | x in events :: x in all;
  }

  /** One raw event is one event, or none and nothing recognised. */
  lemma RawIsEvent(cfg: Config, raw: Bytes)
    requires IsBlock(raw) || NoBoundary(raw)
    ensures var one := Read(raw, cfg.maxLine).events;
            && |one| <= 1
            && cfg.Meaning(raw) == if one == [] then UNRECOGNISED else cfg.recognise(one[0])
  {
    AtMostOneEvent(raw, cfg.maxLine);
    hide Read, IsBlock, NoBoundary;
  }

  /** Without a cap on the buffer, all that decides a response's fate is in its events. */
  lemma {:induction false} FateIsInEvents(cfg: Config, raws: seq<Bytes>)
    requires forall raw | raw in raws :: IsBlock(raw) || NoBoundary(raw)
    requires !ReadAll(raws, cfg.maxLine).tooLong
    ensures var es := ReadAll(raws, cfg.maxLine).events;
            && (cfg.Errors(raws) <==> AnyError(cfg, es)) && (cfg.HasContent(raws) <==> AnyContent(cfg, es))
            && (cfg.maxPrecommit <= 0 ==> (cfg.Admits(raws) <==> Opens(cfg, es)))
  {
    hide Read, IsBlock, NoBoundary, ReadAll, Config.Meaning, Config.Admits, Opens, AnyError, AnyContent;
    if raws == [] {
      NothingFated(cfg);
    } else {
      var cap, init, last := cfg.maxLine, raws[..|raws| - 1], raws[|raws| - 1];
      assert raws == init + [last];
      ReadAllSnoc(init, last, cap);
      FateIsInEvents(cfg, init);
      RawIsEvent(cfg, last);
      FateSnoc(cfg, init, last);
      var before, one := ReadAll(init, cap).events, Read(last, cap).events;
      if one == [] {
        assert before + one == before;
      } else {
        assert one == [one[0]];
        EventsSnoc(cfg, before, one[0]);
      }
    }
  }

  lemma NothingFated(cfg: Config)
    ensures ReadAll([], cfg.maxLine).events == []
    ensures !cfg.Errors([]) && !cfg.HasContent([]) && cfg.Admits([])
    ensures !AnyError(cfg, []) && !AnyContent(cfg, []) && Opens(cfg, [])
  {
  }

  lemma FateSnoc(cfg: Config, raws: seq<Bytes>, raw: Bytes)
    ensures var re := cfg.Meaning(raw);
            && (cfg.Errors(raws + [raw]) <==> cfg.Errors(raws) || re.error)
            && (cfg.HasContent(raws + [raw]) <==> cfg.HasContent(raws) || re.kind.Content?)
            && (cfg.maxPrecommit <= 0 ==>
                  (cfg.Admits(raws + [raw]) <==> cfg.Admits(raws) && (re.error ==> cfg.HasContent(raws))))
  {
    hide Config.Meaning, Config.Admits, Config.Kept, Config.Reports, Config.Ends, Concat;
    TallyGrows(cfg, raws, raw);
  }

  /** A stream that ends cleanly without overflowing, seen as its raw events. */
  lemma WholeStream(cfg: Config, chunks: seq<Bytes>, streamError: Bytes)
    requires !Overflows(chunks, cfg.maxLine)
    ensures var steps := cfg.Steps(chunks, Clean);
            && Concat(steps) == Concat(chunks) && Cut(steps)
            && cfg.Owed(chunks, Clean, streamError) == Concat(cfg.Kept(steps))
            && Read(Concat(chunks), cfg.maxLine) == ReadAll(steps, cfg.maxLine)
            && (forall raw | raw in steps :: IsBlock(raw) || NoBoundary(raw))
  {
    hide Config.Steps, Config.Kept, Config.ToldOf, Concat, Read, ReadAll, Cut, Overflows;
    var steps := cfg.Steps(chunks, Clean);
    EveryByte(cfg, chunks, Clean);
    assert cfg.Rest(chunks, Clean) == [];
    assert Concat(steps) + [] == Concat(steps);
    NoNote(cfg, steps, streamError);
    assert Concat(cfg.Kept(steps)) + [] + [] == Concat(cfg.Kept(steps));
    StepsAreCut(cfg, chunks, Clean);
    CutReads(steps, cfg.maxLine);
    CutShort(cfg, steps);
  }

  /** The events a client reads do not depend on the chunking: of any two chunkings of
      one stream that do not overflow, what each client is owed reads as the upstream's
      events less the usage-only ones, and both responses are reported alike. Without a
      cap on the buffer they also fail before commit alike. */
  lemma ChunkingIsInvisible(cfg: Config, a: seq<Bytes>, b: seq<Bytes>, streamError: Bytes)
    requires Concat(a) == Concat(b) && !Read(Concat(a), cfg.maxLine).tooLong
    requires !Overflows(a, cfg.maxLine) && !Overflows(b, cfg.maxLine)
    ensures Read(cfg.Owed(a, Clean, streamError), cfg.maxLine) == Read(cfg.Owed(b, Clean, streamError), cfg.maxLine)
            == Reading(Wanted(cfg, Read(Concat(a), cfg.maxLine).events), false)
    ensures cfg.Told(a, Clean) == cfg.Told(b, Clean)
    ensures cfg.maxPrecommit <= 0 ==> (cfg.Doomed(a, Clean) <==> cfg.Doomed(b, Clean))
  {
    hide Config.Steps, Config.Owed, Config.Kept, Config.Admits, Config.HasContent, Config.Errors, Config.Ends,
         Concat, Read, ReadAll, Cut, Overflows, Wanted, IsBlock, NoBoundary, Opens, AnyError, AnyContent;
    WholeStream(cfg, a, streamError);
    WholeStream(cfg, b, streamError);
    var x, y := cfg.Steps(a, Clean), cfg.Steps(b, Clean);
    StripIsByEvent(cfg, x);
    StripIsByEvent(cfg, y);
    FateIsInEvents(cfg, x);
    FateIsInEvents(cfg, y);
  }

  /** And where the raw cuts agree, nothing at all depends on it. */
  lemma SameCutsSameRun(cfg: Config, a: seq<Bytes>, b: seq<Bytes>, streamError: Bytes)
    requires Concat(a) == Concat(b) && !Overflows(a, cfg.maxLine) && !Overflows(b, cfg.maxLine)
    requires forall n | 0 <= n < |a| :: !CutsAt(a, n)
    requires forall n | 0 <= n < |b| :: !CutsAt(b, n)
    ensures forall ending ::
              && cfg.Steps(a, ending) == cfg.Steps(b, ending)
              && cfg.Owed(a, ending, streamError) == cfg.Owed(b, ending, streamError)
              && cfg.Told(a, ending) == cfg.Told(b, ending) && (cfg.Doomed(a, ending) <==> cfg.Doomed(b, ending))
  {
    hide Feed, Sliced, Concat, CutsAt, Over, Config.Kept, Config.Admits, Config.HasContent, Config.Errors, Config.Ends;
    CutsAgree(a);
    CutsAgree(b);
    forall ending
      ensures cfg.Steps(a, ending) == cfg.Steps(b, ending) && cfg.Rest(a, ending) == cfg.Rest(b, ending)
    {
      StepsAll(cfg, a, ending);
      StepsAll(cfg, b, ending);
    }
  }

  /** After an overflow the client reads the events before it, less the usage-only ones,
      and then whatever the rest of the bytes hold, usage and all. */
  lemma AfterOverflow(cfg: Config, chunks: seq<Bytes>, ending: Ending, streamError: Bytes)
    requires Overflows(chunks, cfg.maxLine)
    requires !Read(Concat(chunks), cfg.maxLine).tooLong
    ensures var steps, rest := cfg.Steps(chunks, ending), cfg.Rest(chunks, ending);
            && Concat(steps) + rest == Concat(chunks)
            && Read(cfg.Owed(chunks, ending, streamError), cfg.maxLine) ==
               Then(Reading(Wanted(cfg, Read(Concat(steps), cfg.maxLine).events), false), Read(rest, cfg.maxLine))
  {
    hide Config.Steps, Config.Rest, Config.Kept, Concat, Read, ReadAll, IsBlock, NoBoundary, Overflows, Wanted, Config.Meaning;
    var cap, steps, rest := cfg.maxLine, cfg.Steps(chunks, ending), cfg.Rest(chunks, ending);
    EveryByte(cfg, chunks, ending);
    StepsAreCut(cfg, chunks, ending);
    OnlyUsageWithheld(cfg, steps);
    BlocksReadAsStream(steps, rest, cap);
    CutReads(steps, cap);
    StripIsByEvent(cfg, steps);
    var kept := cfg.Kept(steps);
    BlocksReadAsStream(kept, rest, cap);
    CutReads(kept, cap);
    assert cfg.Owed(chunks, ending, streamError) == Concat(kept) + rest + [] == Concat(kept) + rest;
  }

  /** With strip off, a stream that ends cleanly is owed byte for byte, overflow or none. */
  lemma StripOff(cfg: Config, chunks: seq<Bytes>, streamError: Bytes)
    requires !cfg.strip
    ensures cfg.Owed(chunks, Clean, streamError) == Concat(chunks)
  {
    hide Config.Steps, Config.Rest, Config.Kept, Config.ToldOf, Concat, Overflows;
    var steps, rest := cfg.Steps(chunks, Clean), cfg.Rest(chunks, Clean);
    NothingStripped(cfg, steps);
    EveryByte(cfg, chunks, Clean);
    NoNote(cfg, steps, streamError);
    assert Concat(steps) + rest + [] == Concat(steps) + rest;
  }

  /** A response that is committed and taken whole is reported failed for its own error
      event if and only if it has one and no overflow hid it. */
  lemma ReportedExactly(cfg: Config, chunks: seq<Bytes>, ending: Ending)
    ensures cfg.Told(chunks, ending) == FailedAfter(ErrorEvent) <==>
            cfg.Errors(cfg.Steps(chunks, ending)) && !Overflows(chunks, cfg.maxLine)
  {
  }

  /** One whole response, to a client that takes everything. */
  method Forwarded(cfg: Config, chunks: seq<Bytes>) returns (r: Result, body: Bytes)
    ensures r.FailedBefore? <==> cfg.Doomed(chunks, Clean)
    ensures r.FailedBefore? ==> body == []
    ensures !r.FailedBefore? ==> r == cfg.Told(chunks, Clean) && body == cfg.Owed(chunks, Clean, [])
  {
    var cw := new CommitWriter(Client(None, 0));
    var f := new Forwarder(cw, cfg);
    r := f.Run(chunks, Clean, []);
    body := cw.body;
  }

  /** Two runs over the same bytes, chunked differently. */
  method TwoRuns(cfg: Config, a: seq<Bytes>, b: seq<Bytes>)
    returns (ra: Result, bodyA: Bytes, rb: Result, bodyB: Bytes)
    requires Concat(a) == Concat(b) && !Read(Concat(a), cfg.maxLine).tooLong
    ensures !Overflows(a, cfg.maxLine) && !Overflows(b, cfg.maxLine) && !ra.FailedBefore? && !rb.FailedBefore? ==>
              && ra == rb
              && Read(bodyA, cfg.maxLine) == Read(bodyB, cfg.maxLine)
                 == Reading(Wanted(cfg, Read(Concat(a), cfg.maxLine).events), false)
    ensures !Overflows(a, cfg.maxLine) && !Overflows(b, cfg.maxLine) && cfg.maxPrecommit <= 0 ==>
              (ra.FailedBefore? <==> rb.FailedBefore?)
  {
    hide Read, Overflows, Concat, Wanted, Config.Told, Config.Owed, Config.Doomed;
    if !Overflows(a, cfg.maxLine) && !Overflows(b, cfg.maxLine) { ChunkingIsInvisible(cfg, a, b, []); }
    ra, bodyA := Forwarded(cfg, a);
    rb, bodyB := Forwarded(cfg, b);
  }

  // --------------------------------- the result, from the recognised events

  /** The event dispatched by raw event n is recognised as content, as an error, as
      ending the response. */
  ghost predicate ContentAt(cfg: Config, raws: seq<Bytes>, n: int) {
    0 <= n < |raws| && Parse(raws[n], cfg.maxLine).Some?
    && cfg.recognise(Parse(raws[n], cfg.maxLine).value).kind.Content?
  }

  ghost predicate ErrorAt(cfg: Config, raws: seq<Bytes>, n: int) {
    0 <= n < |raws| && Parse(raws[n], cfg.maxLine).Some? && cfg.recognise(Parse(raws[n], cfg.maxLine).value).error
  }

  /** A terminal event that is not withheld, after content. */
  ghost predicate TerminalAt(cfg: Config, raws: seq<Bytes>, n: int) {
    && 0 <= n < |raws| && Parse(raws[n], cfg.maxLine).Some?
    && cfg.recognise(Parse(raws[n], cfg.maxLine).value).terminal
    && !(cfg.strip && cfg.recognise(Parse(raws[n], cfg.maxLine).value).kind.UsageOnly?)
    && exists i | 0 <= i < n :: ContentAt(cfg, raws, i)
  }

  /** Raw event n is an error, or no content and one byte more than the buffer holds, and
      nothing before it is content. */
  ghost predicate FatalAt(cfg: Config, raws: seq<Bytes>, n: int) {
    && 0 <= n < |raws| && (forall i | 0 <= i < n :: !ContentAt(cfg, raws, i))
    && (ErrorAt(cfg, raws, n)
        || (!ContentAt(cfg, raws, n) && 0 < cfg.maxPrecommit < |Concat(raws[..n])| + |raws[n]|))
  }

  lemma MeaningOf(cfg: Config, raws: seq<Bytes>, n: nat)
    requires n < |raws|
    ensures ContentAt(cfg, raws, n) <==> cfg.Meaning(raws[n]).kind.Content?
    ensures ErrorAt(cfg, raws, n) <==> cfg.Meaning(raws[n]).error
    ensures cfg.HasContent(raws[..n]) <==> exists i | 0 <= i < n :: ContentAt(cfg, raws, i)
  {
    hide Parse;
    if cfg.HasContent(raws[..n]) {
      var raw :| raw in raws[..n] && cfg.Meaning(raw).kind.Content?;
      var i :| 0 <= i < n && raws[..n][i] == raw;
      assert ContentAt(cfg, raws, i);
    }
    if i :| 0 <= i < n && ContentAt(cfg, raws, i) {
      assert raws[..n][i] == raws[i];
      assert raws[i] in raws[..n];
    }
  }

  lemma AllMeanings(cfg: Config, raws: seq<Bytes>)
    ensures cfg.Errors(raws) <==> exists n :: ErrorAt(cfg, raws, n)
    ensures cfg.HasContent(raws) <==> exists n :: ContentAt(cfg, raws, n)
    ensures cfg.Ends(raws) <==> exists n :: TerminalAt(cfg, raws, n)
    ensures cfg.Admits(raws) <==> forall n :: !FatalAt(cfg, raws, n)
  {
    hide Parse, Concat, Config.Meaning, Config.HasContent, ContentAt, ErrorAt, TerminalAt, FatalAt;
    ErrorsAre(cfg, raws);
    EndsAre(cfg, raws);
    FatalsAre(cfg, raws);
    if raws != [] { MeaningOf(cfg, raws, 0); }
    HasContentIs(cfg, raws);
  }

  lemma ErrorsAre(cfg: Config, raws: seq<Bytes>)
    ensures cfg.Errors(raws) <==> exists n :: ErrorAt(cfg, raws, n)
  {
    hide Parse;
    if cfg.Errors(raws) {
      var raw :| raw in raws && cfg.Meaning(raw).error;
      var n :| 0 <= n < |raws| && raws[n] == raw;
      assert ErrorAt(cfg, raws, n);
    }
    if n :| ErrorAt(cfg, raws, n) { assert raws[n] in raws; }
  }

  lemma HasContentIs(cfg: Config, raws: seq<Bytes>)
    ensures cfg.HasContent(raws) <==> exists n :: ContentAt(cfg, raws, n)
  {
    hide Parse;
    if cfg.HasContent(raws) {
      var raw :| raw in raws && cfg.Meaning(raw).kind.Content?;
      var n :| 0 <= n < |raws| && raws[n] == raw;
      assert ContentAt(cfg, raws, n);
    }
    if n :| ContentAt(cfg, raws, n) { assert raws[n] in raws; }
  }

  lemma EndsIs(cfg: Config, raws: seq<Bytes>, n: nat)
    requires n < |raws|
    ensures cfg.EndsAt(raws, n) <==> TerminalAt(cfg, raws, n)
  {
    MeaningOf(cfg, raws, n);
    hide Parse, Config.HasContent, ContentAt;
  }

  lemma EndsAre(cfg: Config, raws: seq<Bytes>)
    ensures cfg.Ends(raws) <==> exists n :: TerminalAt(cfg, raws, n)
  {
    forall n | 0 <= n < |raws|
      ensures cfg.EndsAt(raws, n) <==> TerminalAt(cfg, raws, n)
    {
      EndsIs(cfg, raws, n);
    }
    hide Config.EndsAt;
    assert forall n :: TerminalAt(cfg, raws, n) ==> 0 <= n < |raws|;
  }

  lemma FatalIs(cfg: Config, raws: seq<Bytes>, n: nat)
    requires n < |raws|
    ensures cfg.AdmitsAt(raws, n) <==> !FatalAt(cfg, raws, n)
  {
    MeaningOf(cfg, raws, n);
    hide Parse, Concat, Config.HasContent, Config.Meaning, ContentAt, ErrorAt;
  }

  lemma FatalsAre(cfg: Config, raws: seq<Bytes>)
    ensures cfg.Admits(raws) <==> forall n :: !FatalAt(cfg, raws, n)
  {
    forall n | 0 <= n < |raws|
      ensures cfg.AdmitsAt(raws, n) <==> !FatalAt(cfg, raws, n)
    {
      FatalIs(cfg, raws, n);
    }
    hide Config.AdmitsAt;
    assert forall n :: FatalAt(cfg, raws, n) ==> 0 <= n < |raws|;
  }

  /** A response cut by a broken connection, to a client that takes everything, in terms
      of the recognised events alone. It fails before commit, with nothing sent, if an
      event before any content ends it or there is no content. Otherwise the client gets
      the events that are not withheld and the carry; a response with an error event of
      its own is reported so; one whose ending event has gone out is delivered; any other
      is a failed read, and the gateway's error event comes last. */
  method CutOff(cfg: Config, chunks: seq<Bytes>, streamError: Bytes) returns (r: Result, body: Bytes)
    requires !Overflows(chunks, cfg.maxLine)
    ensures var raws, carry := Feed(chunks).raws, Feed(chunks).carry;
            if (exists n :: FatalAt(cfg, raws, n)) || !(exists n :: ContentAt(cfg, raws, n)) then
              r.FailedBefore? && body == []
            else if exists n :: ErrorAt(cfg, raws, n) then
              r == FailedAfter(ErrorEvent) && body == Concat(cfg.Kept(raws)) + carry
            else if exists n :: TerminalAt(cfg, raws, n) then
              r == Delivered && body == Concat(cfg.Kept(raws)) + carry
            else
              r == FailedAfter(ReadFailed) && body == Concat(cfg.Kept(raws)) + carry + streamError
  {
    CutOffFate(cfg, chunks, streamError);
    var cw := new CommitWriter(Client(None, 0));
    var f := new Forwarder(cw, cfg);
    r := f.Run(chunks, Broken, streamError);
    body := cw.body;
    hide Feed, Config.Kept, Config.Doomed, Config.Told, Config.Owed, Concat, ContentAt, ErrorAt, TerminalAt, FatalAt;
  }

  lemma CutOffFate(cfg: Config, chunks: seq<Bytes>, streamError: Bytes)
    requires !Overflows(chunks, cfg.maxLine)
    ensures var raws, carry := Feed(chunks).raws, Feed(chunks).carry;
            && (cfg.Doomed(chunks, Broken) <==>
                  (exists n :: FatalAt(cfg, raws, n)) || !(exists n :: ContentAt(cfg, raws, n)))
            && cfg.Told(chunks, Broken) == (if exists n :: ErrorAt(cfg, raws, n) then FailedAfter(ErrorEvent)
                                            else if exists n :: TerminalAt(cfg, raws, n) then Delivered
                                            else FailedAfter(ReadFailed))
            && cfg.Owed(chunks, Broken, streamError) ==
               Concat(cfg.Kept(raws)) + carry
               + (if (exists n :: ErrorAt(cfg, raws, n)) || (exists n :: TerminalAt(cfg, raws, n)) then [] else streamError)
            && Concat(cfg.Kept(raws)) + carry + [] == Concat(cfg.Kept(raws)) + carry
  {
    hide Over, Feed, Config.Kept, Config.Errors, Config.Ends, Config.Admits, Config.HasContent, Concat, ContentAt, ErrorAt,
         TerminalAt, FatalAt;
    NoneOver(chunks, cfg.maxLine);
    StepsAll(cfg, chunks, Broken);
    AllMeanings(cfg, Feed(chunks).raws);
  }

  lemma NoneOver(chunks: seq<Bytes>, max: int)
    requires !Overflows(chunks, max)
    ensures forall n | 0 <= n <= |chunks| :: !Over(chunks, max, n)
  {
  }

  /** And one that ends cleanly: the unterminated tail is an event, no content is no
      failure, and nothing is added. */
  method EndedCleanly(cfg: Config, chunks: seq<Bytes>) returns (r: Result, body: Bytes)
    requires !Overflows(chunks, cfg.maxLine)
    ensures var f := Feed(chunks);
            var raws := if f.carry == [] then f.raws else f.raws + [f.carry];
            if exists n :: FatalAt(cfg, raws, n) then r.FailedBefore? && body == []
            else
              && body == Concat(cfg.Kept(raws))
              && r == if exists n :: ErrorAt(cfg, raws, n) then FailedAfter(ErrorEvent) else Delivered
  {
    r, body := Forwarded(cfg, chunks);
    hide Over, Feed, Config.Kept, Config.Errors, Config.Ends, Config.Admits, Config.HasContent, Concat, ContentAt, ErrorAt,
         TerminalAt, FatalAt;
    NoneOver(chunks, cfg.maxLine);
    StepsAll(cfg, chunks, Clean);
    var f := Feed(chunks);
    var raws := if f.carry == [] then f.raws else f.raws + [f.carry];
    AllMeanings(cfg, raws);
    assert Concat(cfg.Kept(raws)) + [] + [] == Concat(cfg.Kept(raws));
  }

  /** And one that overflows: without content before it, it fails before commit; with it,
      the carry and the rest go out as they are, and only a broken connection is told. */
  method Overflown(cfg: Config, chunks: seq<Bytes>, ending: Ending, streamError: Bytes) returns (r: Result, body: Bytes)
    requires Overflows(chunks, cfg.maxLine)
    ensures var n := Taken(chunks, cfg.maxLine);
            var raws, carry := Feed(chunks[..n]).raws, Feed(chunks[..n]).carry;
            && |carry| > cfg.maxLine
            && if (exists n :: FatalAt(cfg, raws, n)) || !(exists n :: ContentAt(cfg, raws, n)) then
                 r.FailedBefore? && body == []
               else
                 && body == Concat(cfg.Kept(raws)) + (carry + Concat(chunks[n..]))
                 && r == if ending.Clean? then Delivered else FailedAfter(ReadFailed)
  {
    var cw := new CommitWriter(Client(None, 0));
    var f := new Forwarder(cw, cfg);
    r := f.Run(chunks, ending, streamError);
    body := cw.body;
    TakenOver(chunks, cfg.maxLine);
    hide Over, Feed, Config.Kept, Config.Errors, Config.Ends, Config.Admits, Config.HasContent, Concat, ContentAt, ErrorAt,
         TerminalAt, FatalAt, Taken;
    var n := Taken(chunks, cfg.maxLine);
    StepsOver(cfg, chunks, n, ending);
    AllMeanings(cfg, Feed(chunks[..n]).raws);
    var kept, rest := Concat(cfg.Kept(Feed(chunks[..n]).raws)), Feed(chunks[..n]).carry + Concat(chunks[n..]);
    assert kept + rest + [] == kept + rest;
  }

  lemma TakenOver(chunks: seq<Bytes>, max: int)
    requires Overflows(chunks, max)
    ensures var n := Taken(chunks, max);
            && Over(chunks, max, n) && |Feed(chunks[..n]).carry| > max
            && forall i | 0 <= i < n :: !Over(chunks, max, i)
  {
    TakenFacts(chunks, max, 0);
    var i :| 0 <= i <= |chunks| && Over(chunks, max, i);
  }

  // ------------------------------------------------ where it does matter

  /** Text, an LF, and another line. */
  lemma {:induction false} PastLine(b: Bytes, i: nat, j: nat)
    requires i <= j && j + 1 < |b| && b[j] == LF && !IsEol(b[j + 1])
    requires forall k | i <= k < j :: !IsEol(b[k])
    ensures EndFrom(b, i) == EndFrom(b, j + 1)
    decreases j - i
  {
    if i < j { PastLine(b, i + 1, j); }
  }

  /** Text and two terminators, the first an LF. */
  lemma {:induction false} AtBlank(b: Bytes, i: nat, j: nat)
    requires i <= j && j + 1 < |b| && b[j] == LF && IsEol(b[j + 1])
    requires forall k | i <= k < j :: !IsEol(b[k])
    ensures EndFrom(b, i) == if b[j + 1] == CR && j + 2 < |b| && b[j + 2] == LF then j + 3 else j + 2
    decreases j - i
  {
    if i < j { AtBlank(b, i + 1, j); }
  }

  /** Text and at most one terminator at the very end. */
  lemma {:induction false} NoBlank(b: Bytes, i: nat)
    requires i <= |b| && forall k | i <= k < |b| - 1 :: !IsEol(b[k])
    ensures EndFrom(b, i) == -1
    decreases |b| - i
  {
    if i < |b| { NoBlank(b, i + 1); }
  }

  /** The event of one data byte. */
  function Datum(x: Byte): Bytes {
    DATA + [COLON, SPACE, x, LF, LF]
  }

  /** A block of two comment lines, 16 bytes each: 35 bytes in all. */
  const COMMENT: Bytes := [COLON, 120, 120, 120, 120, 120, 120, 120, 120, 120, 120, 120, 120, 120, 120, 120]
  const BLOCK: Bytes := COMMENT + [LF] + COMMENT + [LF, LF]

  /** c is content, u the usage summary, e an error. */
  function Recognise(ev: Event): RawEvent {
    if ev.data == [99] then RawEvent(Content, false, None, false)
    else if ev.data == [117] then RawEvent(UsageOnly, false, None, false)
    else if ev.data == [101] then RawEvent(Plain, true, None, false)
    else UNRECOGNISED
  }

  const SMALL: Config := Config(Recognise, true, 20, 0)

  lemma DatumCut(x: Byte, rest: Bytes)
    requires !IsEol(x)
    ensures var f := Sliced(rest); Sliced(Datum(x) + rest) == Fed([Datum(x)] + f.raws, f.carry)
  {
    hide EndFrom;
    var b := Datum(x) + rest;
    assert forall k | 0 <= k < 9 :: b[k] == Datum(x)[k];
    AtBlank(b, 0, 7);
    assert b[..9] == Datum(x) && b[9..] == rest;
  }

  lemma BlockCut(rest: Bytes)
    ensures var f := Sliced(rest); Sliced(BLOCK + rest) == Fed([BLOCK] + f.raws, f.carry)
  {
    hide EndFrom;
    var b := BLOCK + rest;
    assert |BLOCK| == 35 && forall k | 0 <= k < 35 :: b[k] == BLOCK[k];
    PastLine(b, 0, 16);
    AtBlank(b, 17, 33);
    assert b[..35] == BLOCK && b[35..] == rest;
  }

  /** The block but for its last LF is still one carry, 34 bytes long. */
  lemma BlockOpen()
    ensures |BLOCK| == 35 && Sliced(BLOCK[..34]) == Fed([], BLOCK[..34])
  {
    hide EndFrom;
    var b := BLOCK[..34];
    assert |BLOCK| == 35 && forall k | 0 <= k < 34 :: b[k] == BLOCK[k];
    PastLine(b, 0, 16);
    NoBlank(b, 17);
  }

  lemma WireOfDatum(x: Byte)
    requires x != LF
    ensures SseWriter.WireLines(SseWriter.Message([], [x])) == [DATA + [COLON, SPACE, x], []]
    ensures SseWriter.Terminate([DATA + [COLON, SPACE, x], []]) == Datum(x)
  {
    var line := DATA + [COLON, SPACE, x];
    assert [x][1..] == [];
    var rest := SseWriter.SplitNl([]);
    assert rest == [[]] && [x] + rest[0] == [x] && [[x]] + rest[1..] == [[x]];
    assert SseWriter.SplitNl([x]) == [[x]];
    assert SseWriter.FieldLine(DATA, [x]) == line;
    assert SseWriter.DataLines([[x]]) == [line] + SseWriter.DataLines([]);
    SseWriter.TerminateSnoc([line], []);
    SseWriter.TerminateOne(line);
    assert [line] + [[]] == [line, []];
  }

  lemma DatumMeans(x: Byte)
    requires !IsEol(x)
    ensures Parse(Datum(x), 20) == Some(Event([], [x], [], []))
  {
    hide Read;
    var m := SseWriter.Message([], [x]);
    WireOfDatum(x);
    SseWriter.OneMessage(m, 20);
  }

  lemma BlockMeans()
    ensures Parse(BLOCK, 20) == None
  {
    hide ReadLines, Fitting, SseWriter.Terminate;
    BlockOnWire();
    SseWriter.TerminatedFits([COMMENT, COMMENT, []], 20);
    CommentsRead(COMMENT, 20);
  }

  lemma BlockOnWire()
    ensures SseWriter.Terminate([COMMENT, COMMENT, []]) == BLOCK
  {
    hide SseWriter.Terminate;
    SseWriter.TerminateSnoc([COMMENT, COMMENT], []);
    SseWriter.TerminateSnoc([COMMENT], COMMENT);
    SseWriter.TerminateOne(COMMENT);
    assert [COMMENT] + [COMMENT] == [COMMENT, COMMENT] && [COMMENT, COMMENT] + [[]] == [COMMENT, COMMENT, []];
  }

  lemma CommentsRead(c: Bytes, cap: int)
    requires c != [] && c[0] == COLON
    ensures ReadLines(EMPTY, [c, c, []], false, cap) == Reading([], false)
  {
    hide ReadLines;
    CommentKeeps(EMPTY, c, cap);
    assert [c, c, []] == [c] + ([c] + ([[]] + []));
    ReadLine(EMPTY, c, [c] + ([[]] + []), false, cap);
    ReadLine(EMPTY, c, [[]] + [], false, cap);
    ReadLine(EMPTY, [], [], false, cap);
    ReadEnd(EMPTY, false, cap);
  }

  lemma Meanings()
    ensures SMALL.Meaning(Datum(99)) == RawEvent(Content, false, None, false)
    ensures SMALL.Meaning(Datum(117)) == RawEvent(UsageOnly, false, None, false)
    ensures SMALL.Meaning(Datum(101)) == RawEvent(Plain, true, None, false)
    ensures SMALL.Meaning(BLOCK) == UNRECOGNISED
  {
    hide Parse;
    DatumMeans(99);
    DatumMeans(117);
    DatumMeans(101);
    BlockMeans();
  }

  /** The same bytes as one chunk, and cut one byte before the block's end. */
  function AsOne(x: Byte): seq<Bytes> {
    [Datum(99) + (BLOCK + Datum(x))]
  }

  function AsTwo(x: Byte): seq<Bytes>
    requires |BLOCK| == 35
  {
    [Datum(99) + BLOCK[..34], BLOCK[34..] + Datum(x)]
  }

  lemma OneChunk(b: Bytes)
    ensures Feed([b]) == Sliced(b) && Feed([]) == Fed([], []) && Concat([b]) == b
  {
    hide Sliced;
    assert [b][..0] == [];
    assert [] + b == b && [] + Sliced(b).raws == Sliced(b).raws;
    ConcatCons(b, []);
    NothingJoined();
    assert [b] + [] == [b] && b + [] == b;
  }

  lemma AsOneSteps(x: Byte)
    requires !IsEol(x)
    ensures !Overflows(AsOne(x), 20) && SMALL.Steps(AsOne(x), Clean) == [Datum(99), BLOCK, Datum(x)]
  {
    hide Sliced, Feed;
    var b := Datum(99) + (BLOCK + Datum(x));
    DatumCut(99, BLOCK + Datum(x));
    BlockCut(Datum(x));
    DatumCut(x, []);
    assert Datum(x) + [] == Datum(x);
    NothingSliced();
    OneChunk(b);
    var chunks := [b];
    assert chunks[..0] == [] && chunks[..1] == chunks;
    assert forall n | 0 <= n <= 1 :: !Over(chunks, 20, n);
    StepsAll(SMALL, chunks, Clean);
  }

  lemma AsTwoSteps(x: Byte)
    requires !IsEol(x)
    ensures |BLOCK| == 35 && Overflows(AsTwo(x), 20)
    ensures SMALL.Steps(AsTwo(x), Clean) == [Datum(99)] && SMALL.Rest(AsTwo(x), Clean) == BLOCK + Datum(x)
    ensures Concat(AsTwo(x)) == Concat(AsOne(x))
  {
    hide Sliced, Feed, Concat;
    BlockOpen();
    var one, two := Datum(99) + BLOCK[..34], BLOCK[34..] + Datum(x);
    DatumCut(99, BLOCK[..34]);
    OneChunk(one);
    OneChunk(two);
    OneChunk(Datum(99) + (BLOCK + Datum(x)));
    var chunks := AsTwo(x);
    assert chunks[..0] == [] && chunks[..1] == [one] && chunks[1..] == [two];
    assert Over(chunks, 20, 1);
    StepsOver(SMALL, chunks, 1, Clean);
    assert BLOCK[..34] + two == BLOCK + Datum(x);
    ConcatCons(one, [two]);
    assert [one] + [two] == chunks;
    assert one + two == Datum(99) + (BLOCK + Datum(x));
  }

  lemma KeptOfThree(cfg: Config, a: Bytes, b: Bytes, c: Bytes)
    requires !cfg.Strips(a) && !cfg.Strips(b)
    ensures Concat(cfg.Kept([a])) == a
    ensures Concat(cfg.Kept([a, b, c])) == a + b + (if cfg.Strips(c) then [] else c)
  {
    hide Concat, Config.Strips;
    assert [] + [a] == [a] && [a] + [b] == [a, b] && [a, b] + [c] == [a, b, c];
    assert Concat(cfg.Kept([])) == [] by { NothingJoined(); }
    KeptSnoc(cfg, [], a);
    KeptSnoc(cfg, [a], b);
    KeptSnoc(cfg, [a, b], c);
  }

  lemma Committed(cfg: Config, steps: seq<Bytes>)
    requires steps != [] && cfg.Meaning(steps[0]).kind.Content? && !cfg.Meaning(steps[0]).error
    ensures cfg.Admits(steps) && cfg.HasContent(steps)
  {
    hide Config.Meaning, Concat;
    assert steps[0] in steps;
    forall n | 0 <= n < |steps|
      ensures cfg.AdmitsAt(steps, n)
    {
      if n > 0 { assert steps[0] in steps[..n]; }
    }
  }

  /** One stream, two chunkings, two bodies: as one chunk the usage summary is withheld,
      cut where the carry overflows it is delivered. */
  method UsageSlipsThrough() returns (whole: Bytes, cut: Bytes)
    ensures |BLOCK| == 35 && Concat(AsOne(117)) == Concat(AsTwo(117))
    ensures whole == Datum(99) + BLOCK && cut == Datum(99) + BLOCK + Datum(117)
  {
    UsageOwed();
    var r;
    r, whole := Forwarded(SMALL, AsOne(117));
    r, cut := Forwarded(SMALL, AsTwo(117));
  }

  lemma OwedOverflown(cfg: Config, chunks: seq<Bytes>, a: Bytes, rest: Bytes)
    requires Overflows(chunks, cfg.maxLine) && cfg.Steps(chunks, Clean) == [a] && cfg.Rest(chunks, Clean) == rest
    requires cfg.Meaning(a) == RawEvent(Content, false, None, false)
    ensures !cfg.Doomed(chunks, Clean) && cfg.Owed(chunks, Clean, []) == a + rest
  {
    hide Config.Meaning, Config.Steps, Config.Rest, Config.Kept, Config.Admits, Config.HasContent, Config.ToldOf, Overflows,
         Concat;
    Committed(cfg, [a]);
    KeptOfThree(cfg, a, a, a);
    assert a + rest + [] == a + rest;
  }

  lemma UsageOwed()
    ensures |BLOCK| == 35 && Concat(AsOne(117)) == Concat(AsTwo(117))
    ensures !SMALL.Doomed(AsOne(117), Clean) && !SMALL.Doomed(AsTwo(117), Clean)
    ensures SMALL.Owed(AsOne(117), Clean, []) == Datum(99) + BLOCK
    ensures SMALL.Owed(AsTwo(117), Clean, []) == Datum(99) + BLOCK + Datum(117)
  {
    hide Config.Meaning, Config.Steps, Config.Rest, Config.Owed, Config.Doomed, Config.Kept, Overflows, Concat, Datum, AsOne,
         AsTwo;
    AsOneSteps(117);
    AsTwoSteps(117);
    Meanings();
    OwedClean(SMALL, AsOne(117), [Datum(99), BLOCK, Datum(117)]);
    KeptOfThree(SMALL, Datum(99), BLOCK, Datum(117));
    assert Datum(99) + BLOCK + [] == Datum(99) + BLOCK;
    OwedOverflown(SMALL, AsTwo(117), Datum(99), BLOCK + Datum(117));
    Associates(Datum(99), BLOCK, Datum(117));
  }

  /** And with an error event last, two results: reported as one chunk, hidden when the
      carry overflows first or later; here after the error has gone out. */
  method ErrorHidden() returns (whole: Result, cut: Result)
    ensures whole == FailedAfter(ErrorEvent) && cut == Delivered
    ensures |BLOCK| == 35 && Concat(Failing(false)) == Concat(Failing(true))
  {
    ErrorTold();
    var body;
    whole, body := Forwarded(SMALL, Failing(false));
    cut, body := Forwarded(SMALL, Failing(true));
  }

  /** Content, an error event, a comment block; whole or cut inside the block. */
  function Failing(cut: bool): seq<Bytes>
    requires |BLOCK| == 35
  {
    if cut then [Datum(99) + (Datum(101) + BLOCK[..34]), BLOCK[34..]]
    else [Datum(99) + (Datum(101) + BLOCK)]
  }

  lemma ErrorTold()
    ensures |BLOCK| == 35 && Concat(Failing(false)) == Concat(Failing(true))
    ensures !SMALL.Doomed(Failing(false), Clean) && SMALL.Told(Failing(false), Clean) == FailedAfter(ErrorEvent)
    ensures !SMALL.Doomed(Failing(true), Clean) && SMALL.Told(Failing(true), Clean) == Delivered
    ensures SMALL.Errors(SMALL.Steps(Failing(true), Clean)) && Overflows(Failing(true), SMALL.maxLine)
  {
    hide Config.Meaning, Config.Steps, Config.Kept, Config.Admits, Config.HasContent, Overflows, Concat;
    FailingSteps();
    Meanings();
    Committed(SMALL, [Datum(99), Datum(101)]);
    Committed(SMALL, [Datum(99), Datum(101), BLOCK]);
    assert Datum(101) in [Datum(99), Datum(101)] && Datum(101) in [Datum(99), Datum(101), BLOCK];
  }

  lemma FailingSteps()
    ensures |BLOCK| == 35 && Concat(Failing(false)) == Concat(Failing(true))
    ensures !Overflows(Failing(false), 20) && SMALL.Steps(Failing(false), Clean) == [Datum(99), Datum(101), BLOCK]
    ensures Overflows(Failing(true), 20) && SMALL.Steps(Failing(true), Clean) == [Datum(99), Datum(101)]
  {
    hide Sliced, Feed, Concat;
    BlockOpen();
    NothingSliced();
    var whole, one, two := Datum(99) + (Datum(101) + BLOCK), Datum(99) + (Datum(101) + BLOCK[..34]), BLOCK[34..];
    DatumCut(99, Datum(101) + BLOCK);
    DatumCut(101, BLOCK);
    BlockCut([]);
    assert BLOCK + [] == BLOCK;
    DatumCut(99, Datum(101) + BLOCK[..34]);
    DatumCut(101, BLOCK[..34]);
    OneChunk(whole);
    OneChunk(one);
    OneChunk(two);
    var uncut := [whole];
    assert uncut[..0] == [] && uncut[..1] == uncut;
    assert forall n | 0 <= n <= 1 :: !Over(uncut, 20, n);
    StepsAll(SMALL, uncut, Clean);
    var chunks := Failing(true);
    assert chunks[..0] == [] && chunks[..1] == [one];
    assert Over(chunks, 20, 1);
    StepsOver(SMALL, chunks, 1, Clean);
    ConcatCons(one, [two]);
    assert [one] + [two] == chunks && one + two == whole;
  }

  // A chunk boundary inside the CRLF that closes an event.

  /** The usage event closed by LF and CR, and the LF that belongs to the CR. */
  const SUMMARY: Bytes := DATA + [COLON, SPACE, 117, LF, CR]

  lemma {:induction false} TwoLines(t: Bytes, tail: Bytes, cap: int)
    requires (forall k | 0 <= k < |t| :: !IsEol(t[k])) && |t| + 1 <= cap && 2 <= cap
    requires tail == [CR] || tail == [CR, LF]
    ensures Fitting(t + [LF] + tail, cap) == Scanned([t, []], false)
  {
    var b := t + [LF] + tail;
    LineEndIs(b, |t|);
    FittingStep(b, cap);
    assert b[..|t|] == t && RestOf(b) == tail;
    LineEndIs(tail, 0);
    FittingStep(tail, cap);
    assert RestOf(tail) == [] && tail[..0] == [];
    NothingFits(cap);
  }

  lemma SummaryMeans(tail: Bytes)
    requires tail == [] || tail == [LF]
    ensures Parse(SUMMARY + tail, 20) == Some(Event([], [117], [], []))
  {
    hide Fitting, ReadLines;
    var line := DATA + [COLON, SPACE, 117];
    assert SUMMARY + tail == line + [LF] + ([CR] + tail);
    TwoLines(line, [CR] + tail, 20);
    WireOfDatum(117);
    SseWriter.WireDispatches(SseWriter.Message([], [117]), 20);
  }

  lemma LfMeans()
    ensures Parse([LF], 20) == None
  {
    hide Fitting, ReadLines;
    LineEndIs([LF], 0);
    FittingStep([LF], 20);
    NothingFits(20);
    assert RestOf([LF]) == [] && [LF][..0] == [];
    assert Fitting([LF], 20) == Scanned([[]] + [], false);
    ReadLine(EMPTY, [], [], false, 20);
    ReadEnd(EMPTY, false, 20);
  }

  lemma SummaryCut(tail: Bytes)
    requires tail == [] || tail == [LF]
    ensures Sliced(SUMMARY + tail) == Fed([SUMMARY + tail], [])
  {
    hide EndFrom;
    var b := SUMMARY + tail;
    assert forall k | 0 <= k < 9 :: b[k] == SUMMARY[k];
    AtBlank(b, 0, 7);
    assert EndOf(b) == |b| && b[..|b|] == b && b[|b|..] == [];
    NothingSliced();
    assert [b] + [] == [b];
  }

  lemma LfCut()
    ensures Sliced([LF]) == Fed([], [LF])
  {
    NoBlank([LF], 0);
  }

  /** Content and the summary; whole, or cut between its CR and its LF. */
  function Summed(cut: bool): seq<Bytes> {
    if cut then [Datum(99) + SUMMARY, [LF]] else [Datum(99) + (SUMMARY + [LF])]
  }

  lemma SummedSteps()
    ensures Concat(Summed(false)) == Concat(Summed(true))
    ensures !Overflows(Summed(false), 20) && SMALL.Steps(Summed(false), Clean) == [Datum(99), SUMMARY + [LF]]
    ensures !Overflows(Summed(true), 20) && SMALL.Steps(Summed(true), Clean) == [Datum(99), SUMMARY, [LF]]
  {
    hide Sliced, Feed, Concat;
    var whole, one := Datum(99) + (SUMMARY + [LF]), Datum(99) + SUMMARY;
    DatumCut(99, SUMMARY + [LF]);
    DatumCut(99, SUMMARY);
    SummaryCut([LF]);
    SummaryCut([]);
    assert SUMMARY + [] == SUMMARY;
    LfCut();
    OneChunk(whole);
    OneChunk(one);
    OneChunk([LF]);
    var uncut := [whole];
    assert uncut[..0] == [] && uncut[..1] == uncut;
    assert forall n | 0 <= n <= 1 :: !Over(uncut, 20, n);
    StepsAll(SMALL, uncut, Clean);
    var chunks := Summed(true);
    assert chunks[..0] == [] && chunks[..1] == [one] && chunks[..2] == chunks == [one] + [[LF]];
    FeedSnoc([one], [LF]);
    assert [] + [LF] == [LF];
    assert forall n | 0 <= n <= 2 :: !Over(chunks, 20, n);
    StepsAll(SMALL, chunks, Clean);
    ConcatCons(one, [[LF]]);
    assert one + [LF] == whole;
  }

  lemma SummedOwed()
    ensures Concat(Summed(false)) == Concat(Summed(true)) && CutsAt(Summed(true), 1)
    ensures !SMALL.Doomed(Summed(false), Clean) && SMALL.Owed(Summed(false), Clean, []) == Datum(99)
    ensures !SMALL.Doomed(Summed(true), Clean) && SMALL.Owed(Summed(true), Clean, []) == Datum(99) + [LF]
  {
    hide Config.Meaning, Config.Steps, Config.Owed, Config.Doomed, Config.Kept, Overflows, Concat, Sliced, Feed, Datum, Summed;
    SummedSteps();
    SummedMeanings();
    KeptOf(SMALL, Datum(99), SUMMARY + [LF], SUMMARY, [LF]);
    OwedClean(SMALL, Summed(false), [Datum(99), SUMMARY + [LF]]);
    OwedClean(SMALL, Summed(true), [Datum(99), SUMMARY, [LF]]);
    SummedCuts();
  }

  lemma SummedCuts()
    ensures |Summed(true)| == 2 && CutsAt(Summed(true), 1)
  {
    hide Sliced, Feed;
    DatumCut(99, SUMMARY);
    SummaryCut([]);
    assert SUMMARY + [] == SUMMARY;
    OneChunk(Datum(99) + SUMMARY);
    assert Summed(true)[..1] == [Datum(99) + SUMMARY];
  }

  lemma OwedClean(cfg: Config, chunks: seq<Bytes>, steps: seq<Bytes>)
    requires !Overflows(chunks, cfg.maxLine) && cfg.Steps(chunks, Clean) == steps
    requires steps != [] && cfg.Meaning(steps[0]) == RawEvent(Content, false, None, false)
    ensures !cfg.Doomed(chunks, Clean) && cfg.Owed(chunks, Clean, []) == Concat(cfg.Kept(steps))
  {
    hide Config.Meaning, Config.Steps, Config.Kept, Config.Admits, Config.HasContent, Config.Owed, Overflows, Concat;
    WholeStream(cfg, chunks, []);
    Committed(cfg, steps);
  }

  lemma SummedMeanings()
    ensures SMALL.Meaning(Datum(99)) == RawEvent(Content, false, None, false)
    ensures SMALL.Strips(SUMMARY) && SMALL.Strips(SUMMARY + [LF]) && !SMALL.Strips([LF])
  {
    hide Parse;
    Meanings();
    SummaryMeans([]);
    SummaryMeans([LF]);
    LfMeans();
    assert SUMMARY + [] == SUMMARY;
  }

  lemma KeptOf(cfg: Config, a: Bytes, b: Bytes, b': Bytes, c: Bytes)
    requires !cfg.Strips(a) && cfg.Strips(b) && cfg.Strips(b') && !cfg.Strips(c)
    ensures Concat(cfg.Kept([a, b])) == a && Concat(cfg.Kept([a, b', c])) == a + c
  {
    hide Concat, Config.Strips;
    assert [] + [a] == [a] && [a] + [b] == [a, b] && [a] + [b'] == [a, b'] && [a, b'] + [c] == [a, b', c];
    assert Concat(cfg.Kept([])) == [] by { NothingJoined(); }
    KeptSnoc(cfg, [], a);
    KeptSnoc(cfg, [a], b);
    KeptSnoc(cfg, [a], b');
    KeptSnoc(cfg, [a, b'], c);
    assert [] + a == a && a + [] == a;
  }

  /** One stream, two chunkings, bodies one LF apart: cut inside the CRLF that closes a
      withheld event, the LF is delivered. */
  method LfSlipsThrough() returns (whole: Bytes, cut: Bytes)
    ensures Concat(Summed(false)) == Concat(Summed(true)) && CutsAt(Summed(true), 1)
    ensures whole == Datum(99) && cut == Datum(99) + [LF]
  {
    SummedOwed();
    var r;
    r, whole := Forwarded(SMALL, Summed(false));
    r, cut := Forwarded(SMALL, Summed(true));
  }

  // The same boundary against the cap on the buffer.

  const CAPPED: Config := SMALL.(maxPrecommit := 4)

  /** A comment closed by LF and CR: four bytes, or five with the LF. */
  const REMARK: Bytes := [COLON, 120, LF, CR]

  /** The comment, its LF and content; whole, or cut before the LF. */
  function Remarked(cut: bool): seq<Bytes> {
    if cut then [REMARK, [LF] + Datum(99)] else [REMARK + [LF] + Datum(99)]
  }

  lemma RemarkCut(rest: Bytes)
    ensures Sliced(REMARK) == Fed([REMARK], [])
    ensures var f := Sliced(rest); Sliced(REMARK + [LF] + rest) == Fed([REMARK + [LF]] + f.raws, f.carry)
  {
    hide EndFrom;
    AtBlank(REMARK, 0, 2);
    assert REMARK[..4] == REMARK && REMARK[4..] == [];
    NothingSliced();
    assert [REMARK] + [] == [REMARK];
    var b := REMARK + [LF] + rest;
    AtBlank(b, 0, 2);
    assert b[..5] == REMARK + [LF] && b[5..] == rest;
  }

  lemma LateLfCut()
    ensures Sliced([LF] + Datum(99)) == Fed([[LF] + Datum(99)], [])
  {
    hide EndFrom;
    var b := [LF] + Datum(99);
    PastLine(b, 0, 0);
    AtBlank(b, 1, 8);
    assert b[..10] == b && b[10..] == [];
    NothingSliced();
    assert [b] + [] == [b];
  }

  /** A block that opens with the LF of a CRLF cut in two reads as without it. */
  lemma LateLfMeans()
    ensures Parse([LF] + Datum(99), 20) == Some(Event([], [99], [], []))
    ensures Parse(REMARK, 20) == None && Parse(REMARK + [LF], 20) == None
  {
    hide Fitting, ReadLines, Lines;
    DatumMeans(99);
    NothingFits(20);
    CrFits();
    HalfOfCrLf([CR], [LF] + Datum(99), 20);
    assert ([LF] + Datum(99))[1..] == Datum(99);
    TwoLines([COLON, 120], [CR], 20);
    TwoLines([COLON, 120], [CR, LF], 20);
    assert REMARK == [COLON, 120] + [LF] + [CR] && REMARK + [LF] == [COLON, 120] + [LF] + [CR, LF];
    CommentKeeps(EMPTY, [COLON, 120], 20);
    assert [[COLON, 120], []] == [[COLON, 120]] + ([[]] + []);
    ReadLine(EMPTY, [COLON, 120], [[]] + [], false, 20);
    ReadLine(EMPTY, [], [], false, 20);
    ReadEnd(EMPTY, false, 20);
  }

  lemma CrFits()
    ensures !Fitting([CR], 20).cut
  {
    LineEndIs([CR], 0);
    FittingStep([CR], 20);
    assert RestOf([CR]) == [];
  }

  lemma RemarkedSteps()
    ensures Concat(Remarked(false)) == Concat(Remarked(true))
    ensures !Overflows(Remarked(false), 20) && CAPPED.Steps(Remarked(false), Clean) == [REMARK + [LF], Datum(99)]
    ensures !Overflows(Remarked(true), 20) && CAPPED.Steps(Remarked(true), Clean) == [REMARK, [LF] + Datum(99)]
  {
    hide Sliced, Feed, Concat;
    var whole, late := REMARK + [LF] + Datum(99), [LF] + Datum(99);
    RemarkCut(Datum(99));
    DatumCut(99, []);
    assert Datum(99) + [] == Datum(99);
    NothingSliced();
    LateLfCut();
    OneChunk(whole);
    OneChunk(REMARK);
    OneChunk(late);
    var uncut := [whole];
    assert uncut[..0] == [] && uncut[..1] == uncut;
    assert forall n | 0 <= n <= 1 :: !Over(uncut, 20, n);
    StepsAll(CAPPED, uncut, Clean);
    var chunks := Remarked(true);
    assert chunks[..0] == [] && chunks[..1] == [REMARK] && chunks[..2] == chunks == [REMARK] + [late];
    FeedSnoc([REMARK], late);
    assert [] + late == late;
    assert forall n | 0 <= n <= 2 :: !Over(chunks, 20, n);
    StepsAll(CAPPED, chunks, Clean);
    ConcatCons(REMARK, [late]);
    assert REMARK + late == whole;
  }

  lemma RemarkedFates()
    ensures Concat(Remarked(false)) == Concat(Remarked(true))
    ensures CAPPED.Doomed(Remarked(false), Clean) && !CAPPED.Doomed(Remarked(true), Clean)
  {
    hide Config.Steps, Overflows, Concat, Parse;
    RemarkedSteps();
    LateLfMeans();
    var a, b := [REMARK + [LF], Datum(99)], [REMARK, [LF] + Datum(99)];
    NothingJoined();
    assert a[..0] == [] && b[..0] == [];
    assert !CAPPED.AdmitsAt(a, 0);
    assert CAPPED.AdmitsAt(b, 0) && CAPPED.AdmitsAt(b, 1);
  }

  /** One stream, two chunkings, two fates: the LF counts against the buffer with the
      comment it closes, and not with the content it opens. */
  method CapMovesWithTheCut() returns (whole: Result, cut: Result)
    ensures Concat(Remarked(false)) == Concat(Remarked(true))
    ensures whole.FailedBefore? && !cut.FailedBefore?
  {
    RemarkedFates();
    var body;
    whole, body := Forwarded(CAPPED, Remarked(false));
    cut, body := Forwarded(CAPPED, Remarked(true));
  }
}
