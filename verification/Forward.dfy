/** The stream forwarder of internal/exec/forward.go and the commit writer of
    internal/exec/commitwriter.go.

    Before commit the forwarder buffers; at the first content event it writes the
    buffer and from then on passes each raw event through, dropping only the
    usage summary it injected itself. */
module Forward {
  import opened Options
  import opened Sse
  import opened Splitter
  import Usage

  // ----------------------------------------------------- the commit writer

  /** A client connection: from write number `failFrom` on it fails, having taken
      `taken` bytes of that one. None never fails. */
  datatype Client = Client(failFrom: Option<nat>, taken: nat)

  function Min(a: int, b: int): int {
    if a < b then a else b
  }

  class CommitWriter {
    const client: Client
    var committed: bool
    var body: Bytes   // what reached the client
    var err: bool
    var calls: nat
    ghost var sent: Bytes  // what was handed to Write

    /** The client holds a prefix of what was written to it, and all of it until
        the first failed write. Nothing is written uncommitted. */
    ghost predicate Valid()
      reads this
    {
      && body <= sent
      && (!err ==> body == sent)
      && (err ==> client.failFrom.Some? && client.failFrom.value < calls)
      && (!committed ==> sent == [] && !err)
    }

    constructor (client: Client)
      ensures Valid() && !committed && sent == [] && !err && this.client == client
    {
      this.client := client;
      committed, body, err, calls, sent := false, [], false, 0, [];
    }

    method WriteHeader()
      requires Valid()
      modifies this
      ensures Valid() && committed && sent == old(sent) && err == old(err)
    {
      committed := true;
    }

    method Write(b: Bytes)
      requires Valid()
      modifies this
      ensures Valid() && sent == old(sent) + b && (old(err) ==> err)
      ensures client.failFrom.None? ==> !err
      ensures committed == (old(committed) || b != [])
      ensures b == [] ==> body == old(body) && err == old(err)
    {
      if |b| == 0 { return; }
      committed := true;
      if client.failFrom.None? || calls < client.failFrom.value {
        body := body + b;
      } else {
        var n := if calls == client.failFrom.value then Min(client.taken, |b|) else 0;
        body := body + b[..n];
        err := true;
      }
      sent := sent + b;
      calls := calls + 1;
    }

    method Flush()
      requires Valid()
      modifies this
      ensures Valid() && committed && sent == old(sent) && (old(err) ==> err)
      ensures client.failFrom.None? ==> !err
    {
      committed := true;
      if client.failFrom.Some? && client.failFrom.value <= calls { err := true; }
      calls := calls + 1;
    }
  }

  // ------------------------------------------------------- recognition

  /** What the adapter says of one event. No event is both content and the usage
      summary, so the two are one field. */
  datatype EventKind = Content | UsageOnly | Plain
  datatype RawEvent = RawEvent(kind: EventKind, error: bool, usage: Option<Usage.Counts>, terminal: bool)

  const UNRECOGNISED: RawEvent := RawEvent(Plain, false, None, false)

  /** One forwarded stream's fixed inputs: recogniser, strip flag, both caps. */
  datatype Config = Config(recognise: Event -> RawEvent, strip: bool, maxLine: Cap, maxPrecommit: int)
  {
    function Meaning(raw: Bytes): RawEvent {
      match Parse(raw, maxLine)
      case Some(ev) => recognise(ev)
      case None => UNRECOGNISED
    }

    predicate Strips(raw: Bytes) {
      strip && Meaning(raw).kind.UsageOnly?
    }

    /** The raw events the client is owed. */
    function Kept(raws: seq<Bytes>): seq<Bytes> {
      if raws == [] then []
      else Kept(raws[..|raws| - 1]) + (if Strips(raws[|raws| - 1]) then [] else [raws[|raws| - 1]])
    }

    function Reports(raws: seq<Bytes>): seq<Usage.Counts> {
      if raws == [] then []
      else
        var last := Meaning(raws[|raws| - 1]);
        Reports(raws[..|raws| - 1]) + (if last.usage.Some? then [last.usage.value] else [])
    }

    ghost function TallyOf(raws: seq<Bytes>): Tally {
      Tally(Concat(Kept(raws)), |Concat(raws)|, Usage.MergeAll(Reports(raws)),
            Errors(raws), HasContent(raws),
            Ends(raws), Admits(raws))
    }

    /** The event that ends the response went out after the commit. */
    ghost predicate Ends(raws: seq<Bytes>) {
      exists n | 0 <= n < |raws| :: EndsAt(raws, n)
    }

    ghost predicate EndsAt(raws: seq<Bytes>, n: nat)
      requires n < |raws|
    {
      && Meaning(raws[n]).terminal && !Strips(raws[n])
      && HasContent(raws[..n])
    }

    ghost predicate HasContent(raws: seq<Bytes>) {
      exists raw | raw in raws :: Meaning(raw).kind.Content?
    }

    ghost predicate Errors(raws: seq<Bytes>) {
      exists raw | raw in raws :: Meaning(raw).error
    }

    /** The raw events a response is stepped as: what the splitter cuts, up to its
        first overflow, and the tail of one that ends cleanly. */
    ghost function Steps(chunks: seq<Bytes>, ending: Ending): seq<Bytes> {
      var f := Feed(chunks[..Taken(chunks, maxLine)]);
      if ending.Clean? && !Overflows(chunks, maxLine) && f.carry != [] then f.raws + [f.carry] else f.raws
    }

    /** The bytes after those, which go out as they are. */
    ghost function Rest(chunks: seq<Bytes>, ending: Ending): Bytes {
      var n := Taken(chunks, maxLine);
      var carry := Feed(chunks[..n]).carry;
      if Overflows(chunks, maxLine) then carry + Concat(chunks[n..])
      else if ending.Broken? then carry
      else []
    }

    /** The attempt fails before commit: an event before any content ends it, or no
        content comes before an overlong event or a broken connection. */
    ghost predicate Doomed(chunks: seq<Bytes>, ending: Ending) {
      var steps := Steps(chunks, ending);
      !Admits(steps) || (!HasContent(steps) && (Overflows(chunks, maxLine) || ending.Broken?))
    }

    /** What is reported of a response that commits, to a client that takes it. Its own
        error event comes first, unless an overflow hid it; a connection that fails
        after the event ending the response took nothing away. */
    ghost function Told(chunks: seq<Bytes>, ending: Ending): Result {
      if Overflows(chunks, maxLine) then (if ending.Clean? then Delivered else FailedAfter(ReadFailed))
      else ToldOf(Steps(chunks, ending), ending)
    }

    ghost function ToldOf(raws: seq<Bytes>, ending: Ending): Result {
      if Errors(raws) then FailedAfter(ErrorEvent)
      else if ending.Clean? || Ends(raws) then Delivered
      else FailedAfter(ReadFailed)
    }

    /** The error event the gateway adds: only for a failure the client has not been
        told of. */
    ghost function NoteOf(raws: seq<Bytes>, ending: Ending, streamError: Bytes): Bytes {
      if ToldOf(raws, ending) == FailedAfter(ReadFailed) then streamError else []
    }

    /** Everything the client is owed. */
    ghost function Owed(chunks: seq<Bytes>, ending: Ending, streamError: Bytes): Bytes {
      var steps := Steps(chunks, ending);
      Concat(Kept(steps)) + Rest(chunks, ending)
      + (if Overflows(chunks, maxLine) then [] else NoteOf(steps, ending, streamError))
    }

    /** What ends an attempt that has not committed: an error event, or one more
        byte than the buffer may hold. */
    ghost predicate Rejects(size: nat, raw: Bytes) {
      var re := Meaning(raw);
      re.error || (!re.kind.Content? && 0 < maxPrecommit < size + |raw|)
    }

    /** No event before the first content event ends the attempt. */
    ghost predicate Admits(raws: seq<Bytes>) {
      forall n | 0 <= n < |raws| :: AdmitsAt(raws, n)
    }

    ghost predicate AdmitsAt(raws: seq<Bytes>, n: nat)
      requires n < |raws|
    {
      Rejects(|Concat(raws[..n])|, raws[n]) ==> HasContent(raws[..n])
    }
  }

  /** Everything a run of raw events adds up to. */
  datatype Tally = Tally(owed: Bytes, size: nat, usage: Usage.Counts, error: bool, content: bool, terminal: bool,
                         admitted: bool)

  ghost function Add(t: Tally, cfg: Config, raw: Bytes): Tally {
    var re := cfg.Meaning(raw);
    Tally(t.owed + (if cfg.Strips(raw) then [] else raw), t.size + |raw|,
          if re.usage.Some? then Usage.Merge(t.usage, re.usage.value) else t.usage,
          t.error || re.error, t.content || re.kind.Content?,
          t.terminal || (t.content && re.terminal && !cfg.Strips(raw)),
          t.admitted && (t.content || !cfg.Rejects(t.size, raw)))
  }

  lemma EmptyTally(cfg: Config)
    ensures cfg.TallyOf([]) == Tally([], 0, Usage.ZERO, false, false, false, true)
  {
  }

  lemma EndsSnoc(cfg: Config, raws: seq<Bytes>, raw: Bytes)
    ensures cfg.Ends(raws + [raw]) <==> cfg.Ends(raws) || cfg.EndsAt(raws + [raw], |raws|)
  {
    hide Config.Meaning, Config.Strips;
    var all := raws + [raw];
    assert forall n | 0 <= n < |raws| :: all[..n] == raws[..n];
    assert forall n | 0 <= n < |raws| :: cfg.EndsAt(all, n) <==> cfg.EndsAt(raws, n);
  }

  lemma AdmitsSnoc(cfg: Config, raws: seq<Bytes>, raw: Bytes)
    ensures cfg.Admits(raws + [raw]) <==> cfg.Admits(raws) && cfg.AdmitsAt(raws + [raw], |raws|)
  {
    hide Config.Meaning, Config.Rejects, Concat;
    var all := raws + [raw];
    assert forall n | 0 <= n < |raws| :: all[..n] == raws[..n];
    assert forall n | 0 <= n < |raws| :: cfg.AdmitsAt(all, n) <==> cfg.AdmitsAt(raws, n);
  }

  lemma KeptSnoc(cfg: Config, raws: seq<Bytes>, raw: Bytes)
    ensures Concat(cfg.Kept(raws + [raw])) == Concat(cfg.Kept(raws)) + (if cfg.Strips(raw) then [] else raw)
  {
    hide Concat, Config.Strips;
    assert (raws + [raw])[..|raws|] == raws;
    ConcatSnoc(cfg.Kept(raws), raw);
    assert cfg.Kept(raws) + [] == cfg.Kept(raws);
  }

  lemma ReportsSnoc(cfg: Config, raws: seq<Bytes>, raw: Bytes)
    ensures var u, before := cfg.Meaning(raw).usage, Usage.MergeAll(cfg.Reports(raws));
            Usage.MergeAll(cfg.Reports(raws + [raw])) == if u.Some? then Usage.Merge(before, u.value) else before
  {
    hide Config.Meaning;
    assert (raws + [raw])[..|raws|] == raws;
    var before, u := cfg.Reports(raws), cfg.Meaning(raw).usage;
    if u.Some? {
      assert (before + [u.value])[..|before|] == before;
    } else {
      assert before + [] == before;
    }
  }

  lemma TallyGrows(cfg: Config, raws: seq<Bytes>, raw: Bytes)
    ensures cfg.TallyOf(raws + [raw]) == Add(cfg.TallyOf(raws), cfg, raw)
  {
    hide Config.Ends, Config.Admits, Config.Kept, Config.Reports, Config.Meaning, Config.Rejects, Concat, Usage.MergeAll;
    var all := raws + [raw];
    assert all[..|raws|] == raws;
    EndsSnoc(cfg, raws, raw);
    AdmitsSnoc(cfg, raws, raw);
    KeptSnoc(cfg, raws, raw);
    ReportsSnoc(cfg, raws, raw);
    ConcatSnoc(raws, raw);
    assert raw in all && forall r | r in raws :: r in all;
  }

  // -------------------------------------------------------- the forwarder

  datatype Ending = Clean | Broken
  datatype Cause = ErrorEvent | BufferFull | EventTooLong | ReadFailed
  datatype Result = Delivered | FailedBefore(before: Cause) | FailedAfter(after: Cause) | ClientGone

  class Forwarder {
    const cw: CommitWriter
    const cfg: Config
    var pending: seq<Bytes>
    var pendingBytes: nat
    var committed: bool
    var usage: Usage.Counts
    var failed: bool
    var terminated: bool
    ghost var seen: seq<Bytes>  // the raw events stepped so far
    ghost var last: Bytes       // what an attempt that failed before commit failed on

    /** Once committed, the client was written exactly what it is owed. Before
        that it was written nothing, and the buffer is what a commit would owe,
        within the byte cap. */
    ghost predicate Valid()
      reads this, cw
    {
      var t := cfg.TallyOf(seen);
      && cw.Valid() && cw.committed == committed
      && usage == t.usage && failed == t.error && terminated == t.terminal
      && (if committed then pending == [] && cw.sent == t.owed
          else
            && Concat(pending) == t.owed && pendingBytes == t.size
            && (cfg.maxPrecommit > 0 ==> pendingBytes <= cfg.maxPrecommit)
            && !t.content && !t.error)
    }

    /** Nothing so far should have ended the attempt, and content committed it. */
    ghost predicate OnTrack()
      reads this
    {
      cfg.TallyOf(seen).admitted && (committed ==> cfg.TallyOf(seen).content)
    }

    /** Why an attempt failed before commit: what came after the events seen. */
    ghost predicate Refused(cause: Cause)
      reads this
    {
      && cfg.TallyOf(seen).admitted && !cfg.TallyOf(seen).content
      && match cause
         case ErrorEvent => cfg.Meaning(last).error
         case BufferFull => !cfg.Meaning(last).error && cfg.Rejects(cfg.TallyOf(seen).size, last)
         case EventTooLong => |last| > cfg.maxLine
         case ReadFailed => true
    }

    constructor (cw: CommitWriter, cfg: Config)
      requires cw.Valid() && !cw.committed
      ensures Valid() && OnTrack() && !committed && seen == [] && this.cw == cw && this.cfg == cfg
    {
      EmptyTally(cfg);
      this.cw, this.cfg := cw, cfg;
      pending, pendingBytes, committed, usage := [], 0, false, Usage.ZERO;
      failed, terminated, seen, last := false, false, [], [];
    }

    /** commit: the response is this attempt's from here; the buffer is replayed. */
    method Commit()
      requires cw.Valid() && !cw.committed
      modifies this`committed, this`pending, this`pendingBytes, cw
      ensures committed && pending == []
      ensures cw.Valid() && cw.committed && cw.sent == Concat(old(pending))
    {
      committed := true;
      cw.WriteHeader();
      var i := 0;
      assert pending[..0] == [];
      while i < |pending|
        invariant 0 <= i <= |pending|
        invariant cw.Valid() && cw.committed && cw.sent == Concat(pending[..i])
        modifies cw
      {
        cw.Write(pending[i]);
        assert pending[..i + 1] == pending[..i] + [pending[i]];
        ConcatSnoc(pending[..i], pending[i]);
        i := i + 1;
      }
      assert pending[..i] == pending;
      pending, pendingBytes := [], 0;
      cw.Flush();
    }

    method Recognise(raw: Bytes) returns (re: RawEvent)
      ensures re == cfg.Meaning(raw)
    {
      var ev := ParseEvent(raw, cfg.maxLine);
      re := if ev.Some? then cfg.recognise(ev.value) else UNRECOGNISED;
    }

    /** step: one whole event. A failure here leaves the client untouched. */
    method Step(raw: Bytes) returns (fault: Option<Cause>)
      requires Valid() && OnTrack()
      modifies this, cw
      ensures fault.None? ==> Valid() && OnTrack() && seen == old(seen) + [raw]
      ensures fault.None? ==> committed == (old(committed) || cfg.Meaning(raw).kind.Content?)
      ensures fault.Some? ==> cw.Valid() && cw.sent == [] && !cw.committed
      ensures fault.Some? ==> Refused(fault.value) && seen == old(seen) && last == raw
      ensures fault.Some? ==> fault.value.ErrorEvent? || fault.value.BufferFull?
      ensures fault.Some? <==> !old(committed) && cfg.Rejects(old(cfg.TallyOf(seen).size), raw)
    {
      hide Config.TallyOf, Config.Meaning;
      var re := Recognise(raw);
      if committed {
        StepCommitted(raw, re);
        fault := None;
      } else {
        fault := StepBuffered(raw, re);
      }
    }

    method StepBuffered(raw: Bytes, re: RawEvent) returns (fault: Option<Cause>)
      requires Valid() && OnTrack() && !committed && re == cfg.Meaning(raw)
      modifies this, cw
      ensures fault.None? ==> Valid() && OnTrack() && seen == old(seen) + [raw] && committed == re.kind.Content?
      ensures fault.Some? ==> cw.Valid() && cw.sent == [] && !cw.committed
      ensures fault.Some? ==> Refused(fault.value) && seen == old(seen) && last == raw
      ensures fault.Some? ==> fault.value.ErrorEvent? || fault.value.BufferFull?
      ensures fault.Some? <==> cfg.Rejects(old(cfg.TallyOf(seen).size), raw)
    {
      hide Config.TallyOf, Config.Meaning, Usage.Merge, Concat, NoBoundary;
      TallyGrows(cfg, seen, raw);
      ConcatSnoc(pending, raw);
      if re.usage.Some? { usage := Usage.Merge(usage, re.usage.value); }
      last := raw;
      if re.error { return Some(ErrorEvent); }
      if re.kind.Content? {
        Commit();
        cw.Write(raw);
        cw.Flush();
        seen := seen + [raw];
        return None;
      }
      if cfg.maxPrecommit > 0 && pendingBytes + |raw| > cfg.maxPrecommit { return Some(BufferFull); }
      pendingBytes := pendingBytes + |raw|;
      if !(cfg.strip && re.kind.UsageOnly?) { pending := pending + [raw]; }
      seen := seen + [raw];
      return None;
    }

    method StepCommitted(raw: Bytes, re: RawEvent)
      requires Valid() && OnTrack() && committed && re == cfg.Meaning(raw)
      modifies this, cw
      ensures Valid() && OnTrack() && committed && seen == old(seen) + [raw]
    {
      hide Config.TallyOf, Config.Meaning, Config.Rejects, Usage.Merge, Concat, CommitWriter.Valid;
      TallyGrows(cfg, seen, raw);
      if re.usage.Some? { usage := Usage.Merge(usage, re.usage.value); }
      if re.error { failed := true; }
      if !(cfg.strip && re.kind.UsageOnly?) {
        cw.Write(raw);
        cw.Flush();
        terminated := terminated || re.terminal;
      }
      seen := seen + [raw];
    }

    /** clientGone: an error event already sent came first. */
    function GoneResult(): Result
      reads this
    {
      if failed then FailedAfter(ErrorEvent) else ClientGone
    }

    /** The events of one chunk, until one ends the attempt or the client fails. */
    method StepAll(events: seq<Bytes>) returns (stop: Option<Result>, ghost n: nat)
      requires Valid() && OnTrack() && !cw.err
      modifies this, cw
      ensures stop.None? ==> Valid() && OnTrack() && !cw.err && seen == old(seen) + events
      ensures stop.None? ==> (old(committed) ==> committed)
      ensures stop.Some? ==> cw.Valid()
      ensures stop.Some? && stop.value.FailedBefore? ==>
                && !cw.committed && Refused(stop.value.before)
                && (stop.value.before.ErrorEvent? || stop.value.before.BufferFull?)
                && n < |events| && seen == old(seen) + events[..n] && last == events[n]
      ensures stop.Some? && !stop.value.FailedBefore? ==>
                && Valid() && OnTrack() && cw.err && committed && stop.value == GoneResult()
                && n <= |events| && seen == old(seen) + events[..n]
    {
      hide Valid, OnTrack, Refused, Config.TallyOf, Config.Meaning;
      var j := 0;
      assert old(seen) + events[..0] == old(seen);
      while j < |events|
        invariant 0 <= j <= |events|
        invariant Valid() && OnTrack() && !cw.err && seen == old(seen) + events[..j]
        invariant old(committed) ==> committed
      {
        var fault := Step(events[j]);
        if fault.Some? { return Some(FailedBefore(fault.value)), j; }
        j := j + 1;
        assert old(seen) + events[..j] == old(seen) + events[..j - 1] + [events[j - 1]];
        if cw.err {
          ErrMeansCommitted();
          return Some(GoneResult()), j;
        }
      }
      assert events[..j] == events;
      return None, j;
    }

    lemma ErrMeansCommitted()
      requires Valid()
      ensures cw.Valid() && cw.committed == committed
      ensures cw.err ==> committed
    {
    }

    /** copyFlushing: the rest of the body, raw, until the client fails. */
    method CopyRaw(chunks: seq<Bytes>) returns (ok: bool, ghost copied: Bytes)
      requires cw.Valid() && cw.committed
      modifies cw
      ensures cw.Valid() && cw.committed && cw.sent == old(cw.sent) + copied
      ensures !ok ==> cw.err
      ensures copied <= Concat(chunks) && (!cw.err ==> copied == Concat(chunks))
    {
      copied := [];
      var i := 0;
      assert chunks[..0] == [];
      while i < |chunks|
        invariant 0 <= i <= |chunks|
        invariant cw.Valid() && cw.committed
        invariant copied == Concat(chunks[..i]) && cw.sent == old(cw.sent) + copied
      {
        assert chunks[..i + 1] == chunks[..i] + [chunks[i]];
        ConcatSnoc(chunks[..i], chunks[i]);
        assert old(cw.sent) + copied + chunks[i] == old(cw.sent) + (copied + chunks[i]);
        copied := copied + chunks[i];
        SoFar(chunks, i + 1);
        cw.Write(chunks[i]);
        if cw.err { return false, copied; }
        cw.Flush();
        if cw.err { return false, copied; }
        i := i + 1;
      }
      assert chunks[..i] == chunks;
      ok := true;
    }

    /** The carry, and everything after it. */
    method CopyRest(sp: EventSplitter, chunks: seq<Bytes>) returns (ok: bool, ghost raw: Bytes)
      requires cw.Valid() && cw.committed
      modifies cw, sp
      ensures cw.Valid() && cw.committed && cw.sent == old(cw.sent) + raw
      ensures !ok ==> cw.err
      ensures raw <= old(sp.buf) + Concat(chunks) && (!cw.err ==> raw == old(sp.buf) + Concat(chunks))
    {
      hide Concat, CommitWriter.Valid;
      var tail := sp.Flush();
      cw.Write(tail);
      cw.Flush();
      ghost var copied;
      ok, copied := CopyRaw(chunks);
      raw := tail + copied;
      Associates(old(cw.sent), tail, copied);
    }

    /** The carry passed the cap. Uncommitted, that ends the attempt; committed,
        the carry and everything after it is copied raw. */
    method Overflow(sp: EventSplitter, chunks: seq<Bytes>, ending: Ending) returns (r: Result, ghost past: Past)
      requires Valid() && OnTrack() && !cw.err && |sp.buf| > cfg.maxLine
      modifies this, cw, sp
      ensures cw.Valid() && (r.FailedBefore? <==> !cw.committed) && seen == old(seen)
      ensures !r.FailedBefore? ==> Served(past) && cfg.Admits(seen) && cfg.HasContent(seen)
      ensures r.FailedBefore? ==> r.before.EventTooLong? && Refused(r.before) && last == old(sp.buf)
      ensures past.note == [] && cw.committed == old(cw.committed)
      ensures !r.FailedBefore? ==> past.raw <= old(sp.buf) + Concat(chunks)
      ensures !r.FailedBefore? && !cw.err ==> past.raw == old(sp.buf) + Concat(chunks)
      ensures !r.FailedBefore? && !cw.err ==> r == if ending.Clean? then Delivered else FailedAfter(ReadFailed)
    {
      past := NOTHING;
      Unfold();
      Admitted();
      hide Config.TallyOf, Config.Meaning, Config.Kept, Config.Admits, Config.HasContent, Valid, CommitWriter.Valid, Concat;
      if !committed {
        last := sp.buf;
        return FailedBefore(EventTooLong), past;
      }
      var ok, raw := CopyRest(sp, chunks);
      past := Past(raw, []);
      assert cw.sent == cw.sent + [];
      if !ok { return ClientGone, past; }
      if ending.Broken? { return FailedAfter(ReadFailed), past; }
      if cw.err { return GoneResult(), past; }
      return Delivered, past;
    }

    /** The body ended: cleanly, or cut. */
    method Finish(sp: EventSplitter, ending: Ending, streamError: Bytes) returns (r: Result, ghost past: Past)
      requires Valid() && OnTrack() && !cw.err
      modifies this, cw, sp
      ensures cw.Valid() && (r.FailedBefore? <==> !cw.committed)
      ensures r.FailedBefore? ==> Refused(r.before) && seen == old(seen) && last == old(sp.buf)
      ensures r.FailedBefore? ==> !r.before.EventTooLong? && (r.before.ReadFailed? <==> ending.Broken?)
      ensures r.FailedBefore? && ending.Clean? ==> last != []
      ensures !r.FailedBefore? ==> seen == Ended(old(seen), old(sp.buf), ending) && OnceCommitted(ending)
      ensures !r.FailedBefore? ==> Served(past) && past.note == cfg.NoteOf(seen, ending, streamError)
      ensures !r.FailedBefore? ==> past.raw == if ending.Broken? then old(sp.buf) else []
      ensures !r.FailedBefore? && !cw.err ==> r == cfg.ToldOf(seen, ending)
    {
      hide Valid, OnTrack, Refused, Served, Ended, OnceCommitted, Config.ToldOf, Config.NoteOf;
      if ending.Broken? {
        r, past := FinishBroken(sp, streamError);
        return;
      }
      past := NOTHING;
      r := FinishClean(sp);
      NoNote(cfg, seen, streamError);
    }

    /** What a response that was committed and has ended shows of its events. */
    ghost predicate OnceCommitted(ending: Ending)
      reads this
    {
      cfg.Admits(seen) && (ending.Broken? ==> cfg.HasContent(seen))
    }

    /** The tail is one last event, and a stream with no content at all is an
        empty completion rather than a failure. */
    method FinishClean(sp: EventSplitter) returns (r: Result)
      requires Valid() && OnTrack() && !cw.err
      modifies this, cw, sp
      ensures cw.Valid() && (r.FailedBefore? <==> !cw.committed)
      ensures !r.FailedBefore? ==> Served(NOTHING) && OnceCommitted(Clean)
      ensures !r.FailedBefore? ==> seen == Ended(old(seen), old(sp.buf), Clean)
      ensures r.FailedBefore? ==> Refused(r.before) && seen == old(seen) && last == old(sp.buf)
      ensures r.FailedBefore? ==> last != [] && (r.before.ErrorEvent? || r.before.BufferFull?)
      ensures !r.FailedBefore? && !cw.err ==> r == cfg.ToldOf(seen, Clean)
    {
      hide Valid, OnTrack, Refused, Config.TallyOf, Config.Meaning, Concat, Config.Errors;
      var tail := sp.Flush();
      if |tail| > 0 {
        var fault := Step(tail);
        if fault.Some? { return FailedBefore(fault.value); }
      }
      Admitted();
      if !committed { CommitEmpty(); }
      Unfold();
      assert cw.sent == cw.sent + [] + [];
      if cw.err { return GoneResult(); }
      return if failed then FailedAfter(ErrorEvent) else Delivered;
    }

    method CommitEmpty()
      requires Valid() && !committed
      modifies this, cw
      ensures Valid() && committed && seen == old(seen)
    {
      hide Config.TallyOf, Concat;
      Commit();
    }

    /** A connection that failed after commit: the carry goes out raw, and then an
        error event, unless the stream had ended or reported its own failure. */
    method FinishBroken(sp: EventSplitter, streamError: Bytes) returns (r: Result, ghost past: Past)
      requires Valid() && OnTrack() && !cw.err
      modifies this, cw, sp
      ensures cw.Valid() && (r.FailedBefore? <==> !cw.committed) && cw.committed == old(cw.committed)
      ensures seen == old(seen) == Ended(old(seen), old(sp.buf), Broken)
      ensures !r.FailedBefore? ==> Served(past) && OnceCommitted(Broken)
      ensures !r.FailedBefore? ==> past.raw == old(sp.buf) && past.note == cfg.NoteOf(seen, Broken, streamError)
      ensures !r.FailedBefore? && !cw.err ==> r == cfg.ToldOf(seen, Broken)
      ensures r.FailedBefore? ==> r.before.ReadFailed? && Refused(r.before) && last == old(sp.buf)
    {
      past := NOTHING;
      Unfold();
      Admitted();
      hide Config.TallyOf, Config.Meaning, Config.Errors, Config.Ends, Config.HasContent, Config.Admits, Config.Kept,
           Config.Reports, Concat, Valid, CommitWriter.Valid;
      if !committed {
        last := sp.buf;
        return FailedBefore(ReadFailed), past;
      }
      past := SendCut(sp, terminated || failed, streamError);
      if terminated && !failed {
        return if cw.err then GoneResult() else Delivered, past;
      }
      return FailedAfter(if failed then ErrorEvent else ReadFailed), past;
    }

    /** The carry, and the gateway's own error event unless it has nothing to tell. */
    method SendCut(sp: EventSplitter, told: bool, streamError: Bytes) returns (ghost past: Past)
      requires cw.Valid() && cw.committed
      modifies cw, sp
      ensures cw.Valid() && cw.committed && cw.sent == old(cw.sent) + past.raw + past.note
      ensures past == Past(old(sp.buf), if told then [] else streamError)
    {
      var tail := sp.Flush();
      cw.Write(tail);
      past := Past(tail, if told then [] else streamError);
      if told {
        assert cw.sent == cw.sent + [];
      } else {
        cw.Write(streamError);
      }
    }

    /** Whatever was written: the raw events owed, what was copied raw after them,
        and at most one error event of the gateway's own. */
    ghost predicate Served(past: Past)
      reads this, cw
    {
      && cw.sent == Concat(cfg.Kept(seen)) + past.raw + past.note
      && usage == Usage.MergeAll(cfg.Reports(seen))
    }

    lemma Unfold()
      requires Valid()
      ensures cw.Valid() && cw.committed == committed
      ensures committed ==> cw.sent == Concat(cfg.Kept(seen))
      ensures usage == Usage.MergeAll(cfg.Reports(seen))
      ensures failed <==> cfg.Errors(seen)
      ensures terminated <==> cfg.Ends(seen)
    {
    }

    lemma Admitted()
      requires OnTrack()
      ensures cfg.Admits(seen) && (committed ==> cfg.HasContent(seen))
    {
    }

    /** Where an attempt that failed before commit stopped. */
    ghost predicate StoppedAt(chunks: seq<Bytes>, ending: Ending, cause: Cause)
      reads this
    {
      var carry := Feed(chunks[..Taken(chunks, cfg.maxLine)]).carry;
      match cause
      case ErrorEvent => seen + [last] <= cfg.Steps(chunks, ending)
      case BufferFull => seen + [last] <= cfg.Steps(chunks, ending)
      case EventTooLong => Overflows(chunks, cfg.maxLine) && seen == cfg.Steps(chunks, ending) && last == carry
      case ReadFailed =>
        && !Overflows(chunks, cfg.maxLine) && ending.Broken?
        && seen == cfg.Steps(chunks, ending) && last == carry
    }

    /** All there is to say of a finished response. Whether it fails before commit, and
        on what, is settled by the bytes, their chunking and the ending. If it does not,
        the client is sent what it is owed, up to where it stops taking it; and if it
        takes it all, the result is settled too. */
    ghost predicate Concluded(chunks: seq<Bytes>, ending: Ending, streamError: Bytes, r: Result)
      reads this, cw
    {
      && (r.FailedBefore? <==> cfg.Doomed(chunks, ending))
      && (r.FailedBefore? <==> !cw.committed)
      && (r.FailedBefore? ==> cw.body == [] && Refused(r.before) && StoppedAt(chunks, ending, r.before))
      && (!r.FailedBefore? ==>
            && cw.body <= cw.sent <= cfg.Owed(chunks, ending, streamError)
            && seen <= cfg.Steps(chunks, ending) && usage == Usage.MergeAll(cfg.Reports(seen)))
      && (!r.FailedBefore? && !cw.err ==>
            && cw.body == cfg.Owed(chunks, ending, streamError)
            && seen == cfg.Steps(chunks, ending) && r == cfg.Told(chunks, ending))
    }

    /** forwardStream: the whole response, in whatever chunks it arrives. */
    method Run(chunks: seq<Bytes>, ending: Ending, streamError: Bytes) returns (r: Result)
      requires Valid() && OnTrack() && !committed && seen == []
      modifies this, cw
      ensures cw.Valid() && Concluded(chunks, ending, streamError, r)
    {
      var sp := new EventSplitter(cfg.maxLine);
      ErrMeansCommitted();
      hide Valid, OnTrack, Concluded, Served, Refused, OnceCommitted, Config.NoteOf, Config.ToldOf, Config.Steps, Config.Rest,
           Overflows, Over, Feed, Taken;
      var i := 0;
      NothingFed(chunks, cfg.maxLine);
      while i < |chunks|
        invariant 0 <= i <= |chunks| && Valid() && OnTrack() && !cw.err
        invariant fresh(sp) && sp.max == cfg.maxLine && InStep(sp, chunks, i)
      {
        var end := TakeNext(sp, chunks, i, ending, streamError);
        if end.Some? { return end.value; }
        i := i + 1;
      }
      StepsAll(cfg, chunks, ending);
      ghost var past;
      r, past := Finish(sp, ending, streamError);
      Finished(chunks, ending, streamError, r, past);
    }

    /** The splitter has been fed the first i chunks, and has not overflowed. */
    ghost predicate InStep(sp: EventSplitter, chunks: seq<Bytes>, i: nat)
      requires i <= |chunks|
      reads this, sp
    {
      Feed(chunks[..i]) == Fed(seen, sp.buf) && forall n | 0 <= n <= i :: !Over(chunks, cfg.maxLine, n)
    }

    /** One turn of the read loop: it ends the response or leaves all in step. */
    method TakeNext(sp: EventSplitter, chunks: seq<Bytes>, i: nat, ending: Ending, streamError: Bytes)
      returns (end: Option<Result>)
      requires Valid() && OnTrack() && !cw.err && sp.max == cfg.maxLine && i < |chunks| && InStep(sp, chunks, i)
      modifies this, cw, sp
      ensures end.None? ==> Valid() && OnTrack() && !cw.err && InStep(sp, chunks, i + 1)
      ensures end.Some? ==> cw.Valid() && Concluded(chunks, ending, streamError, end.value)
    {
      hide Valid, OnTrack, Concluded, Served, Refused, Config.Steps, Config.Rest, Config.Admits, Config.HasContent,
           Feed, Sliced, Concat, Taken;
      assert chunks[..i + 1] == chunks[..i] + [chunks[i]];
      FeedSnoc(chunks[..i], chunks[i]);
      var stop, tooLong := TakeChunk(sp, chunks[i]);
      if stop.Some? {
        StepsReach(cfg, chunks, i + 1, ending);
        Interrupted(chunks, ending, streamError, stop.value);
        return stop;
      }
      if tooLong {
        StepsOver(cfg, chunks, i + 1, ending);
        var r, past := Overflow(sp, chunks[i + 1..], ending);
        Overflowed(chunks, ending, streamError, r, past);
        return Some(r);
      }
      return None;
    }

    lemma Interrupted(chunks: seq<Bytes>, ending: Ending, streamError: Bytes, r: Result)
      requires cw.Valid() && (r.FailedBefore? <==> !cw.committed)
      requires r.FailedBefore? ==> Refused(r.before) && (r.before.ErrorEvent? || r.before.BufferFull?)
      requires r.FailedBefore? ==> seen + [last] <= cfg.Steps(chunks, ending)
      requires !r.FailedBefore? ==>
                 && cw.err && Served(NOTHING) && cfg.Admits(seen) && cfg.HasContent(seen)
                 && seen <= cfg.Steps(chunks, ending)
      ensures Concluded(chunks, ending, streamError, r)
    {
      hide Refused, Config.Steps, Config.Rest, Config.Admits, Config.HasContent, Config.Meaning, Config.Kept, Config.Reports,
           Config.NoteOf, Overflows, Concat, Feed, Usage.MergeAll;
      var steps := cfg.Steps(chunks, ending);
      if r.FailedBefore? {
        RefusedRejects(r.before);
        DoomedBy(cfg, seen, last, steps);
      } else {
        SafeBy(cfg, seen, steps);
        KeptPrefix(cfg, seen, steps);
      }
    }

    lemma Overflowed(chunks: seq<Bytes>, ending: Ending, streamError: Bytes, r: Result, past: Past)
      requires cw.Valid() && (r.FailedBefore? <==> !cw.committed)
      requires Overflows(chunks, cfg.maxLine) && seen == cfg.Steps(chunks, ending)
      requires r.FailedBefore? ==> r.before.EventTooLong? && Refused(r.before)
      requires r.FailedBefore? ==> last == Feed(chunks[..Taken(chunks, cfg.maxLine)]).carry
      requires !r.FailedBefore? ==> Served(past) && cfg.Admits(seen) && cfg.HasContent(seen) && past.note == []
      requires !r.FailedBefore? ==> past.raw <= cfg.Rest(chunks, ending)
      requires !r.FailedBefore? && !cw.err ==> past.raw == cfg.Rest(chunks, ending)
      requires !r.FailedBefore? && !cw.err ==> r == if ending.Clean? then Delivered else FailedAfter(ReadFailed)
      ensures Concluded(chunks, ending, streamError, r)
    {
      hide Refused, Config.Steps, Config.Rest, Config.Admits, Config.HasContent, Config.Meaning, Config.Kept, Config.Reports,
           Overflows, Concat, Feed, Usage.MergeAll;
      if r.FailedBefore? { RefusedRejects(r.before); }
      PrefixKept(Concat(cfg.Kept(seen)), past.raw, cfg.Rest(chunks, ending));
    }

    lemma Finished(chunks: seq<Bytes>, ending: Ending, streamError: Bytes, r: Result, past: Past)
      requires cw.Valid() && (r.FailedBefore? <==> !cw.committed)
      requires !Overflows(chunks, cfg.maxLine)
      requires r.FailedBefore? ==> Refused(r.before) && !r.before.EventTooLong?
      requires r.FailedBefore? && r.before.ReadFailed? ==>
                 && ending.Broken? && seen == cfg.Steps(chunks, ending)
                 && last == Feed(chunks[..Taken(chunks, cfg.maxLine)]).carry
      requires r.FailedBefore? && !r.before.ReadFailed? ==> seen + [last] == cfg.Steps(chunks, ending)
      requires !r.FailedBefore? ==> seen == cfg.Steps(chunks, ending) && OnceCommitted(ending) && Served(past)
      requires !r.FailedBefore? ==> past.raw == cfg.Rest(chunks, ending)
      requires !r.FailedBefore? ==> past.note == cfg.NoteOf(seen, ending, streamError)
      requires !r.FailedBefore? && !cw.err ==> r == cfg.ToldOf(seen, ending)
      ensures Concluded(chunks, ending, streamError, r)
    {
      hide Refused, Config.Steps, Config.Rest, Config.Admits, Config.HasContent, Config.Meaning, Config.Kept, Config.Reports,
           Config.ToldOf, Config.NoteOf, Overflows, Concat, Feed, Usage.MergeAll;
      if r.FailedBefore? {
        RefusedRejects(r.before);
        if !r.before.ReadFailed? { DoomedBy(cfg, seen, last, cfg.Steps(chunks, ending)); }
      }
    }

    lemma RefusedRejects(cause: Cause)
      requires Refused(cause)
      ensures cfg.Admits(seen) && !cfg.HasContent(seen)
      ensures cause.ErrorEvent? || cause.BufferFull? ==> cfg.Rejects(|Concat(seen)|, last)
    {
    }

    /** One read: split it, step its events. */
    method TakeChunk(sp: EventSplitter, chunk: Bytes) returns (stop: Option<Result>, tooLong: bool)
      requires Valid() && OnTrack() && !cw.err
      modifies this, cw, sp
      ensures var f := Sliced(old(sp.buf) + chunk);
              && sp.buf == f.carry && (tooLong <==> 0 < sp.max < |sp.buf|)
              && (stop.None? ==> Valid() && OnTrack() && !cw.err && seen == old(seen) + f.raws)
              && (stop.Some? && stop.value.FailedBefore? ==> seen + [last] <= old(seen) + f.raws)
              && (stop.Some? ==> seen <= old(seen) + f.raws)
      ensures stop.Some? ==> cw.Valid() && (stop.value.FailedBefore? <==> !cw.committed)
      ensures stop.Some? && stop.value.FailedBefore? ==>
                Refused(stop.value.before) && (stop.value.before.ErrorEvent? || stop.value.before.BufferFull?)
      ensures stop.Some? && !stop.value.FailedBefore? ==>
                cw.err && Served(NOTHING) && cfg.Admits(seen) && cfg.HasContent(seen)
    {
      hide Valid, OnTrack, Refused, Config.TallyOf, Config.Meaning, Config.Admits, Config.HasContent, Concat, Sliced;
      ghost var seen0 := seen;
      var events;
      events, tooLong := sp.Push(chunk);
      ghost var n;
      stop, n := StepAll(events);
      if stop.Some? {
        UpTo(seen0, events, n);
        if !stop.value.FailedBefore? {
          Unfold();
          Admitted();
          assert cw.sent == cw.sent + [] + [];
        }
      }
    }
  }

  lemma UpTo(a: seq<Bytes>, b: seq<Bytes>, n: nat)
    requires n <= |b|
    ensures a + b[..n] <= a + b && (n < |b| ==> a + b[..n] + [b[n]] <= a + b)
  {
  }

  const NOTHING: Past := Past([], [])

  /** The events as the ending leaves them: a clean one makes an event of the tail. */
  ghost function Ended(raws: seq<Bytes>, tail: Bytes, ending: Ending): seq<Bytes> {
    if ending.Clean? && tail != [] then raws + [tail] else raws
  }

  lemma NoNote(cfg: Config, raws: seq<Bytes>, streamError: Bytes)
    ensures cfg.NoteOf(raws, Clean, streamError) == []
  {
  }

  lemma PrefixKept(a: Bytes, b: Bytes, c: Bytes)
    ensures b <= c ==> a + b <= a + c
    ensures a + b + [] == a + b && a + c + [] == a + c
  {
  }

  // ---------------------------------- the steps, from where the run stands

  lemma NothingFed(chunks: seq<Bytes>, max: int)
    ensures Feed(chunks[..0]) == Fed([], []) && !Over(chunks, max, 0)
  {
  }

  /** Nothing over yet: what was cut so far is stepped. */
  lemma StepsReach(cfg: Config, chunks: seq<Bytes>, i: nat, ending: Ending)
    requires i <= |chunks| && forall n | 0 <= n < i :: !Over(chunks, cfg.maxLine, n)
    ensures Feed(chunks[..i]).raws <= cfg.Steps(chunks, ending)
  {
    hide Over, Feed, Overflows;
    TakenFacts(chunks, cfg.maxLine, 0);
    var t := Taken(chunks, cfg.maxLine);
    assert chunks[..t][..i] == chunks[..i];
    FeedGrows(chunks[..t], i);
  }

  lemma StepsOver(cfg: Config, chunks: seq<Bytes>, i: nat, ending: Ending)
    requires i <= |chunks| && Over(chunks, cfg.maxLine, i)
    requires forall n | 0 <= n < i :: !Over(chunks, cfg.maxLine, n)
    ensures Overflows(chunks, cfg.maxLine) && Taken(chunks, cfg.maxLine) == i
    ensures cfg.Steps(chunks, ending) == Feed(chunks[..i]).raws
    ensures cfg.Rest(chunks, ending) == Feed(chunks[..i]).carry + Concat(chunks[i..])
  {
    hide Over, Feed, Concat;
    TakenIs(chunks, cfg.maxLine, 0, i);
  }

  lemma StepsAll(cfg: Config, chunks: seq<Bytes>, ending: Ending)
    requires forall n | 0 <= n <= |chunks| :: !Over(chunks, cfg.maxLine, n)
    ensures !Overflows(chunks, cfg.maxLine) && Taken(chunks, cfg.maxLine) == |chunks| && chunks[..|chunks|] == chunks
    ensures cfg.Steps(chunks, ending) == Ended(Feed(chunks).raws, Feed(chunks).carry, ending)
    ensures cfg.Rest(chunks, ending) == if ending.Broken? then Feed(chunks).carry else []
  {
    hide Over, Feed, Concat;
    TakenIs(chunks, cfg.maxLine, 0, |chunks|);
    assert chunks[..|chunks|] == chunks;
  }

  /** An event that should end an uncommitted attempt dooms every stream it is in. */
  lemma DoomedBy(cfg: Config, seen: seq<Bytes>, last: Bytes, steps: seq<Bytes>)
    requires seen + [last] <= steps && !cfg.HasContent(seen) && cfg.Rejects(|Concat(seen)|, last)
    ensures !cfg.Admits(steps)
  {
    hide Config.Meaning, Config.Rejects, Config.HasContent, Concat;
    assert steps[..|seen|] == seen && steps[|seen|] == last;
    assert !cfg.AdmitsAt(steps, |seen|);
  }

  /** Content makes whatever follows it safe. */
  lemma SafeBy(cfg: Config, seen: seq<Bytes>, steps: seq<Bytes>)
    requires seen <= steps && cfg.Admits(seen) && cfg.HasContent(seen)
    ensures cfg.Admits(steps) && cfg.HasContent(steps)
  {
    hide Config.Meaning, Config.Rejects, Concat;
    var raw :| raw in seen && cfg.Meaning(raw).kind.Content?;
    assert raw in steps;
    forall n | 0 <= n < |steps|
      ensures cfg.AdmitsAt(steps, n)
    {
      if n < |seen| {
        assert cfg.AdmitsAt(seen, n);
        assert steps[..n] == seen[..n] && steps[n] == seen[n];
      } else {
        assert steps[..n][..|seen|] == seen;
        assert raw in steps[..n];
      }
    }
  }

  lemma {:induction false} KeptPrefix(cfg: Config, seen: seq<Bytes>, steps: seq<Bytes>)
    requires seen <= steps
    ensures Concat(cfg.Kept(seen)) <= Concat(cfg.Kept(steps))
    decreases |steps|
  {
    hide Concat, Config.Strips;
    if seen != steps {
      var init, last := steps[..|steps| - 1], steps[|steps| - 1];
      KeptPrefix(cfg, seen, init);
      assert steps == init + [last];
      KeptSnoc(cfg, init, last);
    }
  }

  // ------------------------------------------ every byte is somewhere

  /** Raw events and raw rest are exactly the upstream's bytes, chunked as they may. */
  lemma EveryByte(cfg: Config, chunks: seq<Bytes>, ending: Ending)
    ensures Concat(cfg.Steps(chunks, ending)) + cfg.Rest(chunks, ending) == Concat(chunks)
  {
    hide Concat, Feed, Over;
    var n := Taken(chunks, cfg.maxLine);
    var f := Feed(chunks[..n]);
    FeedBytes(chunks[..n]);
    TakenFacts(chunks, cfg.maxLine, 0);
    if Overflows(chunks, cfg.maxLine) {
      RestOfStream(chunks, n, f.raws, f.carry);
    } else {
      assert chunks[..n] == chunks;
      ConcatSnoc(f.raws, f.carry);
      assert Concat(f.raws + [f.carry]) + [] == Concat(f.raws + [f.carry]);
      if f.carry == [] { assert Concat(f.raws) + [] == Concat(f.raws); }
    }
  }

  /** The raw events are as the splitter cuts them. */
  lemma StepsAreCut(cfg: Config, chunks: seq<Bytes>, ending: Ending)
    ensures Cut(cfg.Steps(chunks, ending))
    ensures Overflows(chunks, cfg.maxLine) ==> AllBlocks(cfg.Steps(chunks, ending))
  {
    hide Feed, IsBlock, NoBoundary, Overflows;
    var f := Feed(chunks[..Taken(chunks, cfg.maxLine)]);
    FeedBlocks(chunks[..Taken(chunks, cfg.maxLine)]);
    assert (f.raws + [f.carry])[..|f.raws|] == f.raws;
  }

  lemma SoFar(chunks: seq<Bytes>, i: nat)
    requires i <= |chunks|
    ensures Concat(chunks[..i]) <= Concat(chunks)
  {
    assert chunks == chunks[..i] + chunks[i..];
    ConcatAppend(chunks[..i], chunks[i..]);
  }

  lemma RestOfStream(chunks: seq<Bytes>, i: nat, seen: seq<Bytes>, carry: Bytes)
    requires i <= |chunks| && Concat(seen) + carry == Concat(chunks[..i])
    ensures Concat(seen) + (carry + Concat(chunks[i..])) == Concat(chunks)
  {
    hide Concat;
    assert chunks == chunks[..i] + chunks[i..];
    ConcatAppend(chunks[..i], chunks[i..]);
    Associates(Concat(seen), carry, Concat(chunks[i..]));
  }

  /** Raw events as the splitter cuts them: all whole, but perhaps the last. */
  predicate AllBlocks(raws: seq<Bytes>) {
    forall raw | raw in raws :: IsBlock(raw)
  }

  predicate Cut(raws: seq<Bytes>) {
    || AllBlocks(raws)
    || (raws != [] && AllBlocks(raws[..|raws| - 1]) && NoBoundary(raws[|raws| - 1]))
  }

  /** What went out besides raw events: bytes copied raw, and an error event. */
  datatype Past = Past(raw: Bytes, note: Bytes)

  // ------------------------------------------- what the client receives

  /** Strip off: not a byte is missing. */
  lemma {:induction false} NothingStripped(cfg: Config, raws: seq<Bytes>)
    requires !cfg.strip
    ensures cfg.Kept(raws) == raws
  {
    if raws != [] {
      NothingStripped(cfg, raws[..|raws| - 1]);
      assert raws == raws[..|raws| - 1] + [raws[|raws| - 1]];
    }
  }

  /** What is withheld is every stripped event and nothing else. */
  lemma {:induction false} OnlyUsageWithheld(cfg: Config, raws: seq<Bytes>)
    ensures forall raw :: raw in cfg.Kept(raws) <==> raw in raws && !cfg.Strips(raw)
  {
    hide Config.Strips;
    if raws != [] {
      var init, last := raws[..|raws| - 1], raws[|raws| - 1];
      OnlyUsageWithheld(cfg, init);
      assert raws == init + [last];
    }
  }

  function Wanted(cfg: Config, events: seq<Event>): seq<Event> {
    if events == [] then []
    else
      var last := events[|events| - 1];
      Wanted(cfg, events[..|events| - 1])
      + (if cfg.strip && cfg.recognise(last).kind.UsageOnly? then [] else [last])
  }

  lemma {:induction false} CutReads(raws: seq<Bytes>, cap: int)
    requires Cut(raws)
    ensures Read(Concat(raws), cap) == ReadAll(raws, cap)
  {
    hide Read, IsBlock, NoBoundary;
    if AllBlocks(raws) {
      BlocksReadAsStream(raws, [], cap);
      NothingRead(cap);
      assert Concat(raws) + [] == Concat(raws);
      assert ReadAll(raws, cap).events + [] == ReadAll(raws, cap).events;
    } else {
      var init, last := raws[..|raws| - 1], raws[|raws| - 1];
      assert raws == init + [last];
      SplitAgreesWithReader(init, last, cap);
      ConcatSnoc(init, last);
    }
  }

  lemma NothingRead(cap: int)
    ensures Read([], cap) == Reading([], false)
  {
    NoLines();
  }

  lemma {:induction false} CutShort(cfg: Config, raws: seq<Bytes>)
    requires Cut(raws)
    ensures forall raw | raw in raws :: IsBlock(raw) || NoBoundary(raw)
    ensures Cut(cfg.Kept(raws))
    ensures raws != [] ==> AllBlocks(raws[..|raws| - 1]) && Cut(raws[..|raws| - 1])
  {
    hide IsBlock, NoBoundary, Config.Meaning;
    OnlyUsageWithheld(cfg, raws);
    if raws != [] {
      var init, last := raws[..|raws| - 1], raws[|raws| - 1];
      assert raws == init + [last];
      OnlyUsageWithheld(cfg, init);
      var kept := cfg.Kept(raws);
      if !cfg.Strips(last) {
        assert kept[..|kept| - 1] == cfg.Kept(init) && kept[|kept| - 1] == last;
      } else {
        assert kept == cfg.Kept(init);
      }
    }
  }

  lemma NoneToRead(cap: int)
    ensures ReadAll([], cap) == Reading([], false)
  {
  }

  /** A raw event is stripped exactly when its one event is a usage summary. */
  lemma StripsByEvent(cfg: Config, raw: Bytes)
    requires IsBlock(raw) || NoBoundary(raw)
    ensures var one := Read(raw, cfg.maxLine).events;
            && |one| <= 1
            && (cfg.Strips(raw) <==> cfg.strip && one != [] && cfg.recognise(one[0]).kind.UsageOnly?)
  {
    AtMostOneEvent(raw, cfg.maxLine);
    hide Read, IsBlock, NoBoundary;
  }

  lemma WantedSnoc(cfg: Config, events: seq<Event>, e: Event)
    ensures Wanted(cfg, events + [e]) ==
            Wanted(cfg, events) + (if cfg.strip && cfg.recognise(e).kind.UsageOnly? then [] else [e])
  {
    assert (events + [e])[..|events|] == events;
  }

  /** One more raw event, kept or not, against the events read. */
  lemma KeptStep(cfg: Config, init: seq<Bytes>, last: Bytes, kept: seq<Bytes>)
    requires IsBlock(last) || NoBoundary(last)
    requires kept == if cfg.Strips(last) then cfg.Kept(init) else cfg.Kept(init) + [last]
    requires !ReadAll(init + [last], cfg.maxLine).tooLong
    requires ReadAll(cfg.Kept(init), cfg.maxLine) == Reading(Wanted(cfg, ReadAll(init, cfg.maxLine).events), false)
    ensures ReadAll(kept, cfg.maxLine) == Reading(Wanted(cfg, ReadAll(init + [last], cfg.maxLine).events), false)
  {
    hide Read, IsBlock, NoBoundary, ReadAll, Config.Strips, Config.Kept, Wanted;
    var cap := cfg.maxLine;
    ReadAllSnoc(init, last, cap);
    ReadAllSnoc(cfg.Kept(init), last, cap);
    StripsByEvent(cfg, last);
    var before, one := ReadAll(init, cap).events, Read(last, cap).events;
    if one == [] {
      assert before + one == before;
      assert Wanted(cfg, before) + one == Wanted(cfg, before);
    } else {
      assert one == [one[0]];
      WantedSnoc(cfg, before, one[0]);
      assert Wanted(cfg, before) + [] == Wanted(cfg, before);
    }
  }

  lemma {:induction false} KeptReadsAsWanted(cfg: Config, raws: seq<Bytes>)
    requires forall raw | raw in raws :: IsBlock(raw) || NoBoundary(raw)
    requires !ReadAll(raws, cfg.maxLine).tooLong
    ensures ReadAll(cfg.Kept(raws), cfg.maxLine) ==
            Reading(Wanted(cfg, ReadAll(raws, cfg.maxLine).events), false)
  {
    hide Read, IsBlock, NoBoundary, ReadAll, Config.Strips;
    NoneToRead(cfg.maxLine);
    if raws != [] {
      var init, last := raws[..|raws| - 1], raws[|raws| - 1];
      assert raws == init + [last];
      ReadAllSnoc(init, last, cfg.maxLine);
      KeptReadsAsWanted(cfg, init);
      assert cfg.Kept(init) + [] == cfg.Kept(init);
      KeptStep(cfg, init, last, cfg.Kept(raws));
    }
  }

  /** Dropping raw events from the bytes drops exactly the usage summaries from
      the events: the client's reader sees the upstream's events less those, and
      nothing merges or splits where a raw event was taken out. */
  lemma StripIsByEvent(cfg: Config, raws: seq<Bytes>)
    requires Cut(raws)
    requires !Read(Concat(raws), cfg.maxLine).tooLong
    ensures Read(Concat(cfg.Kept(raws)), cfg.maxLine) ==
            Reading(Wanted(cfg, Read(Concat(raws), cfg.maxLine).events), false)
  {
    hide Read, IsBlock, NoBoundary, Config.Meaning;
    CutReads(raws, cfg.maxLine);
    CutShort(cfg, raws);
    CutReads(cfg.Kept(raws), cfg.maxLine);
    KeptReadsAsWanted(cfg, raws);
  }
}
