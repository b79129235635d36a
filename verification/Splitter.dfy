/** The event splitter of internal/exec/rawstream.go: it cuts a forwarded byte
    stream into raw events, chunk by chunk, and must agree with the reader. */
module Splitter {
  import opened Options
  import opened Sse

  /** No blank line past the first: nothing in b ends an event yet. */
  predicate NoBoundary(b: Bytes) {
    forall k | 1 <= k < |Lines(b)| :: Lines(b)[k] != []
  }

  /** One whole raw event: its last line is blank, and no line between the first
      and the last is. (The first may be blank: the LF of a CRLF cut in two.) */
  predicate IsBlock(r: Bytes) {
    var lines := Lines(r);
    && |lines| >= 2
    && EndsBlank(lines)
    && forall k | 1 <= k < |lines| - 1 :: lines[k] != []
  }

  /** b[i..j] is one line terminator: LF, CR or CRLF. */
  predicate TermAt(b: Bytes, i: int, j: int) {
    && 0 <= i < j <= |b|
    && ((j == i + 1 && IsEol(b[i])) || (j == i + 2 && b[i] == CR && b[i + 1] == LF))
  }

  // --------------------------------------------- lines of a growing prefix

  /** Where the unfinished last line of x starts. */
  lemma LastLine(x: Bytes) returns (n: nat)
    requires !EndsLine(x)
    ensures n < |x| && EndsLine(x[..n])
    ensures forall j | n <= j < |x| :: !IsEol(x[j])
  {
    n := |x| - 1;
    while n > 0 && !IsEol(x[n - 1])
      invariant forall j | n <= j < |x| :: !IsEol(x[j])
    {
      n := n - 1;
    }
  }

  lemma SplitLast(x: Bytes, n: nat, more: Bytes)
    requires n < |x| && EndsLine(x[..n]) && !IsEol(x[n])
    ensures Lines(x + more) == Lines(x[..n]) + Lines(x[n..] + more)
  {
    hide Lines, LineEnd;
    var head, tail := x[..n], x[n..] + more;
    assert x + more == head + tail;
    LinesConcat(head, tail);
    assert After(head, tail) == tail;
  }

  lemma TextLine(t: Bytes)
    requires t != [] && forall j | 0 <= j < |t| :: !IsEol(t[j])
    ensures Lines(t) == [t]
  {
    LineEndIs(t, |t|);
  }

  /** Text and one terminator, or a terminator alone, is one line. */
  lemma ClosedLine(text: Bytes, b: Bytes, i: nat, j: nat)
    requires forall k | 0 <= k < |text| :: !IsEol(text[k])
    requires TermAt(b, i, j)
    ensures Lines(text + b[i..j]) == [text]
  {
    hide Lines, LineEnd;
    var line := text + b[i..j];
    FirstLine(line, |text|);
    assert line[..|text|] == text;
    assert line[PastEol(line, |text|)..] == [];
    NoLines();
  }

  lemma StepText(b: Bytes, i: nat)
    requires i < |b| && !IsEol(b[i]) && NoBoundary(b[..i])
    ensures NoBoundary(b[..i + 1])
  {
    hide Lines, LineEnd;
    var x, c := b[..i], [b[i]];
    assert b[..i + 1] == x + c;
    if EndsLine(x) {
      LinesConcat(x, c);
      TextLine(c);
    } else {
      var n := LastLine(x);
      SplitLast(x, n, []);
      SplitLast(x, n, c);
      assert x + [] == x && x[n..] + [] == x[n..];
      TextLine(x[n..]);
      TextLine(x[n..] + c);
      SameLinesButLast(Lines(x[..n]), x[n..], x[n..] + c, Lines(x), Lines(x + c));
    }
  }

  lemma SameLinesButLast(head: seq<Bytes>, u: Bytes, v: Bytes, before: seq<Bytes>, now: seq<Bytes>)
    requires before == head + [u] && now == head + [v] && v != []
    requires forall k | 1 <= k < |before| :: before[k] != []
    ensures forall k | 1 <= k < |now| :: now[k] != []
  {
    assert forall k | 0 <= k < |head| :: now[k] == before[k];
  }

  /** A terminator b[i..j] that follows text, or opens the buffer, is no boundary. */
  lemma StepEol(b: Bytes, i: nat, j: nat)
    requires TermAt(b, i, j)
    requires i > 0 ==> !IsEol(b[i - 1])
    requires NoBoundary(b[..i])
    ensures NoBoundary(b[..j])
    ensures Lines(b[..j]) != []
  {
    hide Lines, LineEnd;
    var x := b[..i];
    assert b[..j] == x + b[i..j];
    if i == 0 {
      ClosedLine([], b, i, j);
      assert x + b[i..j] == [] + b[i..j];
    } else {
      var n := LastLine(x);
      SplitLast(x, n, []);
      SplitLast(x, n, b[i..j]);
      assert x + [] == x && x[n..] + [] == x[n..];
      TextLine(x[n..]);
      ClosedLine(x[n..], b, i, j);
      assert Lines(b[..j]) == Lines(x);
    }
  }

  /** A second terminator right after it completes a raw event. */
  lemma Boundary(b: Bytes, i: nat, j: nat, e: nat)
    requires TermAt(b, i, j) && TermAt(b, j, e)
    requires !(b[j - 1] == CR && b[j] == LF)
    requires i > 0 ==> !IsEol(b[i - 1])
    requires NoBoundary(b[..i])
    ensures IsBlock(b[..e])
  {
    hide Lines, LineEnd;
    StepEol(b, i, j);
    var x, t := b[..j], b[j..e];
    assert b[..e] == x + t;
    LinesConcat(x, t);
    assert After(x, t) == t == [] + t;
    ClosedLine([], b, j, e);
    ClosedByBlank(Lines(x), Lines(b[..e]));
  }

  lemma ClosedByBlank(head: seq<Bytes>, lines: seq<Bytes>)
    requires head != [] && lines == head + [[]]
    requires forall k | 1 <= k < |head| :: head[k] != []
    ensures |lines| >= 2 && EndsBlank(lines)
    ensures forall k | 1 <= k < |lines| - 1 :: lines[k] != []
  {
    assert forall k | 0 <= k < |head| :: lines[k] == head[k];
  }

  // -------------------------------------------------------- the splitter

  /** Where the first event boundary at or after i ends: two terminators in a row,
      the second with its LF if that is there, except that a CR after a CR is taken
      alone. */
  function EndFrom(b: Bytes, i: nat): (e: int)
    requires i <= |b|
    ensures e == -1 || i + 2 <= e <= |b|
    decreases |b| - i
  {
    if i == |b| then -1
    else if b[i] == LF && i + 1 < |b| && IsEol(b[i + 1]) then
      if b[i + 1] == CR && i + 2 < |b| && b[i + 2] == LF then i + 3 else i + 2
    else if b[i] == CR && i + 1 < |b| && b[i + 1] == LF then
      if i + 2 < |b| && IsEol(b[i + 2]) then
        if b[i + 2] == CR && i + 3 < |b| && b[i + 3] == LF then i + 4 else i + 3
      else EndFrom(b, i + 2)
    else if b[i] == CR && i + 1 < |b| && b[i + 1] == CR then i + 2
    else EndFrom(b, i + 1)
  }

  function EndOf(b: Bytes): (e: int)
    ensures e == -1 || 2 <= e <= |b|
  {
    EndFrom(b, 0)
  }

  /** The scan finds the first boundary: what it cuts is one block, and what it does
      not cut holds none. */
  lemma {:induction false} EndFromFacts(b: Bytes, i: nat)
    requires i <= |b| && NoBoundary(b[..i])
    requires 0 < i < |b| && IsEol(b[i - 1]) ==> !IsEol(b[i])
    ensures EndFrom(b, i) == -1 ==> NoBoundary(b)
    ensures EndFrom(b, i) != -1 ==> IsBlock(b[..EndFrom(b, i)])
    decreases |b| - i
  {
    hide NoBoundary, IsBlock, Lines;
    if i == |b| {
      assert b[..i] == b;
    } else if !IsEol(b[i]) {
      StepText(b, i);
      EndFromFacts(b, i + 1);
    } else {
      var j := PastEol(b, i);
      StepEol(b, i, j);
      if j < |b| && IsEol(b[j]) {
        Boundary(b, i, j, EndFrom(b, i));
      } else {
        EndFromFacts(b, j);
      }
    }
  }

  lemma EndOfFacts(b: Bytes)
    ensures EndOf(b) == -1 ==> NoBoundary(b)
    ensures EndOf(b) != -1 ==> IsBlock(b[..EndOf(b)])
  {
    assert b[..0] == [];
    NoLines();
    assert NoBoundary(b[..0]);
    EndFromFacts(b, 0);
  }

  /** eventEnd: just past the first event boundary, or -1. */
  method EventEnd(b: Bytes) returns (e: int)
    ensures e == EndOf(b)
    ensures e == -1 ==> NoBoundary(b)
    ensures e != -1 ==> IsBlock(b[..e])
  {
    hide NoBoundary, IsBlock;
    EndOfFacts(b);
    var i := 0;
    while i < |b|
      invariant 0 <= i <= |b| && EndFrom(b, 0) == EndFrom(b, i)
    {
      if b[i] == LF {
        if i + 1 < |b| {
          if b[i + 1] == LF { return i + 2; }
          if b[i + 1] == CR {
            if i + 2 < |b| && b[i + 2] == LF { return i + 3; }
            return i + 2;
          }
        }
      } else if b[i] == CR {
        if i + 1 < |b| && b[i + 1] == LF {
          if i + 2 < |b| {
            if b[i + 2] == LF { return i + 3; }
            if b[i + 2] == CR {
              if i + 3 < |b| && b[i + 3] == LF { return i + 4; }
              return i + 3;
            }
          }
          i := i + 2;
          continue;
        }
        if i + 1 < |b| && b[i + 1] == CR { return i + 2; }
      }
      i := i + 1;
    }
    return -1;
  }

  /** Raw events cut off, and the carry that stays. */
  datatype Fed = Fed(raws: seq<Bytes>, carry: Bytes)

  /** Every event completed in b. */
  function Sliced(b: Bytes): Fed
    decreases |b|
  {
    var e := EndOf(b);
    if e == -1 then Fed([], b)
    else
      var f := Sliced(b[e..]);
      Fed([b[..e]] + f.raws, f.carry)
  }

  lemma NothingJoined()
    ensures Concat([]) == []
  {
  }

  lemma {:induction false} SlicedBytes(b: Bytes)
    ensures Concat(Sliced(b).raws) + Sliced(b).carry == b
    decreases |b|
  {
    hide EndOf, Concat;
    var e := EndOf(b);
    if e != -1 {
      var f := Sliced(b[e..]);
      SlicedBytes(b[e..]);
      ConcatCons(b[..e], f.raws);
      Associates(b[..e], Concat(f.raws), f.carry);
      assert b == b[..e] + b[e..];
    } else {
      NothingJoined();
    }
  }

  lemma {:induction false} SlicedBlocks(b: Bytes)
    ensures forall r | r in Sliced(b).raws :: IsBlock(r)
    ensures NoBoundary(Sliced(b).carry)
    decreases |b|
  {
    hide IsBlock, NoBoundary, EndOf;
    EndOfFacts(b);
    var e := EndOf(b);
    if e != -1 { SlicedBlocks(b[e..]); }
  }

  /** What the splitter has cut after these chunks. */
  function Feed(chunks: seq<Bytes>): Fed {
    if chunks == [] then Fed([], [])
    else
      var n := |chunks| - 1;
      var f := Feed(chunks[..n]);
      var g := Sliced(f.carry + chunks[n]);
      Fed(f.raws + g.raws, g.carry)
  }

  lemma FeedSnoc(chunks: seq<Bytes>, chunk: Bytes)
    ensures var f, g := Feed(chunks), Sliced(Feed(chunks).carry + chunk);
            Feed(chunks + [chunk]) == Fed(f.raws + g.raws, g.carry)
  {
    assert (chunks + [chunk])[..|chunks|] == chunks;
  }

  lemma {:induction false} FeedBytes(chunks: seq<Bytes>)
    ensures Concat(Feed(chunks).raws) + Feed(chunks).carry == Concat(chunks)
  {
    hide Concat, Sliced;
    NothingJoined();
    if chunks != [] {
      var n := |chunks| - 1;
      var f := Feed(chunks[..n]);
      FeedBytes(chunks[..n]);
      SlicedBytes(f.carry + chunks[n]);
      NoByteLost(f.raws, f.carry, Sliced(f.carry + chunks[n]).raws, Feed(chunks).carry, chunks[n]);
      assert chunks == chunks[..n] + [chunks[n]];
      ConcatSnoc(chunks[..n], chunks[n]);
    }
  }

  lemma {:induction false} FeedBlocks(chunks: seq<Bytes>)
    ensures forall r | r in Feed(chunks).raws :: IsBlock(r)
    ensures NoBoundary(Feed(chunks).carry)
  {
    if chunks == [] {
      NoLines();
    } else {
      hide Sliced, IsBlock, NoBoundary;
      var n := |chunks| - 1;
      FeedBlocks(chunks[..n]);
      SlicedBlocks(Feed(chunks[..n]).carry + chunks[n]);
    }
  }

  /** The cuts only add up. */
  lemma {:induction false} FeedGrows(chunks: seq<Bytes>, n: nat)
    requires n <= |chunks|
    ensures Feed(chunks[..n]).raws <= Feed(chunks).raws
    decreases |chunks|
  {
    if n == |chunks| {
      assert chunks[..n] == chunks;
    } else {
      var init := chunks[..|chunks| - 1];
      assert init[..n] == chunks[..n];
      FeedGrows(init, n);
    }
  }

  /** The carry passes the cap once the first n chunks are in. */
  predicate Over(chunks: seq<Bytes>, max: int, n: nat)
    requires n <= |chunks|
  {
    0 < max < |Feed(chunks[..n]).carry|
  }

  predicate Overflows(chunks: seq<Bytes>, max: int) {
    exists n | 0 <= n <= |chunks| :: Over(chunks, max, n)
  }

  /** How many chunks are taken: up to the first overflow, or all. */
  function TakenFrom(chunks: seq<Bytes>, max: int, n: nat): (t: nat)
    requires n <= |chunks|
    ensures n <= t <= |chunks|
    decreases |chunks| - n
  {
    if n == |chunks| || Over(chunks, max, n) then n else TakenFrom(chunks, max, n + 1)
  }

  function Taken(chunks: seq<Bytes>, max: int): (t: nat)
    ensures t <= |chunks|
  {
    TakenFrom(chunks, max, 0)
  }

  lemma {:induction false} TakenIs(chunks: seq<Bytes>, max: int, n: nat, t: nat)
    requires n <= t <= |chunks| && (forall i | n <= i < t :: !Over(chunks, max, i))
    requires t == |chunks| || Over(chunks, max, t)
    ensures TakenFrom(chunks, max, n) == t
    decreases t - n
  {
    if n < t { TakenIs(chunks, max, n + 1, t); }
  }

  lemma {:induction false} TakenFacts(chunks: seq<Bytes>, max: int, n: nat)
    requires n <= |chunks|
    ensures var t := TakenFrom(chunks, max, n);
            && (t == |chunks| || Over(chunks, max, t))
            && forall i | n <= i < t :: !Over(chunks, max, i)
    decreases |chunks| - n
  {
    if n < |chunks| && !Over(chunks, max, n) { TakenFacts(chunks, max, n + 1); }
  }

  class EventSplitter {
    var buf: Bytes
    const max: int

    constructor (max: int)
      ensures buf == [] && this.max == max
    {
      this.max := max;
      buf := [];
    }

    /** Every completed event is cut off, in order and byte for byte; the carry
        that stays holds no boundary. */
    method Push(chunk: Bytes) returns (out: seq<Bytes>, tooLong: bool)
      modifies this
      ensures Concat(out) + buf == old(buf) + chunk
      ensures forall r | r in out :: IsBlock(r)
      ensures NoBoundary(buf)
      ensures Fed(out, buf) == Sliced(old(buf) + chunk)
      ensures tooLong <==> 0 < max < |buf|
    {
      hide IsBlock, NoBoundary, Concat;
      buf := buf + chunk;
      SlicedBytes(buf);
      SlicedBlocks(buf);
      out := [];
      while true
        invariant Fed(out + Sliced(buf).raws, Sliced(buf).carry) == Sliced(old(buf) + chunk)
        decreases |buf|
      {
        var end := EventEnd(buf);
        if end < 0 {
          assert out + [] == out;
          break;
        }
        out := out + [buf[..end]];
        buf := buf[end..];
      }
      tooLong := max > 0 && |buf| > max;
    }

    method Flush() returns (tail: Bytes)
      modifies this
      ensures tail == old(buf) && buf == []
    {
      tail := buf;
      buf := [];
    }
  }

  // ------------------------------------------------ agreement with Reader

  function ReadAll(raws: seq<Bytes>, cap: int): Reading {
    if raws == [] then Reading([], false) else Then(Read(raws[0], cap), ReadAll(raws[1..], cap))
  }

  /** Lines with no blank past the first, and at most one blank to close them,
      hold at most one event. */
  lemma {:induction false} OneEvent(p: Partial, lines: seq<Bytes>, cut: bool, cap: int)
    requires forall k | 0 <= k < |lines| - 1 :: lines[k] != []
    ensures |ReadLines(p, lines, cut, cap).events| <= 1
    decreases |lines|
  {
    if lines != [] && lines[0] != [] {
      match Field(p, lines[0], cap)
      case None =>
      case Some(q) => OneEvent(q, lines[1..], cut, cap);
    } else if lines != [] {
      assert lines[1..] == [];
    }
  }

  /** A block, or the carry left at the end, dispatches at most one event. */
  lemma AtMostOneEvent(raw: Bytes, cap: int)
    requires IsBlock(raw) || NoBoundary(raw)
    ensures |Read(raw, cap).events| <= 1
  {
    FittingIsLines(raw, cap);
    var lines, cut := Fitting(raw, cap).lines, Fitting(raw, cap).cut;
    assert forall k | 0 <= k < |lines| :: lines[k] == Lines(raw)[k];
    if lines != [] {
      if lines[0] == [] {
        OneEvent(EMPTY, lines[1..], cut, cap);
      } else {
        OneEvent(EMPTY, lines, cut, cap);
      }
    }
  }

  /** The raw events of a stream, read one by one, are the events of the stream. */
  lemma {:induction false} BlocksReadAsStream(blocks: seq<Bytes>, tail: Bytes, cap: int)
    requires forall r | r in blocks :: IsBlock(r)
    ensures Read(Concat(blocks) + tail, cap) == Then(ReadAll(blocks, cap), Read(tail, cap))
  {
    if blocks == [] {
      assert Concat(blocks) + tail == tail;
      assert [] + Read(tail, cap).events == Read(tail, cap).events;
    } else {
      var rest := Concat(blocks[1..]) + tail;
      assert Concat(blocks) + tail == blocks[0] + rest;
      assert IsBlock(blocks[0]);
      ReadConcat(blocks[0], rest, cap);
      BlocksReadAsStream(blocks[1..], tail, cap);
      ThenAssociates(Read(blocks[0], cap), ReadAll(blocks[1..], cap), Read(tail, cap));
    }
  }

  lemma ThenAssociates(r: Reading, s: Reading, t: Reading)
    ensures Then(r, Then(s, t)) == Then(Then(r, s), t)
  {
    assert r.events + (s.events + t.events) == r.events + s.events + t.events;
  }

  /** parseEvent on each raw event, keeping what dispatched. */
  function Recognised(raws: seq<Bytes>, cap: int): seq<Event> {
    if raws == [] then []
    else
      var rest := Recognised(raws[1..], cap);
      match Parse(raws[0], cap)
      case Some(ev) => [ev] + rest
      case None => rest
  }

  /** As long as no event passes the cap, that is what the reader reads. Past the
      cap the reader stops where parseEvent drops the event and goes on, so what
      the reader read is still a prefix. */
  lemma {:induction false} RecognisedIsRead(raws: seq<Bytes>, cap: int)
    requires forall r | r in raws :: IsBlock(r) || NoBoundary(r)
    ensures ReadAll(raws, cap).events <= Recognised(raws, cap)
    ensures !ReadAll(raws, cap).tooLong ==> Recognised(raws, cap) == ReadAll(raws, cap).events
  {
    hide Read, IsBlock, NoBoundary;
    if raws != [] {
      RecognisedIsRead(raws[1..], cap);
      AtMostOneEvent(raws[0], cap);
      var first := Read(raws[0], cap).events;
      assert first == [] || first == [first[0]];
      var mine := if first == [] then [] else [first[0]];
      assert Recognised(raws, cap) == mine + Recognised(raws[1..], cap);
    }
  }

  /** Raw events and a final carry mean what the bytes they were cut from mean to
      the reader, wherever the cuts fell. */
  lemma SplitAgreesWithReader(blocks: seq<Bytes>, tail: Bytes, cap: int)
    requires forall r | r in blocks :: IsBlock(r)
    requires NoBoundary(tail)
    ensures ReadAll(blocks + [tail], cap) == Read(Concat(blocks) + tail, cap)
    ensures Read(Concat(blocks) + tail, cap).events <= Recognised(blocks + [tail], cap)
    ensures !Read(Concat(blocks) + tail, cap).tooLong ==>
              Recognised(blocks + [tail], cap) == Read(Concat(blocks) + tail, cap).events
  {
    hide Read, IsBlock, NoBoundary;
    BlocksReadAsStream(blocks, tail, cap);
    ReadAllSnoc(blocks, tail, cap);
    RecognisedIsRead(blocks + [tail], cap);
  }

  lemma NoByteLost(raws: seq<Bytes>, carry: Bytes, out: seq<Bytes>, buf: Bytes, chunk: Bytes)
    requires Concat(out) + buf == carry + chunk
    ensures Concat(raws + out) + buf == Concat(raws) + carry + chunk
  {
    ConcatAppend(raws, out);
    assert Concat(raws) + Concat(out) + buf == Concat(raws) + (Concat(out) + buf);
    assert Concat(raws) + (carry + chunk) == Concat(raws) + carry + chunk;
  }

  /** The forwarder's whole pass over a stream: push every chunk, flush the tail. */
  method SplitStream(chunks: seq<Bytes>) returns (raws: seq<Bytes>)
    ensures Concat(raws) == Concat(chunks)
    ensures forall i | 0 <= i < |raws| - 1 :: IsBlock(raws[i])
    ensures forall r | r in raws :: IsBlock(r) || NoBoundary(r)
    ensures forall cap: int :: ReadAll(raws, cap) == Read(Concat(chunks), cap)
    ensures forall cap: int :: !Read(Concat(chunks), cap).tooLong ==>
              Recognised(raws, cap) == Read(Concat(chunks), cap).events
  {
    NoLines();
    var sp := new EventSplitter(0);
    assert NoBoundary(sp.buf);
    hide IsBlock, NoBoundary, Read, ReadAll, Recognised;
    raws := [];
    var i := 0;
    assert chunks[..0] == [];
    while i < |chunks|
      invariant 0 <= i <= |chunks|
      invariant Concat(raws) + sp.buf == Concat(chunks[..i])
      invariant forall r | r in raws :: IsBlock(r)
      invariant NoBoundary(sp.buf)
    {
      ghost var carry := sp.buf;
      var out, _ := sp.Push(chunks[i]);
      assert chunks[..i + 1] == chunks[..i] + [chunks[i]];
      ConcatSnoc(chunks[..i], chunks[i]);
      NoByteLost(raws, carry, out, sp.buf, chunks[i]);
      raws := raws + out;
      i := i + 1;
    }
    assert chunks[..i] == chunks;
    var tail := sp.Flush();
    forall cap: int
      ensures ReadAll(raws + [tail], cap) == Read(Concat(chunks), cap)
      ensures ReadAll(raws + [tail], cap).tooLong ||
              Recognised(raws + [tail], cap) == ReadAll(raws + [tail], cap).events
    {
      SplitAgreesWithReader(raws, tail, cap);
    }
    ConcatSnoc(raws, tail);
    raws := raws + [tail];
  }

  lemma {:induction false} ReadAllSnoc(raws: seq<Bytes>, r: Bytes, cap: int)
    ensures ReadAll(raws + [r], cap) == Then(ReadAll(raws, cap), Read(r, cap))
  {
    if raws == [] {
      assert (raws + [r])[1..] == [];
      assert [] + Read(r, cap).events + [] == Read(r, cap).events;
    } else {
      assert (raws + [r])[1..] == raws[1..] + [r];
      ReadAllSnoc(raws[1..], r, cap);
      ThenAssociates(Read(raws[0], cap), ReadAll(raws[1..], cap), Read(r, cap));
    }
  }
}
