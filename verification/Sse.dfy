/** The event-stream reader of internal/sse/reader.go.

    The meaning of a byte stream is given twice. `Read` is the plain definition:
    cut the whole stream into lines, fold the lines into events. `LineScanner` and
    `Reader` are the code: an incremental scanner over whatever chunks the
    connection delivers, and a loop that accumulates one event at a time. Their
    contracts tie the second to the first for every way of chunking the stream. */
module Sse {
  import opened Options

  type Byte = x: int | 0 <= x < 256
  type Bytes = seq<Byte>

  const LF: Byte := 10
  const CR: Byte := 13
  const SPACE: Byte := 32
  const COLON: Byte := 58
  const DATA: Bytes := [100, 97, 116, 97]
  const EVENT: Bytes := [101, 118, 101, 110, 116]
  const ID: Bytes := [105, 100]
  const RETRY: Bytes := [114, 101, 116, 114, 121]

  datatype Event = Event(kind: Bytes, data: Bytes, id: Bytes, retry: Bytes)

  function Concat(parts: seq<Bytes>): Bytes {
    if parts == [] then [] else parts[0] + Concat(parts[1..])
  }

  lemma {:induction false} ConcatAppend(a: seq<Bytes>, b: seq<Bytes>)
    ensures Concat(a + b) == Concat(a) + Concat(b)
  {
    if a == [] {
      assert a + b == b;
    } else {
      assert (a + b)[1..] == a[1..] + b;
      ConcatAppend(a[1..], b);
    }
  }

  lemma ConcatCons(x: Bytes, rest: seq<Bytes>)
    ensures Concat([x] + rest) == x + Concat(rest)
  {
    assert ([x] + rest)[1..] == rest;
  }

  lemma Associates(a: Bytes, b: Bytes, c: Bytes)
    ensures a + b + c == a + (b + c)
  {
  }

  lemma ConcatSnoc(a: seq<Bytes>, x: Bytes)
    ensures Concat(a + [x]) == Concat(a) + x
  {
    ConcatAppend(a, [x]);
    assert Concat([x]) == x + Concat([]);
  }

  // ---------------------------------------------------------------- lines

  predicate IsEol(b: Byte) {
    b == LF || b == CR
  }

  /** Where the first line of b stops: its first CR or LF, or the end of b. */
  function LineEnd(b: Bytes): (i: nat)
    ensures i <= |b|
    ensures forall j | 0 <= j < i :: !IsEol(b[j])
    ensures i < |b| ==> IsEol(b[i])
  {
    if b == [] || IsEol(b[0]) then 0 else 1 + LineEnd(b[1..])
  }

  /** Just past the terminator that starts at i: a CRLF pair is one terminator. */
  function PastEol(b: Bytes, i: nat): (j: nat)
    requires i < |b|
    ensures i < j <= |b|
  {
    if b[i] == CR && i + 1 < |b| && b[i + 1] == LF then i + 2 else i + 1
  }

  /** The lines of a complete stream. An unterminated last line counts; a
      terminator at the very end does not open another line. */
  function Lines(b: Bytes): seq<Bytes>
    decreases |b|
  {
    if b == [] then []
    else
      var i := LineEnd(b);
      if i == |b| then [b] else [b[..i]] + Lines(b[PastEol(b, i)..])
  }

  /** What follows the first line. */
  function RestOf(b: Bytes): Bytes {
    var i := LineEnd(b);
    if i == |b| then [] else b[PastEol(b, i)..]
  }

  lemma LineEndIs(b: Bytes, i: nat)
    requires i <= |b|
    requires forall j | 0 <= j < i :: !IsEol(b[j])
    requires i < |b| ==> IsEol(b[i])
    ensures LineEnd(b) == i
  {
  }

  lemma NoLines()
    ensures Lines([]) == []
  {
  }

  /** The first line, split off at its known end. */
  lemma FirstLine(b: Bytes, i: nat)
    requires i < |b| && IsEol(b[i])
    requires forall j | 0 <= j < i :: !IsEol(b[j])
    ensures Lines(b) == [b[..i]] + Lines(b[PastEol(b, i)..])
  {
    LineEndIs(b, i);
  }

  predicate EndsLine(a: Bytes) {
    a == [] || IsEol(a[|a| - 1])
  }

  predicate SplitsCrLf(a: Bytes, b: Bytes) {
    a != [] && b != [] && a[|a| - 1] == CR && b[0] == LF
  }

  /** What follows a's first line in a + b. */
  function After(a: Bytes, b: Bytes): Bytes {
    if SplitsCrLf(a, b) then b[1..] else b
  }

  lemma RestOfConcat(a: Bytes, b: Bytes, i: nat)
    requires EndsLine(a) && i < |a| && IsEol(a[i])
    ensures (a + b)[..i] == a[..i]
    ensures (a + b)[PastEol(a + b, i)..] ==
            if PastEol(a, i) < |a| then a[PastEol(a, i)..] + b else After(a, b)
  {
  }

  /** Lines cut at a terminator: the halves have the lines of the whole, except
      that a cut inside a CRLF leaves the second half one extra blank line. */
  lemma {:induction false} LinesConcat(a: Bytes, b: Bytes)
    requires EndsLine(a)
    ensures Lines(a + b) == Lines(a) + Lines(After(a, b))
    decreases |a|
  {
    if a == [] {
      assert a + b == b == After(a, b);
      NoLines();
      hide Lines;
      Glue([], [], Lines(b), Lines(a), Lines(b));
    } else {
      hide Lines;
      NoLines();
      var i := LineEnd(a);
      var p := PastEol(a, i);
      FirstLine(a, i);
      FirstLine(a + b, i);
      RestOfConcat(a, b, i);
      if p < |a| {
        LinesConcat(a[p..], b);
        assert After(a[p..], b) == After(a, b);
      }
      Glue([a[..i]], Lines(a[p..]), Lines(After(a, b)), Lines(a), Lines(a + b));
    }
  }

  lemma Glue(head: seq<Bytes>, tail: seq<Bytes>, rest: seq<Bytes>, left: seq<Bytes>, whole: seq<Bytes>)
    requires left == head + tail
    requires whole == head + (tail + rest) || (tail == [] && whole == head + rest)
    ensures whole == left + rest
  {
  }

  // ------------------------------------------------------------- the cap

  /** The bytes the scanner must hold to know the first line of b: the line and its
      terminator, and for a CR also what follows it; for an unterminated line, room to
      find that nothing does. */
  function Room(b: Bytes): nat {
    var i := LineEnd(b);
    if i < |b| && b[i] == CR then i + 2 else i + 1
  }

  /** The lines before the first that needs more room than the cap, if one does. */
  datatype Scanned = Scanned(lines: seq<Bytes>, cut: bool)

  function Fitting(b: Bytes, cap: int): Scanned
    decreases |b|
  {
    if b == [] then Scanned([], false)
    else if Room(b) > cap then Scanned([], true)
    else
      var i := LineEnd(b);
      if i == |b| then Scanned([b], false)
      else
        var r := Fitting(b[PastEol(b, i)..], cap);
        Scanned([b[..i]] + r.lines, r.cut)
  }

  lemma {:induction false} FittingIsLines(b: Bytes, cap: int)
    ensures Fitting(b, cap).lines <= Lines(b)
    ensures !Fitting(b, cap).cut ==> Fitting(b, cap).lines == Lines(b)
    decreases |b|
  {
    if b != [] {
      var i := LineEnd(b);
      if i < |b| { FittingIsLines(b[PastEol(b, i)..], cap); }
    }
  }

  lemma {:induction false} EndingCrFits(a: Bytes, cap: int)
    requires a != [] && a[|a| - 1] == CR && !Fitting(a, cap).cut
    ensures cap >= 2
    decreases |a|
  {
    var i := LineEnd(a);
    if PastEol(a, i) < |a| { EndingCrFits(a[PastEol(a, i)..], cap); }
  }

  /** One line at a time. */
  lemma FittingStep(b: Bytes, cap: int)
    requires b != []
    ensures var f := Fitting(RestOf(b), cap);
            Fitting(b, cap) == if Room(b) > cap then Scanned([], true)
                               else Scanned([b[..LineEnd(b)]] + f.lines, f.cut)
  {
    var i := LineEnd(b);
    if i == |b| { assert b[..i] == b && [b] + [] == [b]; }
  }

  /** The first line of a + b is a's, and needs the same room. */
  lemma SameFirstLine(a: Bytes, b: Bytes)
    requires a != [] && EndsLine(a)
    ensures LineEnd(a) < |a| && LineEnd(a + b) == LineEnd(a)
    ensures Room(a + b) == Room(a) && (a + b)[..LineEnd(a + b)] == a[..LineEnd(a)]
  {
    var i := LineEnd(a);
    assert i < |a|;
    LineEndIs(a + b, i);
    assert (a + b)[i] == a[i] && (a + b)[..i] == a[..i];
  }

  lemma FirstOfConcat(a: Bytes, b: Bytes)
    requires a != [] && EndsLine(a)
    ensures Room(a + b) == Room(a) && (a + b)[..LineEnd(a + b)] == a[..LineEnd(a)]
    ensures RestOf(a + b) == if RestOf(a) == [] then After(a, b) else RestOf(a) + b
    ensures EndsLine(RestOf(a)) && |RestOf(a)| < |a|
    ensures RestOf(a) != [] ==> After(RestOf(a), b) == After(a, b)
  {
    SameFirstLine(a, b);
    hide LineEnd, Room;
    var i := LineEnd(a);
    RestOfConcat(a, b, i);
    var p := PastEol(a, i);
    assert RestOf(a) == a[p..];
    hide PastEol, RestOf;
    if p < |a| { assert a[p..][|a| - p - 1] == a[|a| - 1]; }
  }

  lemma NothingFits(cap: int)
    ensures Fitting([], cap) == Scanned([], false)
  {
  }

  /** What fits of two pieces cut at a terminator: a CR needs the same room whether or
      not its LF comes along. */
  lemma {:induction false} FittingConcat(a: Bytes, b: Bytes, cap: int)
    requires EndsLine(a)
    ensures var s, t := Fitting(a, cap), Fitting(After(a, b), cap);
            Fitting(a + b, cap) == if s.cut then s else Scanned(s.lines + t.lines, t.cut)
    decreases |a|
  {
    hide Fitting, Room, RestOf, After, EndsLine, LineEnd;
    var t := Fitting(After(a, b), cap);
    NothingFits(cap);
    if a == [] {
      assert a + b == b == After(a, b) by { AfterNothing(b); }
      assert [] + t.lines == t.lines;
    } else {
      FirstOfConcat(a, b);
      FittingStep(a, cap);
      FittingStep(a + b, cap);
      var first, r := a[..LineEnd(a)], Fitting(RestOf(a), cap);
      if RestOf(a) != [] { FittingConcat(RestOf(a), b, cap); }
      assert [first] + (r.lines + t.lines) == [first] + r.lines + t.lines;
      assert [first] + [] + t.lines == [first] + t.lines;
    }
  }

  lemma AfterNothing(b: Bytes)
    ensures [] + b == b == After([], b)
  {
  }

  // --------------------------------------------------------------- events

  /** The event under construction in Next: `seen` says a field line arrived. */
  datatype Partial = Partial(kind: Bytes, id: Bytes, retry: Bytes, data: seq<Bytes>, seen: bool)

  const EMPTY: Partial := Partial([], [], [], [], false)

  function Join(lines: seq<Bytes>): Bytes {
    if lines == [] then []
    else if |lines| == 1 then lines[0]
    else lines[0] + [LF] + Join(lines[1..])
  }

  lemma {:induction false} JoinSnoc(lines: seq<Bytes>, x: Bytes)
    ensures Join(lines + [x]) == if lines == [] then x else Join(lines) + [LF] + x
  {
    if |lines| <= 1 {
    } else {
      assert (lines + [x])[1..] == lines[1..] + [x];
      JoinSnoc(lines[1..], x);
    }
  }

  function Dispatch(p: Partial): Event {
    Event(p.kind, Join(p.data), p.id, p.retry)
  }

  /** Position of the first colon, or the length of the line. */
  function ColonAt(line: Bytes): (i: nat)
    ensures i <= |line|
    ensures forall j | 0 <= j < i :: line[j] != COLON
    ensures i < |line| ==> line[i] == COLON
  {
    if line == [] || line[0] == COLON then 0 else 1 + ColonAt(line[1..])
  }

  /** The value after the colon, less exactly one optional space. */
  function ValueOf(line: Bytes, colon: nat): Bytes
    requires colon < |line|
  {
    var v := line[colon + 1..];
    if v != [] && v[0] == SPACE then v[1..] else v
  }

  /** One non-blank line folded into the event; None when its data passes cap. */
  function Field(p: Partial, line: Bytes, cap: int): Option<Partial>
    requires line != []
  {
    var c := ColonAt(line);
    if c == 0 then Some(p)
    else
      var q := p.(seen := true);
      if c == |line| then Some(q)
      else
        var name, value := line[..c], ValueOf(line, c);
        if name == DATA then
          if |Join(p.data + [value])| > cap then None else Some(q.(data := p.data + [value]))
        else if name == EVENT then Some(q.(kind := value))
        else if name == ID then Some(q.(id := value))
        else if name == RETRY then Some(q.(retry := value))
        else Some(q)
  }

  /** What a stream reads as: the dispatched events, and whether the reader
      stopped on a line or on an event's joined data that exceeds the cap. */
  datatype Reading = Reading(events: seq<Event>, tooLong: bool)

  /** `cut` says that a line over the cap follows the lines. */
  function ReadLines(p: Partial, lines: seq<Bytes>, cut: bool, cap: int): Reading
    decreases |lines|
  {
    if lines == [] then
      if cut then Reading([], true) else Reading(if p.seen then [Dispatch(p)] else [], false)
    else if lines[0] == [] then
      if p.seen then
        var r := ReadLines(EMPTY, lines[1..], cut, cap);
        Reading([Dispatch(p)] + r.events, r.tooLong)
      else
        ReadLines(p, lines[1..], cut, cap)
    else
      match Field(p, lines[0], cap)
      case None => Reading([], true)
      case Some(q) => ReadLines(q, lines[1..], cut, cap)
  }

  function Read(b: Bytes, cap: int): Reading {
    var s := Fitting(b, cap);
    ReadLines(EMPTY, s.lines, s.cut, cap)
  }

  lemma ReadLine(p: Partial, line: Bytes, rest: seq<Bytes>, cut: bool, cap: int)
    ensures ReadLines(p, [line] + rest, cut, cap) ==
            if line == [] then
              var r := ReadLines(EMPTY, rest, cut, cap);
              if p.seen then Reading([Dispatch(p)] + r.events, r.tooLong) else ReadLines(p, rest, cut, cap)
            else if Field(p, line, cap).None? then Reading([], true)
            else ReadLines(Field(p, line, cap).value, rest, cut, cap)
  {
    assert ([line] + rest)[1..] == rest;
  }

  lemma ReadEnd(p: Partial, cut: bool, cap: int)
    ensures ReadLines(p, [], cut, cap) == Reading(if p.seen && !cut then [Dispatch(p)] else [], cut)
  {
  }

  lemma {:induction false} CutIsTooLong(p: Partial, lines: seq<Bytes>, cap: int)
    ensures ReadLines(p, lines, true, cap).tooLong
    decreases |lines|
  {
    if lines != [] {
      if lines[0] == [] {
        CutIsTooLong(if p.seen then EMPTY else p, lines[1..], cap);
      } else {
        match Field(p, lines[0], cap)
        case None =>
        case Some(q) => CutIsTooLong(q, lines[1..], cap);
      }
    }
  }

  /** Reading one stream and then another: an over-long event ends the reading. */
  function Then(r: Reading, s: Reading): Reading {
    if r.tooLong then r else Reading(r.events + s.events, s.tooLong)
  }

  predicate EndsBlank(lines: seq<Bytes>) {
    lines != [] && lines[|lines| - 1] == []
  }

  /** Nothing but a field line marks an event as started. */
  predicate Sound(p: Partial) {
    !p.seen ==> p == EMPTY
  }

  lemma FieldSound(p: Partial, line: Bytes, cap: int)
    requires line != [] && Sound(p)
    ensures Field(p, line, cap).Some? ==> Sound(Field(p, line, cap).value)
  {
  }

  /** A blank line leaves nothing carried over to the lines after it. */
  lemma {:induction false} ReadAcrossBlank(p: Partial, before: seq<Bytes>, after: seq<Bytes>, cut: bool, cap: int)
    requires Sound(p) && EndsBlank(before)
    ensures ReadLines(p, before + after, cut, cap) ==
            Then(ReadLines(p, before, false, cap), ReadLines(EMPTY, after, cut, cap))
    decreases |before|
  {
    var rest := before[1..];
    assert (before + after)[1..] == rest + after;
    if before[0] == [] {
      if rest == [] {
        assert rest + after == after;
      } else {
        ReadAcrossBlank(if p.seen then EMPTY else p, rest, after, cut, cap);
      }
      if p.seen {
        var r := ReadLines(EMPTY, rest, false, cap);
        var s := ReadLines(EMPTY, after, cut, cap);
        assert [Dispatch(p)] + (r.events + s.events) == [Dispatch(p)] + r.events + s.events;
      }
    } else {
      FieldSound(p, before[0], cap);
      match Field(p, before[0], cap)
      case None =>
      case Some(q) => ReadAcrossBlank(q, rest, after, cut, cap);
    }
  }

  /** A stream whose last line is blank can be read separately from whatever
      follows it, even when the cut falls between a CR and its LF. */
  lemma ReadConcat(a: Bytes, b: Bytes, cap: int)
    requires EndsBlank(Lines(a))
    ensures Read(a + b, cap) == Then(Read(a, cap), Read(b, cap))
  {
    hide Lines, Fitting, ReadLines;
    EndsBlankEndsLine(a);
    FittingConcat(a, b, cap);
    FittingIsLines(a, cap);
    var s, t := Fitting(a, cap), Fitting(After(a, b), cap);
    if s.cut {
      CutIsTooLong(EMPTY, s.lines, cap);
    } else {
      ReadAcrossBlank(EMPTY, s.lines, t.lines, t.cut, cap);
      if SplitsCrLf(a, b) { HalfOfCrLf(a, b, cap); }
    }
  }

  /** The LF of a CRLF cut in two reads as a blank line, which dispatches nothing. */
  lemma HalfOfCrLf(a: Bytes, b: Bytes, cap: int)
    requires SplitsCrLf(a, b) && !Fitting(a, cap).cut
    ensures Read(b, cap) == Read(b[1..], cap)
  {
    EndingCrFits(a, cap);
    assert LineEnd(b) == 0 && b[..0] == [];
    var t := Fitting(b[1..], cap);
    assert Fitting(b, cap) == Scanned([[]] + t.lines, t.cut);
    assert ([[]] + t.lines)[1..] == t.lines;
  }

  lemma {:induction false} EndsBlankEndsLine(a: Bytes)
    requires EndsBlank(Lines(a))
    ensures EndsLine(a)
    decreases |a|
  {
    var i := LineEnd(a);
    if i < |a| {
      var p := PastEol(a, i);
      if p == |a| {
        assert IsEol(a[p - 1]);
      } else {
        assert Lines(a)[1..] == Lines(a[p..]);
        EndsBlankEndsLine(a[p..]);
      }
    }
  }

  // --------------------------------------------------------- the scanner

  lemma LongText(data: Bytes, rest: Bytes)
    requires forall j | 0 <= j < |data| :: !IsEol(data[j])
    ensures Room(data + rest) > |data|
  {
    var b := data + rest;
    assert forall j | 0 <= j < |data| :: b[j] == data[j];
  }

  /** splitLines: at most one line off the front of data. A CR that is the last
      byte so far may be half of a CRLF, so it waits unless the stream ended. */
  method SplitLines(data: Bytes, atEof: bool) returns (advance: nat, token: Option<Bytes>)
    ensures advance <= |data|
    ensures token.None? ==> advance == 0
    ensures token.None? ==> atEof ==> data == []
    ensures token.Some? ==> forall rest: Bytes | atEof ==> rest == [] ::
              && Lines(data + rest) == [token.value] + Lines(data[advance..] + rest)
              && data[advance..] + rest == RestOf(data + rest)
    ensures token.Some? ==> advance > 0
    // How much of the stream it takes to know the line.
    ensures token.Some? ==> forall rest: Bytes | atEof ==> rest == [] ::
              Room(data + rest) <= if atEof then |data| + 1 else |data|
    ensures token.None? && !atEof ==> forall rest: Bytes :: Room(data + rest) > |data|
  {
    if atEof && |data| == 0 { return 0, None; }
    var i := 0;
    while i < |data|
      invariant 0 <= i <= |data|
      invariant forall j | 0 <= j < i :: !IsEol(data[j])
    {
      if data[i] == LF || (data[i] == CR && (i + 1 < |data| || atEof)) {
        advance := if data[i] == CR && i + 1 < |data| && data[i + 1] == LF then i + 2 else i + 1;
        token := Some(data[..i]);
        forall rest: Bytes | atEof ==> rest == []
          ensures Lines(data + rest) == [data[..i]] + Lines(data[advance..] + rest)
          ensures data[advance..] + rest == RestOf(data + rest)
          ensures Room(data + rest) <= if atEof then |data| + 1 else |data|
        {
          LineEndIs(data + rest, i);
          assert (data + rest)[..i] == data[..i];
          assert (data + rest)[advance..] == data[advance..] + rest;
        }
        return;
      } else if data[i] == CR {
        forall rest: Bytes
          ensures Room(data + rest) > |data|
        {
          LineEndIs(data + rest, i);
        }
        return 0, None;
      }
      i := i + 1;
    }
    if atEof {
      LineEndIs(data, |data|);
      assert data + [] == data && data[|data|..] + [] == [];
      return |data|, Some(data);
    }
    forall rest: Bytes
      ensures Room(data + rest) > |data|
    {
      LongText(data, rest);
    }
    return 0, None;
  }

  type Cap = x: int | x > 0 witness 1

  datatype ScanResult = Line(text: Bytes) | End | LineTooLong

  /** bufio.Scanner over a connection: `unread` is what the connection will still
      deliver, in whatever chunks, and `buf`, never over the cap, what was read and not
      yet consumed. The end is a read of its own, which needs room like any other. */
  class LineScanner {
    const max: Cap
    var buf: Bytes
    var unread: seq<Bytes>
    var eof: bool

    constructor (chunks: seq<Bytes>, max: Cap)
      ensures Valid() && Remaining() == Concat(chunks) && this.max == max
    {
      this.max := max;
      buf, unread, eof := [], chunks, false;
    }

    ghost predicate Valid()
      reads this
    {
      |buf| <= max && (eof ==> unread == [] && |buf| < max)
    }

    ghost function Remaining(): Bytes
      reads this
    {
      buf + Concat(unread)
    }

    /** One read, of as much as the buffer has room for. */
    method Fill()
      requires Valid() && |buf| < max && !eof
      modifies this
      ensures Valid() && Remaining() == old(Remaining())
      ensures eof || |unread| + |Concat(unread)| < old(|unread| + |Concat(unread)|)
    {
      if unread == [] {
        eof := true;
        return;
      }
      var chunk, n := unread[0], max - |buf|;
      if |chunk| <= n {
        assert buf + Concat(unread) == buf + chunk + Concat(unread[1..]);
        buf, unread := buf + chunk, unread[1..];
      } else {
        ghost var rest := Concat(unread[1..]);
        assert Concat(unread) == chunk + rest;
        assert buf + (chunk + rest) == buf + chunk[..n] + (chunk[n..] + rest);
        assert ([chunk[n..]] + unread[1..])[1..] == unread[1..];
        buf, unread := buf + chunk[..n], [chunk[n..]] + unread[1..];
      }
    }

    method Scan() returns (line: ScanResult)
      requires Valid()
      modifies this
      ensures Valid()
      ensures var before, now := old(Fitting(Remaining(), max)), Fitting(Remaining(), max);
              match line
              case Line(text) => before == Scanned([text] + now.lines, now.cut)
              case End => before == Scanned([], false)
              case LineTooLong => before == Scanned([], true)
      ensures line.Line? ==> |Remaining()| < |old(Remaining())|
      ensures line.End? ==> Remaining() == []
    {
      while true
        invariant Valid() && Remaining() == old(Remaining())
        decreases |unread| + |Concat(unread)|, !eof
      {
        assert eof ==> Concat(unread) == [];
        ghost var rest := Concat(unread);
        var advance, token := SplitLines(buf, eof);
        if token.Some? {
          FirstFits(buf + rest, token.value, buf[advance..] + rest, max);
          buf := buf[advance..];
          return Line(token.value);
        }
        if eof { return End; }
        if |buf| >= max {
          assert Room(buf + rest) > max;
          return LineTooLong;
        }
        Fill();
      }
    }
  }

  lemma FirstFits(b: Bytes, line: Bytes, rest: Bytes, cap: int)
    requires b != [] && Room(b) <= cap && Lines(b) == [line] + Lines(rest) && rest == RestOf(b)
    ensures Fitting(b, cap) == Scanned([line] + Fitting(rest, cap).lines, Fitting(rest, cap).cut)
  {
    var i := LineEnd(b);
    assert Lines(b)[0] == line == b[..i];
    hide Lines, Room;
    if i == |b| { assert b[..i] == b && [line] + [] == [line]; }
  }

  // ---------------------------------------------------------- the reader

  datatype NextResult = Got(event: Event) | Eof | TooLong

  class Reader {
    const sc: LineScanner
    const maxEvent: int

    constructor (chunks: seq<Bytes>, maxLine: Cap)
      ensures fresh(sc) && sc.Valid() && maxEvent == maxLine == sc.max
      ensures sc.Remaining() == Concat(chunks)
    {
      sc := new LineScanner(chunks, maxLine);
      maxEvent := maxLine;
    }

    /** One field line folded into the event under construction, whose data is
        dataBytes long when joined; not ok when that passes the cap. */
    method Fold(p: Partial, dataBytes: nat, text: Bytes) returns (q: Partial, size: nat, ok: bool)
      requires text != [] && text[0] != COLON && dataBytes == |Join(p.data)|
      ensures ok <==> Field(p, text, maxEvent).Some?
      ensures ok ==> Field(p, text, maxEvent) == Some(q) && size == |Join(q.data)|
    {
      q, size, ok := p.(seen := true), dataBytes, true;
      var c := ColonAt(text);
      if c == |text| { return; }
      var name, value := text[..c], ValueOf(text, c);
      if name == DATA {
        JoinSnoc(p.data, value);
        if |p.data| > 0 { size := size + 1; }
        size := size + |value|;
        if size > maxEvent { return q, size, false; }
        q := q.(data := p.data + [value]);
      } else if name == EVENT {
        q := q.(kind := value);
      } else if name == ID {
        q := q.(id := value);
      } else if name == RETRY {
        q := q.(retry := value);
      }
    }

    /** Next peels the events of `Read` off one at a time, and reports the cap
        exactly where `Read` stops on it. */
    method Next() returns (r: NextResult)
      requires sc.Valid() && maxEvent == sc.max
      modifies sc
      ensures sc.Valid()
      ensures var before, now := old(Read(sc.Remaining(), maxEvent)), Read(sc.Remaining(), maxEvent);
              match r
              case Got(ev) => before == Reading([ev] + now.events, now.tooLong)
              case Eof => before == Reading([], false)
              case TooLong => before == Reading([], true)
    {
      var p, dataBytes := EMPTY, 0;
      hide Fitting, ReadLines, Lines, Join, Field;
      NothingFits(maxEvent);
      ReadEnd(EMPTY, false, maxEvent);
      NoData();
      while true
        invariant Sound(p) && dataBytes == |Join(p.data)| && sc.Valid()
        invariant var s := Fitting(sc.Remaining(), maxEvent);
                  ReadLines(p, s.lines, s.cut, maxEvent) == old(Read(sc.Remaining(), maxEvent))
        decreases |sc.Remaining()|
      {
        ReadEnd(p, true, maxEvent);
        ReadEnd(p, false, maxEvent);
        var line := sc.Scan();
        if line.LineTooLong? { return TooLong; }
        if line.End? { break; }
        var text := line.text;
        ghost var s := Fitting(sc.Remaining(), maxEvent);
        ReadLine(p, text, s.lines, s.cut, maxEvent);
        if text == [] {
          if !p.seen { continue; }
          return Got(Dispatch(p));
        }
        if text[0] == COLON {
          CommentKeeps(p, text, maxEvent);
          continue;
        }
        FieldSound(p, text, maxEvent);
        var ok;
        p, dataBytes, ok := Fold(p, dataBytes, text);
        if !ok { return TooLong; }
      }
      if p.seen { return Got(Dispatch(p)); }
      return Eof;
    }
  }

  lemma NoData()
    ensures Join([]) == []
  {
  }

  /** A field line sets what its name says to what follows the colon, less one space if
      there is one; data adds a line, unless the joined data would pass the cap; any
      other name only marks the event as begun. */
  lemma FieldMeans(p: Partial, name: Bytes, rest: Bytes, cap: int)
    requires name != [] && COLON !in name
    ensures var value := if rest != [] && rest[0] == 32 then rest[1..] else rest;
            Field(p, name + [COLON] + rest, cap) ==
            if name == [100, 97, 116, 97] then
              if |Join(p.data + [value])| > cap then None
              else Some(Partial(p.kind, p.id, p.retry, p.data + [value], true))
            else if name == [101, 118, 101, 110, 116] then Some(Partial(value, p.id, p.retry, p.data, true))
            else if name == [105, 100] then Some(Partial(p.kind, value, p.retry, p.data, true))
            else if name == [114, 101, 116, 114, 121] then Some(Partial(p.kind, p.id, value, p.data, true))
            else Some(Partial(p.kind, p.id, p.retry, p.data, true))
  {
    var line := name + [COLON] + rest;
    ColonIs(line, |name|);
    assert line[..|name|] == name && line[|name| + 1..] == rest;
  }

  lemma {:induction false} ColonIs(line: Bytes, i: nat)
    requires i <= |line| && (forall j | 0 <= j < i :: line[j] != COLON) && (i < |line| ==> line[i] == COLON)
    ensures ColonAt(line) == i
  {
    var c := ColonAt(line);
  }

  /** A bare name only marks the event as begun. */
  lemma BareName(p: Partial, name: Bytes, cap: int)
    requires name != [] && COLON !in name
    ensures Field(p, name, cap) == Some(Partial(p.kind, p.id, p.retry, p.data, true))
  {
    ColonIs(name, |name|);
  }

  /** An event of an id line and a retry line carries both. */
  lemma IdAndRetry(id: Bytes, retry: Bytes, cap: int)
    requires (id == [] || id[0] != 32) && (retry == [] || retry[0] != 32)
    ensures ReadLines(EMPTY, [ID + [COLON] + id, RETRY + [COLON] + retry, []], false, cap) ==
            Reading([Event([], [], id, retry)], false)
  {
    hide ReadLines, Field;
    var a, b := ID + [COLON] + id, RETRY + [COLON] + retry;
    FieldMeans(EMPTY, ID, id, cap);
    var p := Partial([], id, [], [], true);
    FieldMeans(p, RETRY, retry, cap);
    var q := Partial([], id, retry, [], true);
    NoData();
    assert [a, b, []] == [a] + ([b] + ([[]] + []));
    ReadLine(EMPTY, a, [b] + ([[]] + []), false, cap);
    ReadLine(p, b, [[]] + [], false, cap);
    ReadLine(q, [], [], false, cap);
    ReadEnd(EMPTY, false, cap);
  }

  lemma CommentKeeps(p: Partial, line: Bytes, cap: int)
    requires line != [] && line[0] == COLON
    ensures Field(p, line, cap) == Some(p)
  {
  }

  /** parseEvent: the first event of one raw block, or none. A block over either
      cap is reported like a comment: nothing recognised. */
  function Parse(raw: Bytes, cap: int): Option<Event> {
    var r := Read(raw, cap);
    if r.events == [] then None else Some(r.events[0])
  }

  method ParseEvent(raw: Bytes, maxLine: Cap) returns (r: Option<Event>)
    ensures r == Parse(raw, maxLine)
  {
    var reader := new Reader([raw], maxLine);
    assert Concat([raw]) == raw + Concat([]);
    assert raw + [] == raw;
    var next := reader.Next();
    r := if next.Got? then Some(next.event) else None;
  }
}
