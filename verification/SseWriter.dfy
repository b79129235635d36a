/** The event writer of internal/sse/writer.go, and its round trip through the
    reader: whatever sequence of events is sent is the sequence read back. */
module SseWriter {
  import opened Options
  import opened Sse

  datatype Message = Message(name: Bytes, data: Bytes)

  /** strings.Split on a newline. */
  function SplitNl(data: Bytes): (r: seq<Bytes>)
    ensures r != []
  {
    if data == [] then [[]]
    else
      var rest := SplitNl(data[1..]);
      if data[0] == LF then [[]] + rest else [[data[0]] + rest[0]] + rest[1..]
  }

  lemma {:induction false} SplitNlJoins(data: Bytes)
    ensures Join(SplitNl(data)) == data
    ensures forall l | l in SplitNl(data) :: LF !in l
    ensures CR !in data ==> forall l | l in SplitNl(data) :: CR !in l
  {
    if data != [] {
      SplitNlJoins(data[1..]);
      var all, rest := SplitNl(data), SplitNl(data[1..]);
      if data[0] == LF {
        assert all[1..] == rest;
        assert Join(all) == [] + [LF] + Join(rest);
      } else {
        var first := [data[0]] + rest[0];
        assert all == [first] + rest[1..] && all[1..] == rest[1..];
        if |rest| > 1 {
          assert first + [LF] + Join(rest[1..]) == [data[0]] + (rest[0] + [LF] + Join(rest[1..]));
        }
        assert Join(all) == [data[0]] + Join(rest);
        assert rest[0] in rest && forall l | l in rest[1..] :: l in rest;
      }
    }
  }

  function FieldLine(name: Bytes, value: Bytes): Bytes {
    name + [COLON, SPACE] + value
  }

  /** The lines of one event on the wire, the closing blank included. */
  function WireLines(m: Message): seq<Bytes> {
    (if m.name != [] then [FieldLine(EVENT, m.name)] else [])
    + DataLines(SplitNl(m.data)) + [[]]
  }

  function DataLines(ls: seq<Bytes>): (r: seq<Bytes>)
    ensures |r| == |ls|
    ensures forall i | 0 <= i < |ls| :: r[i] == FieldLine(DATA, ls[i])
  {
    if ls == [] then [] else [FieldLine(DATA, ls[0])] + DataLines(ls[1..])
  }

  function Terminate(ls: seq<Bytes>): Bytes {
    if ls == [] then [] else ls[0] + [LF] + Terminate(ls[1..])
  }

  lemma {:induction false} TerminateSnoc(ls: seq<Bytes>, l: Bytes)
    ensures Terminate(ls + [l]) == Terminate(ls) + l + [LF]
  {
    if ls == [] {
      assert ls + [l] == [l] && Terminate([l][1..]) == [];
      assert l + [LF] + [] == [] + l + [LF];
    } else {
      assert (ls + [l])[1..] == ls[1..] + [l];
      TerminateSnoc(ls[1..], l);
    }
  }

  lemma {:induction false} TerminateConcat(a: seq<Bytes>, b: seq<Bytes>)
    ensures Terminate(a + b) == Terminate(a) + Terminate(b)
  {
    if a == [] {
      assert a + b == b;
    } else {
      assert (a + b)[1..] == a[1..] + b;
      TerminateConcat(a[1..], b);
    }
  }

  lemma TerminateOne(l: Bytes)
    ensures Terminate([l]) == l + [LF]
  {
    assert [l][1..] == [];
  }

  lemma TerminateNone()
    ensures Terminate([]) == []
  {
  }

  /** Send's loop: one data line for each line of the data, appended to what is there. */
  method AppendData(start: Bytes, lines: seq<Bytes>) returns (b: Bytes)
    ensures b == start + Terminate(DataLines(lines))
  {
    var i := 0;
    ghost var wire := DataLines(lines);
    assert wire[..0] == [] && Terminate([]) == [];
    hide Terminate, FieldLine;
    b := start;
    while i < |lines|
      invariant 0 <= i <= |lines|
      invariant b == start + Terminate(wire[..i])
    {
      TerminateSnoc(wire[..i], wire[i]);
      assert wire[..i + 1] == wire[..i] + [wire[i]];
      b := b + FieldLine(DATA, lines[i]) + [LF];
      i := i + 1;
    }
    assert wire[..i] == wire;
  }

  /** Writer.Send: the bytes one event puts on the wire. */
  method Send(m: Message) returns (b: Bytes)
    ensures b == Terminate(WireLines(m))
  {
    hide Terminate, FieldLine, DataLines, SplitNl;
    var lines := SplitNl(m.data);
    ghost var head := if m.name != [] then [FieldLine(EVENT, m.name)] else [];
    TerminateOne(FieldLine(EVENT, m.name));
    TerminateOne([]);
    TerminateConcat(head + DataLines(lines), [[]]);
    TerminateConcat(head, DataLines(lines));
    TerminateNone();
    b := [];
    if m.name != [] {
      b := b + FieldLine(EVENT, m.name) + [LF];
    }
    b := AppendData(b, lines);
    b := b + [LF];
  }

  // -------------------------------------------------------------- reading

  predicate NoEol(l: Bytes) {
    LF !in l && CR !in l
  }

  lemma {:induction false} LinesOfTerminated(ls: seq<Bytes>)
    requires forall l | l in ls :: NoEol(l)
    ensures Lines(Terminate(ls)) == ls
  {
    if ls == [] {
      NoLines();
    } else {
      var b, rest := Terminate(ls), Terminate(ls[1..]);
      assert NoEol(ls[0]);
      assert forall j | 0 <= j < |ls[0]| :: b[j] == ls[0][j] && b[j] in ls[0];
      FirstLine(b, |ls[0]|);
      assert b[..|ls[0]|] == ls[0] && b[|ls[0]| + 1..] == rest;
      LinesOfTerminated(ls[1..]);
    }
  }

  lemma {:induction false} TerminatedFits(ls: seq<Bytes>, cap: int)
    requires forall l | l in ls :: NoEol(l) && |l| + 1 <= cap
    ensures Fitting(Terminate(ls), cap) == Scanned(ls, false)
  {
    if ls != [] {
      var b, rest := Terminate(ls), Terminate(ls[1..]);
      assert NoEol(ls[0]) && |ls[0]| + 1 <= cap;
      assert forall j | 0 <= j < |ls[0]| :: b[j] == ls[0][j] && b[j] in ls[0];
      LineEndIs(b, |ls[0]|);
      assert b[..|ls[0]|] == ls[0] && b[|ls[0]| + 1..] == rest;
      TerminatedFits(ls[1..], cap);
    }
  }

  lemma FieldOf(p: Partial, name: Bytes, value: Bytes, cap: int)
    requires name in {DATA, EVENT}
    ensures FieldLine(name, value) != []
    ensures Field(p, FieldLine(name, value), cap) ==
            if name == EVENT then Some(p.(kind := value, seen := true))
            else if |Join(p.data + [value])| > cap then None
            else Some(p.(data := p.data + [value], seen := true))
  {
    var line := FieldLine(name, value);
    var c := ColonAt(line);
    assert forall j | 0 <= j < |name| :: line[j] == name[j] && name[j] != COLON;
    assert line[|name|] == COLON;
    assert c == |name|;
    assert line[..c] == name && line[c + 1..] == [SPACE] + value;
    assert ([SPACE] + value)[1..] == value;
  }

  lemma {:induction false} JoinGrows(a: seq<Bytes>, b: seq<Bytes>)
    ensures |Join(a)| <= |Join(a + b)|
    decreases |b|
  {
    if b == [] {
      assert a + b == a;
    } else {
      JoinSnoc(a, b[0]);
      JoinGrows(a + [b[0]], b[1..]);
      assert a + [b[0]] + b[1..] == a + b;
    }
  }

  /** Data lines and the closing blank dispatch the joined data. */
  lemma {:induction false} DataDispatches(p: Partial, ls: seq<Bytes>, cap: int)
    requires |Join(p.data + ls)| <= cap
    requires p.seen || ls != []
    ensures ReadLines(p, DataLines(ls) + [[]], false, cap) ==
            Reading([Dispatch(p.(data := p.data + ls, seen := true))], false)
    decreases |ls|
  {
    var lines := DataLines(ls) + [[]];
    if ls == [] {
      assert p.data + ls == p.data && lines[1..] == [];
    } else {
      FieldOf(p, DATA, ls[0], cap);
      JoinGrows(p.data + [ls[0]], ls[1..]);
      assert p.data + [ls[0]] + ls[1..] == p.data + ls;
      var q := p.(data := p.data + [ls[0]], seen := true);
      assert lines[1..] == DataLines(ls[1..]) + [[]];
      DataDispatches(q, ls[1..], cap);
    }
  }

  /** The message is within the reader's caps: its data, and each line it takes on
      the wire with its LF. */
  predicate Within(m: Message, cap: int) {
    |m.data| <= cap && forall l | l in WireLines(m) :: |l| + 1 <= cap
  }

  predicate Sendable(m: Message, cap: int) {
    NoEol(m.name) && CR !in m.data && Within(m, cap)
  }

  function EventOf(m: Message): Event {
    Event(m.name, m.data, [], [])
  }

  lemma WireIsClean(m: Message)
    requires NoEol(m.name) && CR !in m.data
    ensures forall l | l in WireLines(m) :: NoEol(l)
  {
    SplitNlJoins(m.data);
    var ls := SplitNl(m.data);
    hide SplitNl, Join;
    assert forall i | 0 <= i < |ls| :: ls[i] in ls && NoEol(FieldLine(DATA, ls[i]));
    assert NoEol(FieldLine(EVENT, m.name));
  }

  lemma WireDispatches(m: Message, cap: int)
    requires |m.data| <= cap
    ensures ReadLines(EMPTY, WireLines(m), false, cap) == Reading([EventOf(m)], false)
  {
    hide Join, SplitNl;
    var ls := SplitNl(m.data);
    SplitNlJoins(m.data);
    var data := DataLines(ls) + [[]];
    var p := EMPTY;
    if m.name != [] {
      FieldOf(EMPTY, EVENT, m.name, cap);
      p := EMPTY.(kind := m.name, seen := true);
      assert WireLines(m) == [FieldLine(EVENT, m.name)] + data;
      assert WireLines(m)[1..] == data;
    } else {
      assert WireLines(m) == data;
    }
    assert p.data + ls == ls;
    DataDispatches(p, ls, cap);
  }

  lemma OneMessage(m: Message, cap: int)
    requires Sendable(m, cap)
    ensures EndsBlank(Lines(Terminate(WireLines(m))))
    ensures Read(Terminate(WireLines(m)), cap) == Reading([EventOf(m)], false)
  {
    WireIsClean(m);
    var wire := WireLines(m);
    assert wire[|wire| - 1] == [];
    hide Lines, Fitting, Terminate, ReadLines, WireLines, NoEol;
    LinesOfTerminated(wire);
    TerminatedFits(wire, cap);
    WireDispatches(m, cap);
  }

  function Wire(ms: seq<Message>): Bytes {
    if ms == [] then [] else Terminate(WireLines(ms[0])) + Wire(ms[1..])
  }

  function EventsOf(ms: seq<Message>): seq<Event> {
    if ms == [] then [] else [EventOf(ms[0])] + EventsOf(ms[1..])
  }

  /** What is sent is what is read: every name and every datum, empty data,
      embedded newlines and leading spaces included. */
  lemma {:induction false} RoundTrip(ms: seq<Message>, cap: int)
    requires forall m | m in ms :: Sendable(m, cap)
    ensures Read(Wire(ms), cap) == Reading(EventsOf(ms), false)
  {
    if ms == [] {
      NoLines();
    } else {
      assert Sendable(ms[0], cap);
      OneMessage(ms[0], cap);
      ReadConcat(Terminate(WireLines(ms[0])), Wire(ms[1..]), cap);
      RoundTrip(ms[1..], cap);
    }
  }

  // ------------------------------------------------- and only those

  lemma {:induction false} LinesAreClean(b: Bytes)
    ensures forall l | l in Lines(b) :: NoEol(l)
    decreases |b|
  {
    if b != [] {
      var i := LineEnd(b);
      if i == |b| {
        assert NoEol(b);
      } else {
        assert NoEol(b[..i]);
        LinesAreClean(b[PastEol(b, i)..]);
      }
    }
  }

  predicate Clean(p: Partial) {
    NoEol(p.kind) && forall d | d in p.data :: CR !in d
  }

  lemma {:induction false} JoinIsClean(ls: seq<Bytes>)
    requires forall d | d in ls :: CR !in d
    ensures CR !in Join(ls)
  {
    if |ls| > 1 {
      JoinIsClean(ls[1..]);
      assert CR !in ls[0];
    }
  }

  lemma FieldIsClean(p: Partial, line: Bytes, cap: int)
    requires line != [] && Clean(p) && NoEol(line)
    ensures Field(p, line, cap).Some? ==> Clean(Field(p, line, cap).value)
  {
    var c := ColonAt(line);
    if 0 < c < |line| {
      var v := ValueOf(line, c);
      assert forall x | x in v :: x in line;
    }
  }

  lemma {:induction false} ReadIsClean(p: Partial, lines: seq<Bytes>, cut: bool, cap: int)
    requires Clean(p) && forall l | l in lines :: NoEol(l)
    ensures forall ev | ev in ReadLines(p, lines, cut, cap).events :: NoEol(ev.kind) && CR !in ev.data
    decreases |lines|
  {
    JoinIsClean(p.data);
    if lines != [] {
      if lines[0] == [] {
        ReadIsClean(if p.seen then EMPTY else p, lines[1..], cut, cap);
      } else {
        FieldIsClean(p, lines[0], cap);
        match Field(p, lines[0], cap)
        case None =>
        case Some(q) => ReadIsClean(q, lines[1..], cut, cap);
      }
    }
  }

  lemma StreamIsClean(b: Bytes, cap: int)
    ensures forall ev | ev in Read(b, cap).events :: NoEol(ev.kind) && CR !in ev.data
  {
    hide NoEol, Lines, Fitting, ReadLines;
    LinesAreClean(b);
    FittingIsLines(b, cap);
    var s := Fitting(b, cap);
    assert forall k | 0 <= k < |s.lines| :: s.lines[k] == Lines(b)[k];
    CleanStart();
    ReadIsClean(EMPTY, s.lines, s.cut, cap);
  }

  lemma CleanStart()
    ensures Clean(EMPTY)
  {
  }

  lemma {:induction false} EventsOfAll(ms: seq<Message>)
    ensures forall m | m in ms :: EventOf(m) in EventsOf(ms)
  {
    if ms != [] { EventsOfAll(ms[1..]); }
  }

  /** The condition is exact: with the caps out of the way, messages come back as
      sent if and only if no name holds a CR or LF and no data a CR. */
  lemma RoundTripExactly(ms: seq<Message>, cap: int)
    requires forall m | m in ms :: Within(m, cap)
    ensures Read(Wire(ms), cap) == Reading(EventsOf(ms), false)
            <==> forall m | m in ms :: NoEol(m.name) && CR !in m.data
  {
    if forall m | m in ms :: NoEol(m.name) && CR !in m.data {
      RoundTrip(ms, cap);
    } else {
      var m :| m in ms && !(NoEol(m.name) && CR !in m.data);
      StreamIsClean(Wire(ms), cap);
      EventsOfAll(ms);
      assert EventOf(m) in EventsOf(ms);
    }
  }
}
