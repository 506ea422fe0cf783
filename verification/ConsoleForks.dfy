/** Console output along a path of branches. Every fork starts with an empty event buffer and nothing staged;
    the partial line is carried over (`branch_inner` of crates/bedrock-lab/src/checkpoint.rs, `drain_events`
    of crates/bedrock-lab/src/branch.rs). */
module ConsoleForks {
  import opened Options
  import opened Events
  import opened EventBuffers
  import opened Console
  import opened ConsolePath

  function Empty(): Log { Log(Stream([], None, 0), []) }

  /** What one branch of the path does with its buffer: emit, and be drained. */
  type Segment = seq<Act>

  function Ended(seg: Segment, size: nat): Log { DoAll(Empty(), seg, size) }

  /** What the host has drained along the path. */
  function PathRead(segs: seq<Segment>, size: nat): seq<Event> {
    if segs == [] then [] else Ended(segs[0], size).drained + PathRead(segs[1..], size)
  }

  /** What the branches emitted, cut where an event had to be staged. */
  function PathEmitted(segs: seq<Segment>, size: nat): seq<Event> {
    if segs == [] then [] else EmittedBy(Empty(), segs[0], size) + PathEmitted(segs[1..], size)
  }

  ghost predicate AllPrompt(segs: seq<Segment>, size: nat) {
    forall i :: 0 <= i < |segs| ==> Prompt(Empty(), segs[i], size)
  }

  /** Every branch was left with nothing in its buffer and nothing staged. */
  ghost predicate Settled(segs: seq<Segment>, size: nat) {
    forall i :: 0 <= i < |segs| ==> Delivery(Ended(segs[i], size).s) == []
  }

  lemma SegmentSplits(seg: Segment, size: nat)
    requires size >= HEADER_SIZE + PENDING_SIZE && Prompt(Empty(), seg, size)
    ensures Ended(seg, size).drained + Delivery(Ended(seg, size).s) == EmittedBy(Empty(), seg, size)
  {
    PromptLosesNothing(Empty(), seg, size);
    assert Read(Empty()) == [] && [] + EmittedBy(Empty(), seg, size) == EmittedBy(Empty(), seg, size);
  }

  lemma Cancel(d: seq<Event>, w: seq<Event>, r: seq<Event>, e: seq<Event>)
    requires |r| <= |e|
    ensures d + r == d + w + e <==> w == [] && r == e
    ensures |d + r| <= |d + w + e|
  {
    if d + r == d + w + e {
      assert |w| == 0;
      assert (d + r)[|d|..] == r && (d + w + e)[|d|..] == e;
    }
  }

  lemma SettledCons(segs: seq<Segment>, size: nat)
    requires segs != []
    ensures Settled(segs, size) <==> Delivery(Ended(segs[0], size).s) == [] && Settled(segs[1..], size)
  {
    var rest := segs[1..];
    assert forall i :: 0 <= i < |rest| ==> rest[i] == segs[i + 1];
    if Delivery(Ended(segs[0], size).s) == [] && Settled(rest, size) {
      forall i | 0 <= i < |segs| ensures Delivery(Ended(segs[i], size).s) == [] {
        if i > 0 { assert segs[i] == rest[i - 1]; }
      }
    }
  }

  /** Main result: with callers that drain after every failed emit, the host has drained everything the
      path emitted, in order, exactly when no branch was left with events in its buffer or staged: a fork
      takes none of them over. */
  lemma {:induction false} PathReadExactly(segs: seq<Segment>, size: nat)
    requires size >= HEADER_SIZE + PENDING_SIZE && AllPrompt(segs, size)
    ensures PathRead(segs, size) == PathEmitted(segs, size) <==> Settled(segs, size)
    ensures |PathRead(segs, size)| <= |PathEmitted(segs, size)|
    decreases |segs|
  {
    if segs != [] {
      var rest := segs[1..];
      assert forall i :: 0 <= i < |rest| ==> rest[i] == segs[i + 1];
      PathReadExactly(rest, size);
      SettledCons(segs, size);
      SegmentSplits(segs[0], size);
      var l := Ended(segs[0], size);
      Cancel(l.drained, Delivery(l.s), PathRead(rest, size), PathEmitted(rest, size));
    }
  }

  /** A branch that emits an event, forked before it was drained, and a branch that emits nothing: the path
      never delivers the event. */
  lemma ForkLosesEvents(size: nat)
    requires size >= HEADER_SIZE + PENDING_SIZE
    ensures var segs := [[Emit(Sized(1))], []];
      AllPrompt(segs, size) && PathRead(segs, size) == [] && PathEmitted(segs, size) != []
  {
    var segs: seq<Segment> := [[Emit(Sized(1))], []];
    OneEmit(Sized(1), size);
    var rest := segs[1..];
    assert rest[0] == [] && rest[1..] == [];
    assert Ended(rest[0], size) == Empty() && Prompt(Empty(), segs[1], size);
    assert PathRead(rest, size) == Ended(rest[0], size).drained + PathRead(rest[1..], size);
    assert PathRead(segs, size) == Ended(segs[0], size).drained + PathRead(rest, size);
    assert PathEmitted(segs, size) == EmittedBy(Empty(), segs[0], size) + PathEmitted(rest, size);
  }

  lemma OneEmit(e: Event, size: nat)
    ensures Prompt(Empty(), [Emit(e)], size) && Ended([Emit(e)], size).drained == []
    ensures |EmittedBy(Empty(), [Emit(e)], size)| == 1
  {
    var seg: Segment := [Emit(e)];
    var l := Do(Empty(), seg[0], size);
    assert seg[1..] == [] && Prompt(l, [], size);
    assert DoAll(Empty(), seg, size) == DoAll(l, [], size) == l;
    assert EmittedBy(Empty(), seg, size) == EmittedAs(Empty(), seg[0], size) + EmittedBy(l, [], size);
  }

  // Lines

  /** The lines the host assembles, branch after branch, each starting from the partial line it inherits. */
  function HostLines(p: PartialLine, segs: seq<Segment>, size: nat): (PartialLine, seq<Line>)
    decreases |segs|
  {
    if segs == [] then (p, [])
    else
      var (p1, l1) := FeedRecords(p, SerialRecs(Ended(segs[0], size).drained));
      var (p2, l2) := HostLines(p1, segs[1..], size);
      (p2, l1 + l2)
  }

  lemma FeedRecordsAppend(p: PartialLine, a: seq<Rec>, b: seq<Rec>)
    ensures var (p1, l1) := FeedRecords(p, a); var (p2, l2) := FeedRecords(p1, b);
      FeedRecords(p, a + b) == (p2, l1 + l2)
  {
    RecordsAreFlat(p, a);
    RecordsAreFlat(FeedRecords(p, a).0, b);
    RecordsAreFlat(p, a + b);
    FlattenAppend(a, b);
    FeedAppend(p, Flatten(a), Flatten(b));
  }

  lemma {:induction false} HostLinesOfRead(p: PartialLine, segs: seq<Segment>, size: nat)
    ensures HostLines(p, segs, size) == FeedRecords(p, SerialRecs(PathRead(segs, size)))
    decreases |segs|
  {
    if segs != [] {
      var d := Ended(segs[0], size).drained;
      HostLinesOfRead(FeedRecords(p, SerialRecs(d)).0, segs[1..], size);
      SerialAppend(d, PathRead(segs[1..], size));
      FeedRecordsAppend(p, SerialRecs(d), SerialRecs(PathRead(segs[1..], size)));
    }
  }

  /** The flushes of the whole path, as they were emitted and stamped. */
  function Flushes(segs: seq<Segment>): seq<Rec> {
    if segs == [] then [] else SerialRecs(Emissions(segs[0])) + Flushes(segs[1..])
  }

  ghost predicate FlushesFit(segs: seq<Segment>) { forall i :: 0 <= i < |segs| ==> SerialFit(segs[i]) }

  lemma {:induction false} EmittedFlushes(segs: seq<Segment>, size: nat)
    requires FlushesFit(segs)
    ensures SerialRecs(PathEmitted(segs, size)) == Flushes(segs)
    decreases |segs|
  {
    if segs != [] {
      var rest := segs[1..];
      assert forall i :: 0 <= i < |rest| ==> rest[i] == segs[i + 1];
      EmittedFlushes(rest, size);
      SerialUncut(Empty(), segs[0], size);
      SerialAppend(EmittedBy(Empty(), segs[0], size), PathEmitted(rest, size));
    }
  }

  lemma {:induction false} FlushesAreFit(segs: seq<Segment>)
    requires AllFlushesOk(Payloads(Flushes(segs)))
    ensures FlushesFit(segs)
    decreases |segs|
  {
    if segs != [] {
      OkParts(SerialRecs(Emissions(segs[0])), Flushes(segs[1..]));
      SerialFits(segs[0]);
      FlushesAreFit(segs[1..]);
      assert forall i :: 1 <= i < |segs| ==> segs[i] == segs[1..][i - 1];
    }
  }

  /** Main result: the guest writes a text while its VM is checkpointed and forked at any points; its driver
      flushes it piece by piece, each flush one event among any others, and every branch is drained before
      the next is forked. Then the host has exactly the guest's lines, wherever the forks fall, and each
      line is stamped with the flush that holds its first byte. */
  lemma GuestLinesArriveAcrossForks(written: string, segs: seq<Segment>, size: nat)
    requires AllFlushesOk(Payloads(Flushes(segs))) && Joined(Payloads(Flushes(segs))) == Expanded(written)
    requires size >= HEADER_SIZE + PENDING_SIZE && AllPrompt(segs, size) && Settled(segs, size)
    ensures var (p, lines) := HostLines(Fresh, segs, size);
      && lines == Lines(Flatten(Flushes(segs)))
      && Texts(lines) == WithReturns(PlainLines(written)) && p.bytes == PlainTail(written)
  {
    var recs := Flushes(segs);
    PathReadExactly(segs, size);
    FlushesAreFit(segs);
    EmittedFlushes(segs, size);
    HostLinesOfRead(Fresh, segs, size);
    TextOfRecords(recs);
    GuestLinesArrive(written, recs);
    CarriedOverLines([], recs);
    assert [] + recs == recs && [] + FeedRecords(Fresh, recs).1 == FeedRecords(Fresh, recs).1;
  }

  // The bytes that carry it

  ghost predicate EmitsOk(seg: Segment) { forall i :: 0 <= i < |seg| && seg[i].Emit? ==> EventOk(seg[i].e) }

  /** One record: console output goes to the line assembler, anything else elsewhere. */
  method FeedEvent(asm: LineAssembler, r: Events.Record)
    modifies asm
    ensures asm.partial == FeedRecords(old(asm.partial), SerialRec(Unstamp(r))).0
    ensures asm.lines == old(asm.lines) + FeedRecords(old(asm.partial), SerialRec(Unstamp(r))).1
  {
    FeedOneRecord(asm.partial, Rec(r.payload, r.tsc));
    if r.kind == SERIAL { asm.SerialRecord(r.payload, r.tsc); }
  }

  lemma FeedOneRecord(p: PartialLine, r: Rec)
    ensures FeedRecords(p, [r]) == Feed(p, Console.Record(r.bytes, r.tsc))
  {
    var (q, l) := Feed(p, Console.Record(r.bytes, r.tsc));
    assert [r][1..] == [] && l + [] == l;
  }

  lemma SerialSnoc(rs: seq<Events.Record>, i: nat)
    requires i < |rs|
    ensures SerialRecs(EventsOf(rs[..i + 1])) == SerialRecs(EventsOf(rs[..i])) + SerialRec(Unstamp(rs[i]))
  {
    var e := Unstamp(rs[i]);
    assert EventsOf(rs[..i + 1]) == EventsOf(rs[..i]) + [e];
    SerialAppend(EventsOf(rs[..i]), [e]);
    assert [e][1..] == [] && SerialRec(e) + [] == SerialRec(e);
  }

  /** The reader's half of a drain. */
  method FeedSerial(asm: LineAssembler, rs: seq<Events.Record>)
    modifies asm
    ensures asm.partial == FeedRecords(old(asm.partial), SerialRecs(EventsOf(rs))).0
    ensures asm.lines == old(asm.lines) + FeedRecords(old(asm.partial), SerialRecs(EventsOf(rs))).1
  {
    ghost var p, lines := asm.partial, asm.lines;
    var i := 0;
    while i < |rs|
      invariant 0 <= i <= |rs|
      invariant asm.partial == FeedRecords(p, SerialRecs(EventsOf(rs[..i]))).0
      invariant asm.lines == lines + FeedRecords(p, SerialRecs(EventsOf(rs[..i]))).1
    {
      SerialSnoc(rs, i);
      FeedRecordsAppend(p, SerialRecs(EventsOf(rs[..i])), SerialRec(Unstamp(rs[i])));
      FeedEvent(asm, rs[i]);
      i := i + 1;
    }
    assert rs[..i] == rs;
  }

  /** One act on the buffer of bytes and, for a drain, on the assembler that reads it. */
  method DriveAct(b: EventBuffer, asm: LineAssembler, a: Act, ghost l: Log)
    requires b.Valid() && b.S() == l.s && (a.Emit? ==> EventOk(a.e))
    modifies b, b.buf, asm
    ensures b.Valid() && b.S() == Do(l, a, b.buf.Length).s
    ensures var recs := if a.Drain? then SerialRecs(EventsOf(l.s.written)) else [];
      asm.partial == FeedRecords(old(asm.partial), recs).0 &&
      asm.lines == old(asm.lines) + FeedRecords(old(asm.partial), recs).1
  {
    match a
    case Emit(e) =>
      var ok := b.Write(e);
    case Drain =>
      b.ReaderSees(b.len);
      var rs := Events.Drain(b.buf[..b.len]);
      FeedSerial(asm, rs);
      b.Clear();
  }

  lemma DoDrains(l: Log, a: Act, size: nat)
    ensures SerialRecs(Do(l, a, size).drained) ==
      SerialRecs(l.drained) + if a.Drain? then SerialRecs(EventsOf(l.s.written)) else []
  {
    if a.Drain? { SerialAppend(l.drained, EventsOf(l.s.written)); }
  }

  /** A whole branch, from its fork on: a new buffer, and an assembler that starts from the partial line of
      the checkpoint. */
  method DriveSegment(p: PartialLine, seg: Segment, size: nat) returns (asm: LineAssembler)
    requires EmitsOk(seg)
    ensures fresh(asm) && (asm.partial, asm.lines) == FeedRecords(p, SerialRecs(Ended(seg, size).drained))
  {
    var b := new EventBuffer(size);
    asm := new LineAssembler(p);
    ghost var l := Empty();
    var i := 0;
    assert seg[0..] == seg;
    while i < |seg|
      invariant 0 <= i <= |seg| && fresh(b) && fresh(b.buf) && fresh(asm) && b.buf.Length == size
      invariant b.Valid() && b.S() == l.s && DoAll(l, seg[i..], size) == Ended(seg, size)
      invariant (asm.partial, asm.lines) == FeedRecords(p, SerialRecs(l.drained))
    {
      assert seg[i..][0] == seg[i] && seg[i..][1..] == seg[i + 1..];
      DriveAct(b, asm, seg[i], l);
      DoDrains(l, seg[i], size);
      FeedRecordsAppend(p, SerialRecs(l.drained), if seg[i].Drain? then SerialRecs(EventsOf(l.s.written)) else []);
      l := Do(l, seg[i], size);
      i := i + 1;
    }
    assert seg[i..] == [];
  }

  /** The whole path: the lines that come out of the bytes of every branch's buffer are `HostLines`. */
  method DrivePath(p: PartialLine, segs: seq<Segment>, size: nat) returns (p': PartialLine, lines: seq<Line>)
    requires forall i :: 0 <= i < |segs| ==> EmitsOk(segs[i])
    ensures (p', lines) == HostLines(p, segs, size)
  {
    p', lines := p, [];
    var i := 0;
    assert segs[0..] == segs && [] + HostLines(p, segs, size).1 == HostLines(p, segs, size).1;
    while i < |segs|
      invariant 0 <= i <= |segs|
      invariant HostLines(p, segs, size).0 == HostLines(p', segs[i..], size).0
      invariant HostLines(p, segs, size).1 == lines + HostLines(p', segs[i..], size).1
    {
      var rest := segs[i..];
      assert rest[0] == segs[i] && rest[1..] == segs[i + 1..];
      var asm := DriveSegment(p', segs[i], size);
      AssocLines(lines, asm.lines, HostLines(asm.partial, rest[1..], size).1);
      p', lines := asm.partial, lines + asm.lines;
      i := i + 1;
    }
    assert segs[i..] == [] && lines + [] == lines;
  }

  lemma AssocLines(a: seq<Line>, b: seq<Line>, c: seq<Line>)
    ensures a + (b + c) == a + b + c
  {}
}
