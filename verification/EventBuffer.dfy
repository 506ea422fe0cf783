/** The producer of the event stream: `event_write` and `event_clear` of crates/bedrock-vmx/src/vm_state.rs. */
module EventBuffers {
  import opened Options
  import opened WireBytes
  import opened Events

  /** A record before it has its sequence number. */
  datatype Event = Event(tsc: nat, realTsc: nat, kind: nat, flags: nat, payload: Bytes)

  predicate EventOk(e: Event) {
    e.tsc < TWO64 && e.realTsc < TWO64 && e.kind < TWO16 && e.flags < TWO16 && |e.payload| < TWO32
  }

  function Stamp(e: Event, n: nat): Record { Record(n, e.tsc, e.realTsc, e.kind, e.flags, e.payload) }

  function Unstamp(r: Record): Event { Event(r.tsc, r.realTsc, r.kind, r.flags, r.payload) }

  /** What is in the buffer, the one event staged for after the next drain, and the next number. */
  datatype Stream = Stream(written: seq<Record>, pending: Option<Event>, nextSeq: nat)

  predicate Fits(s: Stream, e: Event, size: nat) { |Frames(s.written)| + HEADER_SIZE + AlignUp(|e.payload|) <= size }

  /** The staging page holds at most this much of a payload. */
  function Cut(e: Event): Event { if |e.payload| <= PENDING_SIZE then e else e.(payload := e.payload[..PENDING_SIZE]) }

  /** Sequence numbers wrap at 64 bits. */
  function NextSeq(n: nat): nat { if n + 1 == TWO64 then 0 else n + 1 }

  function Emitted(s: Stream, e: Event, size: nat): Stream {
    if Fits(s, e, size) then Stream(s.written + [Stamp(e, s.nextSeq)], s.pending, NextSeq(s.nextSeq))
    else if s.pending.None? then s.(pending := Some(Cut(e)))
    else s
  }

  function Drained(s: Stream, size: nat): Stream {
    var empty := Stream([], None, s.nextSeq);
    if s.pending.Some? then Emitted(empty, s.pending.value, size) else empty
  }

  // The order the reader will see

  function EventsOf(rs: seq<Record>): seq<Event> { seq(|rs|, i requires 0 <= i < |rs| => Unstamp(rs[i])) }

  function Waiting(s: Stream): seq<Event> { if s.pending.Some? then [s.pending.value] else [] }

  /** Everything not yet drained, in the order it will be read. */
  function Delivery(s: Stream): seq<Event> { EventsOf(s.written) + Waiting(s) }

  lemma EmittedDelivers(s: Stream, e: Event, size: nat)
    ensures Delivery(Emitted(s, e, size)) ==
      if s.pending.None? then Delivery(s) + [if Fits(s, e, size) then e else Cut(e)]
      else if Fits(s, e, size) then EventsOf(s.written) + [e] + Waiting(s)
      else Delivery(s)
  {
    var s' := Emitted(s, e, size);
    if Fits(s, e, size) { assert EventsOf(s'.written) == EventsOf(s.written) + [e]; }
  }

  /** The event fits, or can be staged whole; while another event is staged it has to be that same one. */
  predicate Kept(s: Stream, e: Event, size: nat) {
    if s.pending.None? then Fits(s, e, size) || |e.payload| <= PENDING_SIZE
    else s.pending == Some(e) && Fits(s, e, size)
  }

  /** Emitting an event adds exactly that event, whole and last, exactly when it is kept; otherwise it is
      cut, lost, or read before the staged one. */
  lemma EmittedLastExactly(s: Stream, e: Event, size: nat)
    ensures Delivery(Emitted(s, e, size)) == Delivery(s) + [e] <==> Kept(s, e, size)
  {
    EmittedDelivers(s, e, size);
    var w := EventsOf(s.written);
    if s.pending.Some? {
      var x := s.pending.value;
      if Fits(s, e, size) {
        assert (w + [e] + [x])[|w|] == e && (w + [x] + [e])[|w|] == x;
      } else {
        assert |Delivery(s) + [e]| == |Delivery(s)| + 1;
      }
    } else {
      assert (Delivery(s) + [e])[|w|] == e && (Delivery(s) + [Cut(e)])[|w|] == Cut(e);
    }
  }

  /** A drain hands over exactly what was written and brings the staged event to the front. */
  lemma DrainedDelivers(s: Stream, size: nat)
    requires size >= HEADER_SIZE + PENDING_SIZE && (s.pending.Some? ==> |s.pending.value.payload| <= PENDING_SIZE)
    ensures EventsOf(s.written) + Delivery(Drained(s, size)) == Delivery(s) && Drained(s, size).pending.None?
  {
    if s.pending.Some? {
      var empty := Stream([], None, s.nextSeq);
      assert Fits(empty, s.pending.value, size) by { AlignedPending(|s.pending.value.payload|); }
      assert EventsOf(Drained(s, size).written) == [s.pending.value];
    }
  }

  // Whole runs of emitting and draining

  datatype Act = Emit(e: Event) | Drain

  /** The stream and all that has been drained. */
  datatype Log = Log(s: Stream, drained: seq<Event>)

  function Do(l: Log, a: Act, size: nat): Log {
    match a
    case Emit(e) => l.(s := Emitted(l.s, e, size))
    case Drain => Log(Drained(l.s, size), l.drained + EventsOf(l.s.written))
  }

  function DoAll(l: Log, acts: seq<Act>, size: nat): Log
    decreases |acts|
  {
    if acts == [] then l else DoAll(Do(l, acts[0], size), acts[1..], size)
  }

  /** Everything the reader has got and will get. */
  function Read(l: Log): seq<Event> { l.drained + Delivery(l.s) }

  ghost predicate StagedOk(s: Stream) { s.pending.Some? ==> |s.pending.value.payload| <= PENDING_SIZE }

  lemma DoReads(l: Log, a: Act, size: nat)
    requires size >= HEADER_SIZE + PENDING_SIZE && StagedOk(l.s)
    ensures StagedOk(Do(l, a, size).s)
    ensures Read(Do(l, a, size)) == if a.Drain? then Read(l) else l.drained + Delivery(Emitted(l.s, a.e, size))
  {
    if a.Drain? {
      DrainedDelivers(l.s, size);
      assert l.drained + EventsOf(l.s.written) + Delivery(Drained(l.s, size)) ==
        l.drained + (EventsOf(l.s.written) + Delivery(Drained(l.s, size)));
    }
  }

  /** The reader reads what was emitted, at every point of the run. */
  ghost predicate FaithfulThroughout(l: Log, emitted: seq<Event>, acts: seq<Act>, size: nat)
    decreases |acts|
  {
    Read(l) == emitted &&
    (acts == [] || FaithfulThroughout(Do(l, acts[0], size), if acts[0].Emit? then emitted + [acts[0].e]
      else emitted, acts[1..], size))
  }

  ghost predicate KeptThroughout(l: Log, acts: seq<Act>, size: nat)
    decreases |acts|
  {
    acts == [] ||
    ((acts[0].Emit? ==> Kept(l.s, acts[0].e, size)) && KeptThroughout(Do(l, acts[0], size), acts[1..], size))
  }

  lemma ReadOne(l: Log, e: Event, size: nat)
    ensures l.drained + Delivery(Emitted(l.s, e, size)) == Read(l) + [e] <==> Kept(l.s, e, size)
  {
    EmittedLastExactly(l.s, e, size);
    var d, x, y := l.drained, Delivery(Emitted(l.s, e, size)), Delivery(l.s) + [e];
    assert Read(l) + [e] == d + y;
    assert (d + x)[|d|..] == x && (d + y)[|d|..] == y;
  }

  /** Main result: at every point of a run the events read and still to be read are exactly those emitted, in
      order and whole, if and only if every event was kept when it was emitted. */
  lemma {:induction false} FaithfulExactly(l: Log, emitted: seq<Event>, acts: seq<Act>, size: nat)
    requires size >= HEADER_SIZE + PENDING_SIZE && StagedOk(l.s) && Read(l) == emitted
    ensures FaithfulThroughout(l, emitted, acts, size) <==> KeptThroughout(l, acts, size)
    decreases |acts|
  {
    if acts != [] {
      var a, l1 := acts[0], Do(l, acts[0], size);
      DoReads(l, a, size);
      if a.Emit? { ReadOne(l, a.e, size); }
      if a.Emit? ==> Kept(l.s, a.e, size) {
        FaithfulExactly(l1, if a.Emit? then emitted + [a.e] else emitted, acts[1..], size);
      }
    }
  }

  /** Nothing is emitted while an event is staged: the caller drains whenever an emit has failed. */
  ghost predicate Prompt(l: Log, acts: seq<Act>, size: nat)
    decreases |acts|
  {
    acts == [] || ((acts[0].Emit? ==> l.s.pending.None?) && Prompt(Do(l, acts[0], size), acts[1..], size))
  }

  /** The event an act emits, cut if it has to be staged. */
  function EmittedAs(l: Log, a: Act, size: nat): seq<Event> {
    match a
    case Emit(e) => [if Fits(l.s, e, size) then e else Cut(e)]
    case Drain => []
  }

  function EmittedBy(l: Log, acts: seq<Act>, size: nat): seq<Event>
    decreases |acts|
  {
    if acts == [] then [] else EmittedAs(l, acts[0], size) + EmittedBy(Do(l, acts[0], size), acts[1..], size)
  }

  lemma PromptStep(l: Log, a: Act, size: nat)
    requires size >= HEADER_SIZE + PENDING_SIZE && StagedOk(l.s) && (a.Emit? ==> l.s.pending.None?)
    ensures StagedOk(Do(l, a, size).s) && Read(Do(l, a, size)) == Read(l) + EmittedAs(l, a, size)
  {
    DoReads(l, a, size);
    if a.Emit? { EmittedDelivers(l.s, a.e, size); }
  }

  lemma AssocEvents(a: seq<Event>, b: seq<Event>, c: seq<Event>)
    ensures (a + b) + c == a + (b + c)
  {}

  /** With such a caller nothing is lost and nothing overtaken: events are cut at most, and only if they are
      too large for the staging page. */
  lemma {:induction false} PromptLosesNothing(l: Log, acts: seq<Act>, size: nat)
    requires size >= HEADER_SIZE + PENDING_SIZE && StagedOk(l.s) && Prompt(l, acts, size)
    ensures Read(DoAll(l, acts, size)) == Read(l) + EmittedBy(l, acts, size)
    decreases |acts|
  {
    if acts != [] {
      var l1 := Do(l, acts[0], size);
      PromptStep(l, acts[0], size);
      PromptLosesNothing(l1, acts[1..], size);
      AssocEvents(Read(l), EmittedAs(l, acts[0], size), EmittedBy(l1, acts[1..], size));
    }
  }

  // Reached from an empty buffer

  function Sized(n: nat): Event { Event(0, 0, 0, 0, seq(n, _ => 'x')) }

  lemma OneWritten(e: Event, n: nat)
    ensures |Frames([Stamp(e, n)])| == HEADER_SIZE + AlignUp(|e.payload|)
  {
    var r := Stamp(e, n);
    assert [r][1..] == [];
    FramesCons([r], Frame(r), "");
  }

  /** A buffer with room for one more header: an event with a payload is staged, one without is written in
      front of it, and another with a payload is lost. */
  lemma OvertakenAndLost(size: nat)
    requires size == 2 * HEADER_SIZE + PENDING_SIZE
    ensures var empty := Log(Stream([], None, 0), []);
      && Read(DoAll(empty, [Emit(Sized(PENDING_SIZE)), Emit(Sized(1)), Emit(Sized(0))], size)) ==
        [Sized(PENDING_SIZE), Sized(0), Sized(1)]
      && Read(DoAll(empty, [Emit(Sized(PENDING_SIZE)), Emit(Sized(1)), Emit(Sized(2))], size)) ==
        [Sized(PENDING_SIZE), Sized(1)]
  {
    var big, s0 := Sized(PENDING_SIZE), Stream([], None, 0);
    var s1 := Stream([Stamp(big, 0)], None, 1);
    OneWritten(big, 0);
    assert Emitted(s0, big, size) == s1;
    var s2 := s1.(pending := Some(Sized(1)));
    assert Emitted(s1, Sized(1), size) == s2;
    EmittedDelivers(s2, Sized(0), size);
    EmittedDelivers(s2, Sized(2), size);
    ThreeEmits(s0, big, Sized(1), Sized(0), size);
    ThreeEmits(s0, big, Sized(1), Sized(2), size);
    assert EventsOf(s1.written) == [big];
  }

  lemma ThreeEmits(s: Stream, a: Event, b: Event, c: Event, size: nat)
    ensures DoAll(Log(s, []), [Emit(a), Emit(b), Emit(c)], size) ==
      Log(Emitted(Emitted(Emitted(s, a, size), b, size), c, size), [])
  {
    assert [Emit(a), Emit(b), Emit(c)][1..] == [Emit(b), Emit(c)] && [Emit(b), Emit(c)][1..] == [Emit(c)] &&
      [Emit(c)][1..] == [];
    var l := Log(Emitted(Emitted(s, a, size), b, size), []);
    assert DoAll(l, [Emit(c)], size) == DoAll(Do(l, Emit(c), size), [], size);
  }

  lemma AlignedPending(n: nat)
    requires n <= PENDING_SIZE
    ensures AlignUp(n) <= PENDING_SIZE
  {}

  lemma Assoc(a: Bytes, b: Bytes, c: Bytes)
    ensures a + (b + c) == (a + b) + c
  {}

  lemma {:induction false} FramesAppend(rs: seq<Record>, r: Record, f: Bytes)
    requires f == Frame(r)
    ensures Frames(rs + [r]) == Frames(rs) + f
    decreases |rs|
  {
    var q := rs + [r];
    if rs == [] {
      assert q[1..] == [] && q[0] == r;
      FramesCons(q, f, "");
      assert f + "" == f && "" + f == f;
    } else {
      var g := Frame(rs[0]);
      FramesAppend(rs[1..], r, f);
      assert q[1..] == rs[1..] + [r] && q[0] == rs[0];
      FramesCons(q, g, Frames(rs[1..]) + f);
      FramesCons(rs, g, Frames(rs[1..]));
      Assoc(g, Frames(rs[1..]), f);
    }
  }

  lemma AllOkAppend(rs: seq<Record>, r: Record)
    requires AllOk(rs) && RecordOk(r)
    ensures AllOk(rs + [r])
  {}

  lemma EmittedFits(s: Stream, e: Event, size: nat, s': Stream)
    requires Fits(s, e, size) && s' == Stream(s.written + [Stamp(e, s.nextSeq)], s.pending, NextSeq(s.nextSeq))
    ensures s' == Emitted(s, e, size)
  {}

  // The buffer itself

  class EventBuffer {
    const buf: array<char>
    var len: nat
    var seqNo: nat
    var pending: Option<Event>
    ghost var written: seq<Record>

    ghost function S(): Stream
      reads this
    {
      Stream(written, pending, seqNo)
    }

    ghost predicate Valid()
      reads this, buf
    {
      && len <= buf.Length && buf[..len] == Frames(written) && AllOk(written) && seqNo < TWO64
      && (pending.Some? ==> EventOk(pending.value) && |pending.value.payload| <= PENDING_SIZE)
    }

    constructor (size: nat)
      ensures Valid() && buf.Length == size && S() == Stream([], None, 0) && fresh(buf)
    {
      buf := new char[size];
      len, seqNo, pending, written := 0, 0, None, [];
    }

    method Put(at: nat, data: Bytes)
      requires at + |data| <= buf.Length
      modifies buf
      ensures buf[..at + |data|] == old(buf[..at]) + data
    {
      forall i | 0 <= i < |data| { buf[at + i] := data[i]; }
    }

    /** Write a record that fits at the end. */
    method PutRecord(r: Record, f: Bytes)
      requires Valid() && RecordOk(r) && f == Frame(r) && len + |f| <= buf.Length
      modifies this`len, this`written, buf
      ensures Valid() && written == old(written) + [r] && len == old(len) + |f|
    {
      Put(len, f);
      FramesAppend(written, r, f);
      written := written + [r];
      len := len + |f|;
      AllOkAppend(old(written), r);
    }

    /** Append one event. It fails exactly when the event does not fit, and then stages it if nothing is
        staged. */
    method Write(e: Event) returns (ok: bool)
      requires Valid() && EventOk(e)
      modifies this, buf
      ensures Valid() && S() == Emitted(old(S()), e, buf.Length) && ok == Fits(old(S()), e, buf.Length)
    {
      ghost var s := S();
      assert |Frames(s.written)| == len;
      var need := HEADER_SIZE + AlignUp(|e.payload|);
      assert Fits(s, e, buf.Length) <==> len + need <= buf.Length;
      if len + need > buf.Length {
        if pending.None? { pending := Some(Cut(e)); }
        return false;
      }
      var r := Stamp(e, seqNo);
      PutRecord(r, Frame(r));
      seqNo := NextSeq(seqNo);
      EmittedFits(s, e, buf.Length, S());
      return true;
    }

    /** After a drain: an empty buffer, with the staged event first. */
    method Clear()
      requires Valid()
      modifies this, buf
      ensures Valid() && S() == Drained(old(S()), buf.Length)
    {
      len := 0;
      written := [];
      assert buf[..0] == "";
      if pending.Some? {
        var e := pending.value;
        pending := None;
        var ok := Write(e);
      }
    }

    /** What user space reads, from all of the buffer or any cut of it. */
    lemma ReaderSees(n: nat)
      requires Valid() && n <= len
      ensures Parse(buf[..n]) == written[..Fitting(written, n)] && Parse(buf[..len]) == written
    {
      assert buf[..n] == Frames(written)[..n];
      CutReadsFitting(written, n);
      ReadsBack(written);
    }
  }
}
