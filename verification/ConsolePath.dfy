/** Console output all the way: the guest's flushes, one event each (`event_emit_console` of
    crates/bedrock-vmx/src/vm_state.rs), through the event buffer among other events, to the lines of
    crates/bedrock-lab/src/event.rs. */
module ConsolePath {
  import opened Options
  import opened Events
  import opened EventBuffers
  import opened Console

  const SERIAL: nat := 1

  /** The records that carry console output. */
  function SerialRecs(es: seq<Event>): seq<Rec> { if es == [] then [] else SerialRec(es[0]) + SerialRecs(es[1..]) }

  function SerialRec(e: Event): seq<Rec> { if e.kind == SERIAL then [Rec(e.payload, e.tsc)] else [] }

  /** The events a run emits, as they were given. */
  function Emissions(acts: seq<Act>): seq<Event> {
    if acts == [] then [] else (if acts[0].Emit? then [acts[0].e] else []) + Emissions(acts[1..])
  }

  function Payloads(recs: seq<Rec>): seq<string> { seq(|recs|, i requires 0 <= i < |recs| => recs[i].bytes) }

  // Flushes are never cut

  ghost predicate SerialFit(acts: seq<Act>) {
    forall i :: 0 <= i < |acts| && acts[i].Emit? && acts[i].e.kind == SERIAL ==> |acts[i].e.payload| <= PENDING_SIZE
  }

  lemma {:induction false} SerialAppend(a: seq<Event>, b: seq<Event>)
    ensures SerialRecs(a + b) == SerialRecs(a) + SerialRecs(b)
    decreases |a|
  {
    if a == [] {
      assert a + b == b;
    } else {
      assert (a + b)[1..] == a[1..] + b && (a + b)[0] == a[0];
      SerialAppend(a[1..], b);
      AssocRecs(SerialRec(a[0]), SerialRecs(a[1..]), SerialRecs(b));
    }
  }

  lemma AssocRecs(a: seq<Rec>, b: seq<Rec>, c: seq<Rec>)
    ensures a + (b + c) == a + b + c
  {}

  lemma SerialOne(e: Event)
    requires e.kind == SERIAL ==> |e.payload| <= PENDING_SIZE
    ensures SerialRecs([Cut(e)]) == SerialRecs([e])
  {
    assert [Cut(e)][1..] == [] && [e][1..] == [];
  }

  lemma {:induction false} SerialUncut(l: Log, acts: seq<Act>, size: nat)
    requires SerialFit(acts)
    ensures SerialRecs(EmittedBy(l, acts, size)) == SerialRecs(Emissions(acts))
    decreases |acts|
  {
    if acts != [] {
      var l1, rest := Do(l, acts[0], size), acts[1..];
      assert forall i :: 0 <= i < |rest| ==> rest[i] == acts[i + 1];
      SerialUncut(l1, rest, size);
      SerialAppend(EmittedAs(l, acts[0], size), EmittedBy(l1, rest, size));
      SerialAppend(if acts[0].Emit? then [acts[0].e] else [], Emissions(rest));
      if acts[0].Emit? { SerialOne(acts[0].e); }
    }
  }

  lemma OkParts(a: seq<Rec>, b: seq<Rec>)
    requires AllFlushesOk(Payloads(a + b))
    ensures AllFlushesOk(Payloads(a)) && AllFlushesOk(Payloads(b))
  {
    var all := Payloads(a + b);
    assert forall i :: 0 <= i < |a| ==> Payloads(a)[i] == all[i];
    assert forall i :: 0 <= i < |b| ==> Payloads(b)[i] == all[|a| + i];
  }

  lemma {:induction false} SerialFits(acts: seq<Act>)
    requires AllFlushesOk(Payloads(SerialRecs(Emissions(acts))))
    ensures SerialFit(acts)
    decreases |acts|
  {
    if acts != [] {
      var head, rest := if acts[0].Emit? then [acts[0].e] else [], Emissions(acts[1..]);
      SerialAppend(head, rest);
      OkParts(SerialRecs(head), SerialRecs(rest));
      SerialFits(acts[1..]);
      if acts[0].Emit? && acts[0].e.kind == SERIAL {
        assert head[1..] == [] && FlushOk(Payloads(SerialRecs(head))[0]);
      }
      FitCons(acts);
    }
  }

  lemma FitCons(acts: seq<Act>)
    requires acts != [] && SerialFit(acts[1..])
    requires acts[0].Emit? && acts[0].e.kind == SERIAL ==> |acts[0].e.payload| <= PENDING_SIZE
    ensures SerialFit(acts)
  {
    var rest := acts[1..];
    assert forall i :: 1 <= i < |acts| ==> acts[i] == rest[i - 1];
  }

  // The text of the records is the flushes joined

  lemma {:induction false} JoinedCons(p: string, parts: seq<string>)
    ensures Joined([p] + parts) == p + Joined(parts)
    decreases |parts|
  {
    var all := [p] + parts;
    if parts == [] {
      assert all[..0] == [] && all == [p];
    } else {
      assert all[..|all| - 1] == [p] + parts[..|parts| - 1];
      JoinedCons(p, parts[..|parts| - 1]);
    }
  }

  lemma {:induction false} TextOfRecords(recs: seq<Rec>)
    ensures Text(Flatten(recs)) == Joined(Payloads(recs))
    decreases |recs|
  {
    if recs != [] {
      TextOfRecords(recs[1..]);
      assert Payloads(recs) == [recs[0].bytes] + Payloads(recs[1..]);
      JoinedCons(recs[0].bytes, Payloads(recs[1..]));
      assert Text(Flatten(recs)) == recs[0].bytes + Text(Flatten(recs[1..]));
    }
  }

  /** Main result: the guest writes a text, its driver flushes it piece by piece, each piece becomes one
      event among any others, and the caller drains whenever an event does not fit. Then the host ends up
      with exactly the guest's lines. */
  lemma GuestLinesArriveThroughEvents(written: string, flushes: seq<string>, acts: seq<Act>, size: nat)
    requires AllFlushesOk(flushes) && Joined(flushes) == Expanded(written)
    requires Payloads(SerialRecs(Emissions(acts))) == flushes
    requires size >= HEADER_SIZE + PENDING_SIZE && Prompt(Log(Stream([], None, 0), []), acts, size)
    ensures var recs := SerialRecs(Read(DoAll(Log(Stream([], None, 0), []), acts, size)));
      Texts(FeedRecords(Fresh, recs).1) == WithReturns(PlainLines(written)) &&
        FeedRecords(Fresh, recs).0.bytes == PlainTail(written)
  {
    var empty := Log(Stream([], None, 0), []);
    PromptLosesNothing(empty, acts, size);
    assert Read(empty) == [] && [] + EmittedBy(empty, acts, size) == EmittedBy(empty, acts, size);
    SerialFits(acts);
    SerialUncut(empty, acts, size);
    var recs := SerialRecs(Emissions(acts));
    TextOfRecords(recs);
    GuestLinesArrive(written, recs);
  }
}
