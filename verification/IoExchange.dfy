/** Whole exchanges of the workers of guest/bedrock-io/bedrock-io.c, from the interrupt to the response, with
    other workers at any point of theirs. */
module IoExchange {
  import opened BashWire
  import opened IoWorkers
  import opened Options
  import opened WireBytes

  // Putting runs together

  lemma Cons(s: World, step: Step, rest: seq<Step>, s1: World)
    requires Enabled(s, step) && s1 == Apply(s, step) && Runs(s1, rest)
    ensures Runs(s, [step] + rest) && After(s, [step] + rest) == After(s1, rest)
  {
    assert ([step] + rest)[1..] == rest;
  }

  lemma {:induction false} Concat(s: World, a: seq<Step>, b: seq<Step>)
    requires Runs(s, a) && Runs(After(s, a), b)
    ensures Runs(s, a + b) && After(s, a + b) == After(After(s, a), b)
    decreases |a|
  {
    if a == [] {
      assert a + b == b;
    } else {
      Concat(Apply(s, a[0]), a[1..], b);
      assert (a + b)[1..] == a[1..] + b && (a + b)[0] == a[0];
    }
  }

  lemma Two(s: World, a: Step, s1: World, b: Step, s2: World, rest: seq<Step>)
    requires Enabled(s, a) && s1 == Apply(s, a) && Enabled(s1, b) && s2 == Apply(s1, b) && Runs(s2, rest)
    ensures Runs(s, [a] + ([b] + rest)) && After(s, [a] + ([b] + rest)) == After(s2, rest)
  {
    Cons(s1, b, rest, s2);
    Cons(s, a, [b] + rest, s1);
  }

  lemma Overwritten(m: map<Tid, Worker>, t: Tid, a: Worker, b: Worker)
    ensures m[t := a][t := b] == m[t := b]
  {}

  lemma Removed(m: map<Tid, Worker>, t: Tid, a: Worker)
    ensures m[t := a] - {t} == m - {t}
  {}

  // The steps of one worker, with everything else of the world spelled out

  lemma IrqLock(s: World, t: Tid, id: nat, w: Worker, s1: World, s2: World)
    requires s.owner.None? && t !in s.workers && w == NewWorker.(id := id)
    requires s1 == s.(workers := s.workers[t := w])
    requires s2 == s.(owner := Some(t), workers := s.workers[t := w.(phase := Locked)])
    ensures Enabled(s, Irq(t, id)) && s1 == Apply(s, Irq(t, id)) && Enabled(s1, Lock(t)) && s2 == Apply(s1, Lock(t))
  {
    Overwritten(s.workers, t, w, w.(phase := Locked));
  }

  lemma FetchIt(s: World, m: map<Tid, Worker>, t: Tid, w: Worker, e: Bytes, s1: World)
    requires s.workers == m[t := w] && w.phase == Locked && e != "" && |e| <= PAGE_SIZE == |s.page|
    requires s1 == s.(page := e + s.page[|e|..], workers := m[t := w.(phase := Fetched, request := e)])
    ensures Enabled(s, Get(t, e)) && s1 == Apply(s, Get(t, e)) && |s1.page| == PAGE_SIZE && e <= s1.page
  {
    Overwritten(m, t, w, w.(phase := Fetched, request := e));
  }

  lemma CopyIt(s: World, m: map<Tid, Worker>, t: Tid, w: Worker, w1: Worker, s1: World)
    requires s.workers == m[t := w] && w.phase == Fetched && |w.request| <= PAGE_SIZE == |s.page|
    requires w1 == w.(phase := Copied, local := s.page[..|w.request|], flags := FromLE32(s.page[4..8]) % 0x1_0000_0000,
                      parsed := GuestParse(s.page, |w.request|))
    requires s1 == s.(workers := m[t := w1])
    ensures Enabled(s, Copy(t)) && s1 == Apply(s, Copy(t))
  {
    Overwritten(m, t, w, w1);
  }

  lemma UnlockIt(s: World, m: map<Tid, Worker>, t: Tid, w: Worker, s1: World)
    requires s.workers == m[t := w] && w.phase == Copied && w.parsed.Parsed?
    requires s1 == s.(owner := None, workers := m[t := w.(phase := Executing)])
    ensures Enabled(s, Unlock(t)) && s1 == Apply(s, Unlock(t))
  {
    Overwritten(m, t, w, w.(phase := Executing));
  }

  lemma ProduceIt(s: World, t: Tid, w: Worker, text: Bytes, s1: World)
    requires t in s.workers && w == s.workers[t] && w.phase == Executing && w.parsed.Parsed? && Records(w)
    requires s1 == s.(files := s.files[w.id := text], workers := s.workers[t := w.(output := Some(text))])
    ensures Enabled(s, Produce(t, text)) && s1 == Apply(s, Produce(t, text))
  {}

  lemma FinishRelock(s: World, m: map<Tid, Worker>, t: Tid, w: Worker, code: int, w1: Worker, s1: World, s2: World)
    requires s.workers == m[t := w] && w.phase == Executing && s.owner.None? && IsI32(code)
    requires w1 == w.(phase := Answering, exitCode := code) && s1 == s.(workers := m[t := w1])
    requires s2 == s.(owner := Some(t), workers := m[t := w1.(phase := Relocked)])
    ensures Enabled(s, Finish(t, code)) && s1 == Apply(s, Finish(t, code))
    ensures Enabled(s1, Relock(t)) && s2 == Apply(s1, Relock(t))
  {
    Overwritten(m, t, w, w1);
    Overwritten(m, t, w1, w1.(phase := Relocked));
  }

  lemma CollectIt(s: World, m: map<Tid, Worker>, t: Tid, w: Worker, read: ReadResult, s1: World)
    requires s.workers == m[t := w] && w.phase == Relocked && CanCollect(s, t, read) && (read.Count? <==> Records(w))
    requires read.Errno? ==> s1 == s.(workers := m[t := w.(phase := Collected)])
    requires read.Count? ==> s1 == s.(buffer := s.files[w.id][..read.n] + s.buffer[read.n..],
                                      workers := m[t := w.(phase := Collected, outputLen := read.n)])
    ensures Enabled(s, Collect(t, read)) && s1 == Apply(s, Collect(t, read))
  {
    if read.Count? {
      Overwritten(m, t, w, w.(phase := Collected, outputLen := read.n));
    } else {
      Overwritten(m, t, w, w.(phase := Collected));
    }
  }

  lemma HeaderPut(s: World, m: map<Tid, Worker>, t: Tid, w: Worker, h: Bytes, s1: World, s2: World)
    requires s.workers == m[t := w] && w.phase == Collected && HeaderOk(HeaderOf(w)) && h == EncodeHeader(HeaderOf(w))
    requires |s.page| == PAGE_SIZE && w.outputLen <= |s.buffer|
    requires s1 == s.(page := h + s.page[RESPONSE_HEADER_LEN..], workers := m[t := w.(phase := HeaderWritten)])
    requires s2 == s1.(workers := m[t := w.(phase := Answered)], log := s.log + [Entry(t, h, s.buffer[..w.outputLen])])
    ensures Enabled(s, WriteHeader(t)) && s1 == Apply(s, WriteHeader(t)) && Enabled(s1, Put(t))
    ensures s2 == Apply(s1, Put(t))
  {
    HeaderRoundTrip(HeaderOf(w));
    Overwritten(m, t, w, w.(phase := HeaderWritten));
    Overwritten(m, t, w.(phase := HeaderWritten), w.(phase := Answered));
    assert s1.page[..RESPONSE_HEADER_LEN] == h;
  }

  lemma ReleaseClean(s: World, m: map<Tid, Worker>, t: Tid, w: Worker, s1: World, s2: World)
    requires s.workers == m[t := w] && w.phase == Answered
    requires s1 == s.(owner := None, workers := m[t := w.(phase := Cleaning)])
    requires s2 == s1.(workers := m - {t}, files := if Records(w) then s.files - {w.id} else s.files)
    ensures Enabled(s, Release(t)) && s1 == Apply(s, Release(t)) && Enabled(s1, Clean(t, true))
    ensures s2 == Apply(s1, Clean(t, true))
  {
    Overwritten(m, t, w, w.(phase := Cleaning));
    Removed(m, t, w.(phase := Cleaning));
  }

  // One exchange

  ghost predicate Sendable(r: Request) { NulFree(r.container) && NulFree(r.command) && |EncodeRequest(r)| <= PAGE_SIZE }

  /** The worker is running `r`, and has written nothing yet. */
  ghost predicate RunsRequest(w: Worker, r: Request) {
    && w.phase == Executing && w.parsed == Parsed(r) && w.output.None? && w.outputLen == 0 && w.status == 0
    && w.flags < 0x1_0000_0000
  }

  function StartSteps(t: Tid, id: nat, e: Bytes): seq<Step> {
    [Irq(t, id)] + ([Lock(t)] + ([Get(t, e)] + ([Copy(t)] + ([Unlock(t)] + []))))
  }

  /** The new worker runs its request; everything but the page is as it was otherwise. */
  ghost predicate Started(s: World, s': World, t: Tid, id: nat, r: Request, w: Worker) {
    && RunsRequest(w, r) && w.id == id && |s'.page| == PAGE_SIZE
    && s' == s.(page := s'.page, workers := s.workers[t := w])
  }

  /** From any state with the mutex free, whatever other workers are doing, a new worker gets as far as
      running the request it fetched. */
  lemma WorkerStarts(s: World, t: Tid, id: nat, r: Request) returns (w: Worker)
    requires Sized(s) && s.owner.None? && t !in s.workers && Sendable(r)
    ensures var steps := StartSteps(t, id, EncodeRequest(r));
      Runs(s, steps) && Started(s, After(s, steps), t, id, r, w)
  {
    var e, m := EncodeRequest(r), s.workers;
    assert e != "" by { HeaderReads(r); }
    var w1 := NewWorker.(id := id);
    var w2 := w1.(phase := Locked);
    var s1, s2 := s.(workers := m[t := w1]), s.(owner := Some(t), workers := m[t := w2]);
    IrqLock(s, t, id, w1, s1, s2);
    var w3 := w2.(phase := Fetched, request := e);
    var s3 := s2.(page := e + s2.page[|e|..], workers := m[t := w3]);
    FetchIt(s2, m, t, w2, e, s3);
    GuestReadsWhatHostWrote(r, s3.page);
    var w4 := w3.(phase := Copied, local := s3.page[..|e|], flags := FromLE32(s3.page[4..8]) % 0x1_0000_0000,
      parsed := Parsed(r));
    var s4 := s3.(workers := m[t := w4]);
    CopyIt(s3, m, t, w3, w4, s4);
    w := w4.(phase := Executing);
    var s5 := s4.(owner := None, workers := m[t := w]);
    UnlockIt(s4, m, t, w4, s5);
    FiveRun(s, Irq(t, id), s1, Lock(t), s2, Get(t, e), s3, Copy(t), s4, Unlock(t), s5);
  }

  lemma FiveRun(s: World, a: Step, s1: World, b: Step, s2: World, c: Step, s3: World, d: Step, s4: World, e: Step,
        s5: World)
    requires Enabled(s, a) && s1 == Apply(s, a) && Enabled(s1, b) && s2 == Apply(s1, b)
    requires Enabled(s2, c) && s3 == Apply(s2, c) && Enabled(s3, d) && s4 == Apply(s3, d) && Enabled(s4, e)
    requires s5 == Apply(s4, e)
    ensures Runs(s, [a] + ([b] + ([c] + ([d] + ([e] + [])))))
    ensures After(s, [a] + ([b] + ([c] + ([d] + ([e] + []))))) == s5
  {
    assert Runs(s5, []);
    Cons(s4, e, [], s5);
    Two(s2, c, s3, d, s4, [e] + []);
    Two(s, a, s1, b, s2, [c] + ([d] + ([e] + [])));
  }

  function Captured(r: Request, text: Bytes): nat {
    if !r.recordOutput then 0 else if |text| <= OUTPUT_SIZE then |text| else OUTPUT_SIZE
  }

  function Capture(r: Request, text: Bytes): Bytes { if r.recordOutput then text[..Captured(r, text)] else "" }

  function Outcome(r: Request, text: Bytes): ReadResult {
    if r.recordOutput then Count(Captured(r, text)) else Errno(-2)
  }

  /** The command writes `text`, if it is recorded, and ends with `code`; the worker takes the mutex. */
  function EndSteps(t: Tid, r: Request, text: Bytes, code: int): seq<Step> {
    (if r.recordOutput then [Produce(t, text)] else []) + ([Finish(t, code)] + ([Relock(t)] + []))
  }

  function AnswerSteps(t: Tid, r: Request, text: Bytes): seq<Step> {
    [Collect(t, Outcome(r, text))] + ([WriteHeader(t)] + ([Put(t)] + ([Release(t)] + ([Clean(t, true)] + []))))
  }

  ghost predicate Ended(s: World, s': World, t: Tid, r: Request, text: Bytes, code: int, w: Worker) {
    && w.phase == Relocked && w.parsed == Parsed(r) && w.exitCode == code && w.outputLen == 0 && w.status == 0
    && w.flags < 0x1_0000_0000 && (r.recordOutput ==> w.id in s'.files && s'.files[w.id] == text)
    && s' == s.(owner := Some(t), workers := s.workers[t := w], files := s'.files)
  }

  lemma WorkerEnds(s: World, t: Tid, r: Request, text: Bytes, code: int) returns (w: Worker)
    requires s.owner.None? && t in s.workers && RunsRequest(s.workers[t], r) && IsI32(code)
    ensures Runs(s, EndSteps(t, r, text, code)) && Ended(s, After(s, EndSteps(t, r, text, code)), t, r, text, code, w)
  {
    var m, w0 := s.workers, s.workers[t];
    var w1 := if r.recordOutput then w0.(output := Some(text)) else w0;
    var s1 := if r.recordOutput then s.(files := s.files[w0.id := text], workers := m[t := w1]) else s;
    if r.recordOutput { ProduceIt(s, t, w0, text, s1); } else { assert m[t := w0] == m; }
    var w2 := w1.(phase := Answering, exitCode := code);
    w := w2.(phase := Relocked);
    var s2, s3 := s1.(workers := m[t := w2]), s1.(owner := Some(t), workers := m[t := w]);
    FinishRelock(s1, m, t, w1, code, w2, s2, s3);
    assert Runs(s3, []);
    Two(s1, Finish(t, code), s2, Relock(t), s3, []);
    var rest := [Finish(t, code)] + ([Relock(t)] + []);
    if r.recordOutput { Cons(s, Produce(t, text), rest, s1); } else { assert [] + rest == rest; }
  }

  /** The host has one entry more, and worker `t` is gone. */
  ghost predicate Served(s: World, s': World, t: Tid, r: Request, text: Bytes, code: int, e: Entry) {
    && s' == s.(page := s'.page, buffer := s'.buffer, workers := s.workers - {t}, files := s'.files, log := s.log + [e])
    && |s'.page| == PAGE_SIZE && |s'.buffer| == OUTPUT_SIZE
    && e.worker == t && DecodeResponse(e.response) == Some(Response(0, code, Captured(r, text)))
    && e.output == Capture(r, text)
  }

  lemma RelockedAnswers(s: World, m: map<Tid, Worker>, t: Tid, r: Request, text: Bytes, code: int, w: Worker)
    returns (s5: World, e: Entry)
    requires Sized(s) && s.workers == m[t := w] && s.owner == Some(t) && IsI32(code)
    requires w.phase == Relocked && w.parsed == Parsed(r) && w.exitCode == code && w.outputLen == 0 && w.status == 0
    requires w.flags < 0x1_0000_0000 && (r.recordOutput ==> w.id in s.files && s.files[w.id] == text)
    ensures Runs(s, AnswerSteps(t, r, text)) && After(s, AnswerSteps(t, r, text)) == s5
    ensures s5 == s.(owner := None, page := s5.page, buffer := s5.buffer, workers := m - {t}, files := s5.files,
      log := s.log + [e])
    ensures |s5.page| == PAGE_SIZE && |s5.buffer| == OUTPUT_SIZE && e.output == Capture(r, text)
    ensures e.worker == t && DecodeResponse(e.response) == Some(Response(0, code, Captured(r, text)))
  {
    var k, read := Captured(r, text), Outcome(r, text);
    var w1 := w.(phase := Collected, outputLen := k);
    var s1 := s.(buffer := if r.recordOutput then text[..k] + s.buffer[k..] else s.buffer, workers := m[t := w1]);
    CollectIt(s, m, t, w, read, s1);
    var h := EncodeHeader(HeaderOf(w1));
    HeaderRoundTrip(HeaderOf(w1));
    e := Entry(t, h, s1.buffer[..k]);
    assert e.output == Capture(r, text);
    var s2 := s1.(page := h + s1.page[RESPONSE_HEADER_LEN..], workers := m[t := w1.(phase := HeaderWritten)]);
    var w3 := w1.(phase := Answered);
    var s3 := s2.(workers := m[t := w3], log := s1.log + [e]);
    HeaderPut(s1, m, t, w1, h, s2, s3);
    var s4 := s3.(owner := None, workers := m[t := w3.(phase := Cleaning)]);
    s5 := s4.(workers := m - {t}, files := if Records(w3) then s3.files - {w3.id} else s3.files);
    ReleaseClean(s3, m, t, w3, s4, s5);
    FiveRun(s, Collect(t, read), s1, WriteHeader(t), s2, Put(t), s3, Release(t), s4, Clean(t, true), s5);
  }

  /** From any state in which a worker is running a request and the mutex is free, whatever others are
      doing: its command ends with any output and exit code, and the host gets exactly these. */
  lemma WorkerAnswers(s: World, t: Tid, r: Request, text: Bytes, code: int) returns (e: Entry)
    requires Sized(s) && s.owner.None? && t in s.workers && RunsRequest(s.workers[t], r) && IsI32(code)
    ensures var steps := EndSteps(t, r, text, code) + AnswerSteps(t, r, text);
      Runs(s, steps) && Served(s, After(s, steps), t, r, text, code, e)
  {
    var first, last := EndSteps(t, r, text, code), AnswerSteps(t, r, text);
    var w := WorkerEnds(s, t, r, text, code);
    var s0 := After(s, first);
    var s5;
    s5, e := RelockedAnswers(s0, s.workers, t, r, text, code, w);
    Concat(s, first, last);
  }

  // Two at once

  /** Two requests run at the same time, and the one fetched last is answered first: each response is that
      of its own command. */
  lemma TwoWorkersOverlap(s: World, r: Request, q: Request, text: Bytes, out: Bytes, code: int, exit: int)
      returns (started: seq<Step>, steps: seq<Step>, w: Worker, v: Worker, e: Entry, d: Entry)
    requires Initial(s) && Sendable(r) && Sendable(q) && IsI32(code) && IsI32(exit)
    ensures Runs(s, started) && After(s, started).workers == map[0 := w, 1 := v]
    ensures RunsRequest(w, r) && RunsRequest(v, q)
    ensures started <= steps && Runs(s, steps) && After(s, steps).log == s.log + [e] + [d]
    ensures e.worker == 1 && DecodeResponse(e.response) == Some(Response(0, exit, Captured(q, out)))
    ensures d.worker == 0 && DecodeResponse(d.response) == Some(Response(0, code, Captured(r, text)))
    ensures e.output == Capture(q, out) && d.output == Capture(r, text)
  {
    started, w, v := BothStart(s, r, q);
    var s2 := After(s, started);
    var third := EndSteps(1, q, out, exit) + AnswerSteps(1, q, out);
    e := WorkerAnswers(s2, 1, q, out, exit);
    var s3 := After(s2, third);
    assert s3.workers == map[0 := w];
    var fourth := EndSteps(0, r, text, code) + AnswerSteps(0, r, text);
    d := WorkerAnswers(s3, 0, r, text, code);
    Concat(s2, third, fourth);
    Concat(s, started, third + fourth);
    steps := started + (third + fourth);
  }

  lemma BothStart(s: World, r: Request, q: Request) returns (steps: seq<Step>, w: Worker, v: Worker)
    requires Initial(s) && Sendable(r) && Sendable(q)
    ensures Runs(s, steps) && RunsRequest(w, r) && RunsRequest(v, q)
    ensures After(s, steps) == s.(page := After(s, steps).page, workers := map[0 := w, 1 := v])
    ensures |After(s, steps).page| == PAGE_SIZE
  {
    var first, second := StartSteps(0, 0, EncodeRequest(r)), StartSteps(1, 1, EncodeRequest(q));
    w := WorkerStarts(s, 0, 0, r);
    var s1 := After(s, first);
    assert s1.workers == map[0 := w];
    v := WorkerStarts(s1, 1, 1, q);
    Concat(s, first, second);
    steps := first + second;
    assert s1.workers[1 := v] == map[0 := w, 1 := v];
  }
}
