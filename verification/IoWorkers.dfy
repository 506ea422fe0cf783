/** Concurrent workers of guest/bedrock-io/bedrock-io.c: many commands run at once, and only the
    handshakes on the shared page and the output buffer hold `page_mutex`.

    A step is what a worker, its command or the hypervisor does between two points another worker can
    observe. Worker ids come from a 32-bit counter that may wrap: a step takes any id, and what needs the id
    to be free says so. */
module IoWorkers {
  import opened BashWire
  import opened Options
  import opened WireBytes

  const IO_RESPONSE_MAGIC: nat := 0x1010B10C

  const RESPONSE_HEADER_LEN: nat := 20

  const OUTPUT_SIZE: nat := 0x4_0000

  type Tid = nat

  // Response headers

  datatype Header = Header(flags: nat, status: int, exitCode: int, outputLen: nat)

  predicate IsI32(n: int) { -0x8000_0000 <= n < 0x8000_0000 }

  predicate HeaderOk(h: Header) {
    h.flags < 0x1_0000_0000 && IsI32(h.status) && IsI32(h.exitCode) && h.outputLen < 0x1_0000_0000
  }

  /** Two's complement. */
  function ToU32(n: int): nat
    requires IsI32(n)
  {
    if n < 0 then n + 0x1_0000_0000 else n
  }

  function FromU32(n: nat): int { if n < 0x8000_0000 then n else n - 0x1_0000_0000 }

  function EncodeHeader(h: Header): Bytes
    requires HeaderOk(h)
  {
    LE32(IO_RESPONSE_MAGIC) + LE32(h.flags) + LE32(ToU32(h.status)) + LE32(ToU32(h.exitCode)) + LE32(h.outputLen)
  }

  datatype Response = Response(status: int, exitCode: int, outputLen: nat)

  /** `decode_response` on the host. */
  function DecodeResponse(b: Bytes): Option<Response> {
    if |b| < 4 || FromLE32(b[..4]) != IO_RESPONSE_MAGIC || |b| < 20 then None
    else Some(Response(FromU32(FromLE32(b[8..12])), FromU32(FromLE32(b[12..16])), FromLE32(b[16..20])))
  }

  lemma FiveFields(a: Bytes, b: Bytes, c: Bytes, d: Bytes, e: Bytes)
    requires |a| == |b| == |c| == |d| == |e| == 4
    ensures var f := a + b + c + d + e;
      |f| == 20 && f[..4] == a && f[8..12] == c && f[12..16] == d && f[16..20] == e
  {}

  lemma HeaderRoundTrip(h: Header)
    requires HeaderOk(h)
    ensures |EncodeHeader(h)| == RESPONSE_HEADER_LEN
    ensures DecodeResponse(EncodeHeader(h)) == Some(Response(h.status, h.exitCode, h.outputLen))
  {
    FiveFields(LE32(IO_RESPONSE_MAGIC), LE32(h.flags), LE32(ToU32(h.status)), LE32(ToU32(h.exitCode)),
      LE32(h.outputLen));
    LE32RoundTrip(IO_RESPONSE_MAGIC);
    LE32RoundTrip(ToU32(h.status));
    LE32RoundTrip(ToU32(h.exitCode));
    LE32RoundTrip(h.outputLen);
  }

  // The system

  datatype Phase =
    | Begun           // queued by the interrupt
    | Locked          // phase 1, mutex held
    | Fetched         // the request is on the page, mutex held
    | Copied          // the request is in local storage, mutex held
    | Executing       // phase 2, no mutex
    | Answering       // phase 3 wanted
    | Relocked        // phase 3, mutex held
    | Collected       // the capture is in the output buffer
    | HeaderWritten   // the response is on the page; PUT_RESPONSE is next
    | Answered        // the host has it, mutex held
    | Cleaning        // mutex released, capture file to remove

  /** `request` is what GET_REQUEST delivered to this worker, `local` its copy, `output` what its command
      has written to the capture file. */
  datatype Worker = Worker(
    id: nat,
    phase: Phase,
    request: Bytes,
    local: Bytes,
    flags: nat,
    parsed: Parsed,
    output: Option<Bytes>,
    status: int,
    exitCode: int,
    outputLen: nat)

  /** What the host received at one PUT_RESPONSE exit. */
  datatype Entry = Entry(worker: Tid, response: Bytes, output: Bytes)

  datatype World = World(
    page: Bytes,
    buffer: Bytes,
    owner: Option<Tid>,
    workers: map<Tid, Worker>,
    files: map<nat, Bytes>,
    log: seq<Entry>)

  /** Reading the capture file back: a possibly short count, or an error. */
  datatype ReadResult = Count(n: nat) | Errno(e: int)

  datatype Step =
    | Irq(t: Tid, id: nat)
    | Lock(t: Tid)
    | Get(t: Tid, request: Bytes)          // empty: nothing to fetch
    | Copy(t: Tid)
    | Unlock(t: Tid)
    | Produce(t: Tid, text: Bytes)
    | Finish(t: Tid, exitCode: int)
    | Relock(t: Tid)
    | Collect(t: Tid, read: ReadResult)
    | WriteHeader(t: Tid)
    | Put(t: Tid)
    | Release(t: Tid)
    | Clean(t: Tid, unlinked: bool)

  /** A worker that was asked to record its command's output. */
  predicate Records(w: Worker) {
    (w.parsed.Parsed? && w.parsed.request.recordOutput) || (w.parsed.Malformed? && w.parsed.record)
  }

  function HeaderOf(w: Worker): Header { Header(w.flags, w.status, w.exitCode, w.outputLen) }

  predicate Is(s: World, t: Tid, ph: Phase) { t in s.workers && s.workers[t].phase == ph }

  predicate CanCollect(s: World, t: Tid, read: ReadResult)
    requires t in s.workers
  {
    && |s.buffer| == OUTPUT_SIZE
    && (read.Count? ==> s.workers[t].id in s.files && read.n <= |s.files[s.workers[t].id]| && read.n <= OUTPUT_SIZE)
    && (read.Errno? ==> IsI32(read.e) && read.e < 0)
  }

  predicate Enabled(s: World, step: Step) {
    match step
    case Irq(t, _) => t !in s.workers
    case Lock(t) => Is(s, t, Begun) && s.owner.None?
    case Get(t, request) => Is(s, t, Locked) && |request| <= PAGE_SIZE && |s.page| == PAGE_SIZE
    case Copy(t) => Is(s, t, Fetched) && |s.page| == PAGE_SIZE && |s.workers[t].request| <= PAGE_SIZE
    case Unlock(t) => Is(s, t, Copied)
    case Produce(t, _) => Is(s, t, Executing) && s.workers[t].parsed.Parsed? && Records(s.workers[t])
    case Finish(t, code) => Is(s, t, Executing) && IsI32(code)
    case Relock(t) => Is(s, t, Answering) && s.owner.None?
    case Collect(t, read) => Is(s, t, Relocked) && CanCollect(s, t, read)
    case WriteHeader(t) => Is(s, t, Collected) && |s.page| == PAGE_SIZE && HeaderOk(HeaderOf(s.workers[t]))
    case Put(t) => Is(s, t, HeaderWritten) && |s.page| == PAGE_SIZE && s.workers[t].outputLen <= |s.buffer|
    case Release(t) => Is(s, t, Answered)
    case Clean(t, _) => Is(s, t, Cleaning)
  }

  function Update(s: World, t: Tid, w: Worker): World { s.(workers := s.workers[t := w]) }

  const NewWorker := Worker(0, Begun, "", "", 0, Nothing, None, 0, 0, 0)

  function AfterGet(s: World, t: Tid, request: Bytes): World
    requires t in s.workers && |request| <= |s.page|
  {
    if request == "" then s.(owner := None, workers := s.workers - {t})
    else Update(s.(page := request + s.page[|request|..]), t, s.workers[t].(phase := Fetched, request := request))
  }

  function AfterCopy(s: World, t: Tid): World
    requires t in s.workers && |s.page| == PAGE_SIZE && |s.workers[t].request| <= PAGE_SIZE
  {
    var w := s.workers[t];
    var n := |w.request|;
    Update(s, t, w.(phase := Copied, local := s.page[..n], flags := FromLE32(s.page[4..8]) % 0x1_0000_0000,
      parsed := GuestParse(s.page, n)))
  }

  /** A worker without a request it can answer leaves; a malformed one is answered without running. */
  function AfterUnlock(s: World, t: Tid): World
    requires t in s.workers
  {
    var w := s.workers[t];
    if w.parsed.Nothing? then s.(owner := None, workers := s.workers - {t})
    else if w.parsed.Malformed? then Update(s.(owner := None), t, w.(phase := Answering, exitCode := -22))
    else Update(s.(owner := None), t, w.(phase := Executing))
  }

  function AfterCollect(s: World, t: Tid, read: ReadResult): World
    requires t in s.workers && CanCollect(s, t, read)
  {
    var w := s.workers[t];
    if !Records(w) then Update(s, t, w.(phase := Collected))
    else match read
      case Errno(e) => Update(s, t, w.(phase := Collected, status := e))
      case Count(k) =>
        Update(s.(buffer := s.files[w.id][..k] + s.buffer[k..]), t, w.(phase := Collected, outputLen := k))
  }

  function Apply(s: World, step: Step): World
    requires Enabled(s, step)
  {
    match step
    case Irq(t, id) => Update(s, t, NewWorker.(id := id))
    case Lock(t) => Update(s.(owner := Some(t)), t, s.workers[t].(phase := Locked))
    case Get(t, request) => AfterGet(s, t, request)
    case Copy(t) => AfterCopy(s, t)
    case Unlock(t) => AfterUnlock(s, t)
    case Produce(t, text) =>
      Update(s.(files := s.files[s.workers[t].id := text]), t, s.workers[t].(output := Some(text)))
    case Finish(t, code) => Update(s, t, s.workers[t].(phase := Answering, exitCode := code))
    case Relock(t) => Update(s.(owner := Some(t)), t, s.workers[t].(phase := Relocked))
    case Collect(t, read) => AfterCollect(s, t, read)
    case WriteHeader(t) =>
      Update(s.(page := EncodeHeader(HeaderOf(s.workers[t])) + s.page[RESPONSE_HEADER_LEN..]), t,
        s.workers[t].(phase := HeaderWritten))
    case Put(t) =>
      var e := Entry(t, s.page[..RESPONSE_HEADER_LEN], s.buffer[..s.workers[t].outputLen]);
      Update(s.(log := s.log + [e]), t, s.workers[t].(phase := Answered))
    case Release(t) => Update(s.(owner := None), t, s.workers[t].(phase := Cleaning))
    case Clean(t, unlinked) =>
      s.(workers := s.workers - {t},
         files := if unlinked && Records(s.workers[t]) then s.files - {s.workers[t].id} else s.files)
  }

  // What every interleaving keeps

  predicate HoldsMutex(ph: Phase) {
    ph == Locked || ph == Fetched || ph == Copied || ph == Relocked || ph == Collected || ph == HeaderWritten ||
      ph == Answered
  }

  /** Exactly the owner is inside a critical section. */
  ghost predicate Exclusive(s: World) {
    forall t :: t in s.workers ==> (HoldsMutex(s.workers[t].phase) <==> s.owner == Some(t))
  }

  ghost predicate OwnerLives(s: World) { s.owner.Some? ==> s.owner.value in s.workers }

  ghost predicate Sized(s: World) { |s.page| == PAGE_SIZE && |s.buffer| == OUTPUT_SIZE }

  ghost predicate DistinctIds(s: World) {
    forall t, u :: t in s.workers && u in s.workers && s.workers[t].id == s.workers[u].id ==> t == u
  }

  /** A worker's capture file is what its own command wrote. */
  ghost predicate OwnFiles(s: World) {
    forall t :: t in s.workers ==>
      if s.workers[t].id in s.files then s.workers[t].output == Some(s.files[s.workers[t].id])
        else s.workers[t].output.None?
  }

  /** What a worker knows at its phase. */
  ghost predicate Knows(s: World, w: Worker) {
    && |w.request| <= PAGE_SIZE
    && (w.phase == Fetched ==> w.request <= s.page)
    && (w.phase != Begun && w.phase != Locked && w.phase != Fetched ==>
      w.local == w.request && ParsedOf(w.request, w.parsed))
    && IsI32(w.status) && IsI32(w.exitCode) && w.outputLen <= OUTPUT_SIZE && w.flags < 0x1_0000_0000
    && (w.phase != Collected && w.phase != HeaderWritten && w.phase != Answered && w.phase != Cleaning ==>
      w.outputLen == 0 && w.status == 0)
    && (w.phase == HeaderWritten ==> EncodeHeader(HeaderOf(w)) <= s.page)
  }

  /** With a response in preparation, the first `outputLen` bytes of the buffer are the worker's own output;
      there are none unless it records. */
  ghost predicate OutputOk(s: World, w: Worker) {
    w.outputLen > 0 && (w.phase == Collected || w.phase == HeaderWritten || w.phase == Answered) ==>
      && Records(w) && w.output.Some? && w.outputLen <= |w.output.value| && w.outputLen <= |s.buffer|
      && s.buffer[..w.outputLen] == w.output.value[..w.outputLen]
  }

  /** `parsed` is what the guest makes of exactly the bytes delivered, whatever else was on the page. */
  ghost predicate ParsedOf(request: Bytes, parsed: Parsed) {
    exists page: Bytes ::
      |page| == PAGE_SIZE && |request| <= PAGE_SIZE && request <= page && GuestParse(page, |request|) == parsed
  }

  ghost predicate AllKnow(s: World) { forall t :: t in s.workers ==> Knows(s, s.workers[t]) }

  ghost predicate AllOutputs(s: World) { forall t :: t in s.workers ==> OutputOk(s, s.workers[t]) }

  /** What holds whatever the ids are. */
  ghost predicate Base(s: World) { Exclusive(s) && OwnerLives(s) && Sized(s) && AllKnow(s) }

  /** What holds besides as long as ids are free when they are taken. */
  ghost predicate Inv(s: World) { Base(s) && DistinctIds(s) && OwnFiles(s) && AllOutputs(s) }

  /** The id a new worker takes belongs to no live worker, and to no left-over capture file. */
  predicate LiveIdFree(s: World, step: Step) { step.Irq? ==> forall u :: u in s.workers ==> s.workers[u].id != step.id }

  predicate IdFree(s: World, step: Step) { LiveIdFree(s, step) && (step.Irq? ==> step.id !in s.files) }

  /** Only workers inside a critical section depend on the page and the buffer. */
  lemma KnowsFrame(s: World, s': World, w: Worker)
    requires Knows(s, w) && (HoldsMutex(w.phase) ==> s'.page == s.page && s'.buffer == s.buffer)
    ensures Knows(s', w)
  {}

  lemma OutputFrame(s: World, s': World, w: Worker)
    requires OutputOk(s, w) && (HoldsMutex(w.phase) ==> s'.buffer == s.buffer)
    ensures OutputOk(s', w)
  {}

  predicate IsFirstHalf(step: Step) {
    step.Irq? || step.Lock? || step.Get? || step.Copy? || step.Unlock? || step.Produce?
  }

  lemma FirstHalfExclusive(s: World, step: Step, s': World)
    requires Exclusive(s) && OwnerLives(s) && Enabled(s, step) && s' == Apply(s, step) && IsFirstHalf(step)
    ensures Exclusive(s') && OwnerLives(s')
  {}

  lemma SecondHalfExclusive(s: World, step: Step, s': World)
    requires Exclusive(s) && OwnerLives(s) && Enabled(s, step) && s' == Apply(s, step) && !IsFirstHalf(step)
    ensures Exclusive(s') && OwnerLives(s')
  {}

  lemma StepExclusive(s: World, step: Step, s': World)
    requires Exclusive(s) && OwnerLives(s) && Enabled(s, step) && s' == Apply(s, step)
    ensures Exclusive(s') && OwnerLives(s')
  {
    if IsFirstHalf(step) { FirstHalfExclusive(s, step, s'); } else { SecondHalfExclusive(s, step, s'); }
  }

  lemma StepSized(s: World, step: Step, s': World)
    requires Sized(s) && Enabled(s, step) && s' == Apply(s, step)
    ensures Sized(s')
  {
    if step.WriteHeader? { HeaderRoundTrip(HeaderOf(s.workers[step.t])); }
  }

  lemma StepIds(s: World, step: Step, s': World)
    requires DistinctIds(s) && Enabled(s, step) && s' == Apply(s, step)
    ensures DistinctIds(s') <==> LiveIdFree(s, step)
  {
    if step.Irq? { IrqIds(s, step, s'); } else { OtherIds(s, step, s'); }
  }

  lemma IrqIds(s: World, step: Step, s': World)
    requires DistinctIds(s) && step.Irq? && Enabled(s, step) && s' == Apply(s, step)
    ensures DistinctIds(s') <==> LiveIdFree(s, step)
  {
    forall u | u in s.workers && s.workers[u].id == step.id ensures !DistinctIds(s') {
      assert s'.workers[u].id == s'.workers[step.t].id;
    }
  }

  lemma OtherIds(s: World, step: Step, s': World)
    requires DistinctIds(s) && !step.Irq? && Enabled(s, step) && s' == Apply(s, step)
    ensures DistinctIds(s')
  {
    forall t | t in s'.workers ensures t in s.workers && s'.workers[t].id == s.workers[t].id {
      SameId(s, step, s', t);
    }
  }

  /** A worker keeps its id for life. */
  lemma SameId(s: World, step: Step, s': World, t: Tid)
    requires !step.Irq? && Enabled(s, step) && s' == Apply(s, step) && t in s'.workers
    ensures t in s.workers && s'.workers[t].id == s.workers[t].id
  {}

  lemma StepFiles(s: World, step: Step, s': World)
    requires DistinctIds(s) && OwnFiles(s) && Enabled(s, step) && s' == Apply(s, step) && IdFree(s, step)
    ensures OwnFiles(s')
  {
    if step.Irq? {
      IrqFiles(s, step, s');
      } else if step.Produce? { ProduceFiles(s, step, s');
      } else { OtherFiles(s, step, s');
    }
  }

  lemma IrqFiles(s: World, step: Step, s': World)
    requires OwnFiles(s) && step.Irq? && Enabled(s, step) && s' == Apply(s, step) && IdFree(s, step)
    ensures OwnFiles(s')
  {}

  lemma ProduceFiles(s: World, step: Step, s': World)
    requires DistinctIds(s) && OwnFiles(s) && step.Produce? && Enabled(s, step) && s' == Apply(s, step)
    ensures OwnFiles(s')
  {}

  lemma OtherFiles(s: World, step: Step, s': World)
    requires DistinctIds(s) && OwnFiles(s) && !step.Irq? && !step.Produce? && Enabled(s, step) && s' == Apply(s, step)
    ensures OwnFiles(s')
  {
    forall t | t in s'.workers
      ensures if s'.workers[t].id in s'.files then s'.workers[t].output == Some(s'.files[s'.workers[t].id])
        else s'.workers[t].output.None?
    {
      SameId(s, step, s', t);
      SameOutput(s, step, s', t);
      if step.Clean? { assert s.workers[t].id != s.workers[step.t].id; }
    }
  }

  lemma SameOutput(s: World, step: Step, s': World, t: Tid)
    requires !step.Irq? && !step.Produce? && Enabled(s, step) && s' == Apply(s, step) && t in s'.workers
    ensures t in s.workers && s'.workers[t].output == s.workers[t].output
    ensures s'.files == s.files || (step.Clean? && t != step.t && s'.files == s.files - {s.workers[step.t].id})
  {}

  /** A step moves one worker, and touches the page or the buffer only under the mutex. */
  lemma StepLocal(s: World, step: Step, s': World, u: Tid)
    requires Exclusive(s) && Enabled(s, step) && s' == Apply(s, step) && u in s'.workers && u != step.t
    ensures u in s.workers && s'.workers[u] == s.workers[u]
    ensures HoldsMutex(s.workers[u].phase) ==> s'.page == s.page && s'.buffer == s.buffer
  {
    if IsFirstHalf(step) { FirstHalfLocal(s, step, s', u); } else { SecondHalfLocal(s, step, s', u); }
  }

  lemma FirstHalfLocal(s: World, step: Step, s': World, u: Tid)
    requires Exclusive(s) && Enabled(s, step) && s' == Apply(s, step) && u in s'.workers && u != step.t
    requires IsFirstHalf(step)
    ensures u in s.workers && s'.workers[u] == s.workers[u]
    ensures HoldsMutex(s.workers[u].phase) ==> s'.page == s.page && s'.buffer == s.buffer
  {}

  lemma SecondHalfLocal(s: World, step: Step, s': World, u: Tid)
    requires Exclusive(s) && Enabled(s, step) && s' == Apply(s, step) && u in s'.workers && u != step.t
    requires !IsFirstHalf(step)
    ensures u in s.workers && s'.workers[u] == s.workers[u]
    ensures HoldsMutex(s.workers[u].phase) ==> s'.page == s.page && s'.buffer == s.buffer
  {}

  lemma CopyKnows(s: World, t: Tid)
    requires Sized(s) && Is(s, t, Fetched) && Knows(s, s.workers[t])
    ensures Knows(AfterCopy(s, t), AfterCopy(s, t).workers[t])
  {
    var w := s.workers[t];
    assert s.page[..|w.request|] == w.request;
    assert ParsedOf(w.request, GuestParse(s.page, |w.request|));
  }

  lemma CollectKnows(s: World, t: Tid, read: ReadResult)
    requires Is(s, t, Relocked) && CanCollect(s, t, read) && Knows(s, s.workers[t])
    ensures Knows(AfterCollect(s, t, read), AfterCollect(s, t, read).workers[t])
  {}

  lemma CollectOutput(s: World, t: Tid, read: ReadResult)
    requires Is(s, t, Relocked) && CanCollect(s, t, read) && Knows(s, s.workers[t]) && OwnFiles(s)
    ensures OutputOk(AfterCollect(s, t, read), AfterCollect(s, t, read).workers[t])
  {
    var w := s.workers[t];
    if Records(w) && read.Count? {
      assert (s.files[w.id][..read.n] + s.buffer[read.n..])[..read.n] == s.files[w.id][..read.n];
    }
  }

  lemma HeaderKnows(s: World, t: Tid)
    requires Sized(s) && Enabled(s, WriteHeader(t)) && Knows(s, s.workers[t])
    ensures var s' := Apply(s, WriteHeader(t)); Knows(s', s'.workers[t])
  {
    var w := s.workers[t];
    HeaderRoundTrip(HeaderOf(w));
    HeaderOnPage(s, w, w.(phase := HeaderWritten), EncodeHeader(HeaderOf(w)), Apply(s, WriteHeader(t)));
  }

  lemma HeaderOnPage(s: World, w: Worker, w': Worker, h: Bytes, s': World)
    requires Knows(s, w) && w.phase == Collected && w' == w.(phase := HeaderWritten) && HeaderOk(HeaderOf(w))
    requires h == EncodeHeader(HeaderOf(w))
    requires h <= s'.page && s'.buffer == s.buffer
    ensures Knows(s', w')
  {}

  lemma OwnStepKnows(s: World, step: Step, s': World)
    requires Sized(s) && AllKnow(s) && Enabled(s, step) && s' == Apply(s, step) && step.t in s'.workers
    ensures Knows(s', s'.workers[step.t])
  {
    if step.Copy? || step.Collect? || step.WriteHeader? {
      PageStepKnows(s, step, s');
    } else if IsFirstHalf(step) {
      FirstStepKnows(s, step, s');
    } else {
      PlainStepKnows(s, step, s');
    }
  }

  lemma PageStepKnows(s: World, step: Step, s': World)
    requires Sized(s) && AllKnow(s) && Enabled(s, step) && s' == Apply(s, step) && step.t in s'.workers
    requires step.Copy? || step.Collect? || step.WriteHeader?
    ensures Knows(s', s'.workers[step.t])
  {
    if step.Copy? {
      CopyKnows(s, step.t);
      } else if step.Collect? { CollectKnows(s, step.t, step.read);
      } else { HeaderKnows(s, step.t);
    }
  }

  lemma FirstStepKnows(s: World, step: Step, s': World)
    requires AllKnow(s) && Enabled(s, step) && s' == Apply(s, step) && step.t in s'.workers
    requires IsFirstHalf(step) && !step.Copy?
    ensures Knows(s', s'.workers[step.t])
  {
    if step.Irq? {
      IrqKnows(s, step, s');
    } else {
      assert Knows(s, s.workers[step.t]);
      if step.Get? { GetKnows(s, step, s'); } else { LockKnows(s, step, s'); }
    }
  }

  lemma IrqKnows(s: World, step: Step, s': World)
    requires step.Irq? && Enabled(s, step) && s' == Apply(s, step)
    ensures Knows(s', s'.workers[step.t])
  {}

  lemma GetKnows(s: World, step: Step, s': World)
    requires step.Get? && Enabled(s, step) && s' == Apply(s, step)
    requires step.t in s'.workers && Knows(s, s.workers[step.t])
    ensures Knows(s', s'.workers[step.t])
  {}

  lemma LockKnows(s: World, step: Step, s': World)
    requires (step.Lock? || step.Unlock? || step.Produce?) && Enabled(s, step) && s' == Apply(s, step)
    requires step.t in s'.workers && Knows(s, s.workers[step.t])
    ensures Knows(s', s'.workers[step.t])
  {}

  lemma PlainStepKnows(s: World, step: Step, s': World)
    requires Sized(s) && AllKnow(s) && Enabled(s, step) && s' == Apply(s, step) && step.t in s'.workers
    requires !IsFirstHalf(step) && !step.Collect? && !step.WriteHeader?
    ensures Knows(s', s'.workers[step.t])
  {
    assert Knows(s, s.workers[step.t]);
  }

  lemma StepKeepsBase(s: World, step: Step, s': World)
    requires Base(s) && Enabled(s, step) && s' == Apply(s, step)
    ensures Base(s')
  {
    StepExclusive(s, step, s');
    StepSized(s, step, s');
    forall u | u in s'.workers ensures Knows(s', s'.workers[u]) {
      if u == step.t {
        OwnStepKnows(s, step, s');
      } else {
        StepLocal(s, step, s', u);
        KnowsFrame(s, s', s.workers[u]);
      }
    }
  }

  lemma OwnStepOutput(s: World, step: Step, s': World)
    requires OwnFiles(s) && AllKnow(s) && AllOutputs(s) && Enabled(s, step) && s' == Apply(s, step)
    requires step.t in s'.workers
    ensures OutputOk(s', s'.workers[step.t])
  {
    if !step.Irq? {
      assert Knows(s, s.workers[step.t]) && OutputOk(s, s.workers[step.t]);
      if step.Collect? { CollectOutput(s, step.t, step.read); }
    }
  }

  lemma StepKeepsInv(s: World, step: Step, s': World)
    requires Inv(s) && Enabled(s, step) && s' == Apply(s, step) && IdFree(s, step)
    ensures Inv(s')
  {
    StepKeepsBase(s, step, s');
    StepIds(s, step, s');
    StepFiles(s, step, s');
    forall u | u in s'.workers ensures OutputOk(s', s'.workers[u]) {
      if u == step.t {
        OwnStepOutput(s, step, s');
      } else {
        StepLocal(s, step, s', u);
        OutputFrame(s, s', s.workers[u]);
      }
    }
  }

  // Runs

  ghost predicate Initial(s: World) { Sized(s) && s.owner.None? && s.workers == map[] }

  ghost predicate Runs(s: World, steps: seq<Step>)
    decreases |steps|
  {
    steps == [] || (Enabled(s, steps[0]) && Runs(Apply(s, steps[0]), steps[1..]))
  }

  function After(s: World, steps: seq<Step>): World
    requires Runs(s, steps)
    decreases |steps|
  {
    if steps == [] then s else After(Apply(s, steps[0]), steps[1..])
  }

  /** Every new worker of the run takes a free id. */
  ghost predicate FreshIds(s: World, steps: seq<Step>)
    requires Runs(s, steps)
    decreases |steps|
  {
    steps == [] || (IdFree(s, steps[0]) && FreshIds(Apply(s, steps[0]), steps[1..]))
  }

  lemma {:induction false} RunKeepsBase(s: World, steps: seq<Step>)
    requires Base(s) && Runs(s, steps)
    ensures Base(After(s, steps))
    decreases |steps|
  {
    if steps != [] {
      StepKeepsBase(s, steps[0], Apply(s, steps[0]));
      RunKeepsBase(Apply(s, steps[0]), steps[1..]);
    }
  }

  lemma {:induction false} RunKeepsInv(s: World, steps: seq<Step>)
    requires Inv(s) && Runs(s, steps) && FreshIds(s, steps)
    ensures Inv(After(s, steps))
    decreases |steps|
  {
    if steps != [] {
      StepKeepsInv(s, steps[0], Apply(s, steps[0]));
      RunKeepsInv(Apply(s, steps[0]), steps[1..]);
    }
  }

  ghost predicate DistinctThroughout(s: World, steps: seq<Step>)
    requires Runs(s, steps)
    decreases |steps|
  {
    DistinctIds(s) && (steps == [] || DistinctThroughout(Apply(s, steps[0]), steps[1..]))
  }

  ghost predicate LiveIdsFree(s: World, steps: seq<Step>)
    requires Runs(s, steps)
    decreases |steps|
  {
    steps == [] || (LiveIdFree(s, steps[0]) && LiveIdsFree(Apply(s, steps[0]), steps[1..]))
  }

  /** No two live workers ever share a capture file exactly when every new worker takes an id that no live
      worker has. */
  lemma {:induction false} DistinctExactly(s: World, steps: seq<Step>)
    requires Runs(s, steps) && DistinctIds(s)
    ensures DistinctThroughout(s, steps) <==> LiveIdsFree(s, steps)
    decreases |steps|
  {
    if steps != [] {
      StepIds(s, steps[0], Apply(s, steps[0]));
      if LiveIdFree(s, steps[0]) { DistinctExactly(Apply(s, steps[0]), steps[1..]); }
    }
  }

  // The counter

  /** What the counter gives out after `j` others, having stood at `c`. */
  function CounterId(c: nat, j: nat): nat { (c + j) % TWO32 }

  /** The ids of the run are those of a 32-bit counter that has given out `k` since it stood at `c`. */
  ghost predicate Counted(steps: seq<Step>, c: nat, k: nat)
    decreases |steps|
  {
    steps == [] ||
    ((steps[0].Irq? ==> steps[0].id == CounterId(c, k)) &&
      Counted(steps[1..], c, if steps[0].Irq? then k + 1 else k))
  }

  function Irqs(steps: seq<Step>): nat {
    if steps == [] then 0 else (if steps[0].Irq? then 1 else 0) + Irqs(steps[1..])
  }

  ghost predicate GivenOut(id: nat, c: nat, k: nat) { exists j: nat :: j < k && id == CounterId(c, j) }

  ghost predicate OnlyGivenOut(s: World, c: nat, k: nat) {
    && (forall t :: t in s.workers ==> GivenOut(s.workers[t].id, c, k))
    && forall id :: id in s.files ==> GivenOut(id, c, k)
  }

  lemma NotYetGivenOut(c: nat, k: nat)
    requires k < TWO32
    ensures !GivenOut(CounterId(c, k), c, k)
  {
    forall j: nat | j < k ensures CounterId(c, j) != CounterId(c, k) { ModApart(c + j, k - j); }
  }

  lemma ModApart(a: nat, d: nat)
    requires 0 < d < TWO32
    ensures a % TWO32 != (a + d) % TWO32
  {
    var q, r := a / TWO32, a % TWO32;
    assert a + d == q * TWO32 + (r + d);
    if r + d < TWO32 {
      ModUnique(a + d, q, r + d);
    } else {
      ModUnique(a + d, q + 1, r + d - TWO32);
    }
  }

  lemma ModUnique(a: nat, q: nat, r: nat)
    requires a == q * TWO32 + r && r < TWO32
    ensures a % TWO32 == r
  {}

  lemma StepGivesOut(s: World, step: Step, c: nat, k: nat)
    requires Enabled(s, step) && OnlyGivenOut(s, c, k) && (step.Irq? ==> step.id == CounterId(c, k))
    ensures OnlyGivenOut(Apply(s, step), c, if step.Irq? then k + 1 else k)
  {
    var s', k' := Apply(s, step), if step.Irq? then k + 1 else k;
    forall id: nat | GivenOut(id, c, k) ensures GivenOut(id, c, k') {
      var j: nat :| j < k && id == CounterId(c, j);
      assert j < k' && id == CounterId(c, j);
    }
    forall t | t in s'.workers ensures GivenOut(s'.workers[t].id, c, k') {
      if step.Irq? && t == step.t { assert k < k'; } else { assert s'.workers[t].id == s.workers[t].id; }
    }
  }

  /** With the counter, ids are free as long as it has not gone all the way round. */
  lemma {:induction false} CounterIdsAreFresh(s: World, steps: seq<Step>, c: nat, k: nat)
    requires Runs(s, steps) && Counted(steps, c, k) && OnlyGivenOut(s, c, k) && k + Irqs(steps) <= TWO32
    ensures FreshIds(s, steps)
    decreases |steps|
  {
    if steps != [] {
      if steps[0].Irq? { NotYetGivenOut(c, k); }
      StepGivesOut(s, steps[0], c, k);
      CounterIdsAreFresh(Apply(s, steps[0]), steps[1..], c, if steps[0].Irq? then k + 1 else k);
    }
  }

  lemma AtPut(s: World, t: Tid)
    requires Sized(s) && Enabled(s, Put(t)) && Knows(s, s.workers[t])
    ensures var w := s.workers[t]; var e := Entry(t, EncodeHeader(HeaderOf(w)), s.buffer[..w.outputLen]);
      && HeaderOk(HeaderOf(w)) && s.page[..RESPONSE_HEADER_LEN] == EncodeHeader(HeaderOf(w))
      && Apply(s, Put(t)).log == s.log + [e]
  {
    HeaderRoundTrip(HeaderOf(s.workers[t]));
  }

  /** For every interleaving of workers with free ids: when one is about to issue PUT_RESPONSE, the page
      starts with its own response header, and the first `outputLen` bytes of the output buffer are the
      start of what its own command wrote, none if it does not record. So the host gets exactly that. */
  lemma ResponsesAreTheWorkersOwn(s0: World, steps: seq<Step>, t: Tid)
    requires Initial(s0) && Runs(s0, steps) && FreshIds(s0, steps) && Enabled(After(s0, steps), Put(t))
    ensures var s := After(s0, steps); var w := s.workers[t]; var s' := Apply(s, Put(t));
      && HeaderOk(HeaderOf(w)) && s.page[..RESPONSE_HEADER_LEN] == EncodeHeader(HeaderOf(w))
      && (w.outputLen > 0 ==> Records(w) && w.output.Some? && w.outputLen <= |w.output.value|)
      && s'.log == s.log +
        [Entry(t, EncodeHeader(HeaderOf(w)), if w.outputLen == 0 then "" else w.output.value[..w.outputLen])]
  {
    RunKeepsInv(s0, steps);
    var s := After(s0, steps);
    AtPut(s, t);
    assert OutputOk(s, s.workers[t]) && s.buffer[..0] == "";
  }

  /** The host decodes each response to that worker's status, exit code and output length. */
  lemma HostDecodesOwnResponse(s0: World, steps: seq<Step>, t: Tid)
    requires Initial(s0) && Runs(s0, steps) && Enabled(After(s0, steps), Put(t))
    ensures var s := After(s0, steps); var w := s.workers[t]; var e := Apply(s, Put(t)).log[|s.log|];
      DecodeResponse(e.response) == Some(Response(w.status, w.exitCode, w.outputLen)) && |e.output| == w.outputLen
  {
    RunKeepsBase(s0, steps);
    AtPut(After(s0, steps), t);
    HeaderRoundTrip(HeaderOf(After(s0, steps).workers[t]));
  }

  /** Two workers are never inside critical sections at once, whatever their ids; and they do not share a
      capture file if ids were free when they were taken. */
  lemma WorkersExclude(s0: World, steps: seq<Step>, t: Tid, u: Tid)
    requires Initial(s0) && Runs(s0, steps) && t in After(s0, steps).workers && u in After(s0, steps).workers && t != u
    ensures var s := After(s0, steps);
      && !(HoldsMutex(s.workers[t].phase) && HoldsMutex(s.workers[u].phase))
      && (FreshIds(s0, steps) ==> s.workers[t].id != s.workers[u].id)
  {
    RunKeepsBase(s0, steps);
    if FreshIds(s0, steps) { RunKeepsInv(s0, steps); }
  }

  /** A worker that is past its first critical section works on exactly the request delivered to it: for a
      request the host encoded, on its exact container, command and recording flag. */
  lemma WorkerHasItsRequest(s0: World, steps: seq<Step>, t: Tid, r: Request)
    requires Initial(s0) && Runs(s0, steps) && Is(After(s0, steps), t, Executing)
    requires NulFree(r.container) && NulFree(r.command) && |EncodeRequest(r)| <= PAGE_SIZE
    requires After(s0, steps).workers[t].request == EncodeRequest(r)
    ensures After(s0, steps).workers[t].parsed == Parsed(r)
  {
    RunKeepsBase(s0, steps);
    var s := After(s0, steps);
    var w := s.workers[t];
    assert Knows(s, w);
    var page :| |page| == PAGE_SIZE && w.request <= page && GuestParse(page, |w.request|) == w.parsed;
    GuestReadsWhatHostWrote(r, page);
  }
}
