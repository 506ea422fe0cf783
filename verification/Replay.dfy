/** Recording the inputs of a run and replaying them: crates/bedrock-lab/src/rng.rs. */
module Replay {
  import opened Options
  import opened WireBytes
  import BashWire

  /** One randomness record of the event stream. */
  datatype Randomness = Instruction(value: nat) | GetRandom(pid: nat, bytes: Bytes)

  /** A captured I/O channel request and the time it was signalled to the guest. */
  datatype Signal = Signal(at: nat, data: Bytes)

  datatype IoInput = IoInput(at: nat, request: BashWire.Request)

  /** How a served value is kept: a word as its eight bytes, a buffer as it is. */
  function Kept(r: Randomness): Bytes { if r.Instruction? then LE64(r.value) else r.bytes }

  /** `n` bytes: cut, or filled up with zeros. */
  function Resized(b: Bytes, n: nat): (c: Bytes)
    ensures |c| == n
  {
    if n <= |b| then b[..n] else b + seq(n - |b|, _ => '\0')
  }

  function KeptAll(rs: seq<Randomness>): seq<Bytes> { seq(|rs|, i requires 0 <= i < |rs| => Kept(rs[i])) }

  /** How captured bytes are read as a request. */
  type Decoding = Bytes -> Option<BashWire.Request>

  /** The requests that decode, each with its time. */
  function Inputs(signals: seq<Signal>, d: Decoding): seq<IoInput> {
    if signals == [] then []
    else
      var last := signals[|signals| - 1];
      var before := Inputs(signals[..|signals| - 1], d);
      match d(last.data)
      case None => before
      case Some(r) => before + [IoInput(last.at, r)]
  }

  class InputRecording {
    var random: seq<Bytes>
    var io: seq<IoInput>

    constructor ()
      ensures random == [] && io == []
    {
      random, io := [], [];
    }

    method RecordRandomness(r: Randomness, ghost past: seq<Randomness>)
      requires random == KeptAll(past)
      modifies this`random
      ensures random == KeptAll(past + [r])
    {
      random := random + [Kept(r)];
    }

    method RecordSignal(s: Signal, ghost past: seq<Signal>)
      requires io == Inputs(past, BashWire.DecodeRequest)
      modifies this`io
      ensures io == Inputs(past + [s], BashWire.DecodeRequest)
    {
      assert (past + [s])[..|past|] == past;
      var r := BashWire.DecodeRequest(s.data);
      if r.Some? { io := io + [IoInput(s.at, r.value)]; }
    }
  }

  class RecordedInputSource {
    const random: seq<Bytes>
    const io: seq<IoInput>
    var randomPos: nat
    var ioPos: nat

    constructor (random: seq<Bytes>, io: seq<IoInput>)
      ensures this.random == random && this.io == io && randomPos == 0 && ioPos == 0
    {
      this.random, this.io, randomPos, ioPos := random, io, 0, 0;
    }

    method NextRngU64() returns (v: Option<nat>)
      modifies this`randomPos
      ensures v == if old(randomPos) < |random| then Some(FromLE64(Resized(random[old(randomPos)], 8))) else None
      ensures randomPos == if v.Some? then old(randomPos) + 1 else old(randomPos)
    {
      if randomPos >= |random| { return None; }
      v := Some(FromLE64(Resized(random[randomPos], 8)));
      randomPos := randomPos + 1;
    }

    /** Always exactly `len` bytes; zeros past the end of the recording. */
    method NextRandom(len: nat) returns (b: Bytes)
      modifies this`randomPos
      ensures b == Resized(if old(randomPos) < |random| then random[old(randomPos)] else "", len)
      ensures randomPos == old(randomPos) + 1
    {
      var kept := if randomPos < |random| then random[randomPos] else "";
      randomPos := randomPos + 1;
      b := Resized(kept, len);
    }

    method NextIoInput() returns (r: Option<IoInput>)
      modifies this`ioPos
      ensures r == if old(ioPos) < |io| then Some(io[old(ioPos)]) else None
      ensures ioPos == if r.Some? then old(ioPos) + 1 else old(ioPos)
    {
      if ioPos >= |io| { return None; }
      r := Some(io[ioPos]);
      ioPos := ioPos + 1;
    }
  }

  // Replaying answers every request as it was answered

  /** What a run asks its source for. */
  datatype Ask = Word | Buffer(len: nat) | Io

  datatype Answer = AWord(value: Option<nat>) | ABuffer(bytes: Bytes) | AInput(input: Option<IoInput>)

  ghost predicate Valid(r: Randomness) { if r.Instruction? then r.value < TWO64 else ByteString(r.bytes) }

  /** The request a record answers, and its answer. */
  function AskFor(r: Randomness): Ask { if r.Instruction? then Word else Buffer(|r.bytes|) }

  function Served(r: Randomness): Answer { if r.Instruction? then AWord(Some(r.value)) else ABuffer(r.bytes) }

  /** What the replay answers from the next record, or past the end. */
  function AnswerFrom(ask: Ask, r: Option<Randomness>): Answer {
    match ask
    case Word => AWord(if r.Some? then Some(FromLE64(Resized(Kept(r.value), 8))) else None)
    case Buffer(n) => ABuffer(Resized(if r.Some? then Kept(r.value) else "", n))
    case Io => AInput(None)
  }

  /** How many bytes a request asks for, and the bytes an answer brings. */
  function Length(ask: Ask): nat {
    match ask
    case Word => 8
    case Buffer(n) => n
    case Io => 0
  }

  function Delivered(a: Answer): Option<Bytes> {
    match a
    case AWord(v) => if v.Some? then Some(LE64(v.value)) else None
    case ABuffer(b) => Some(b)
    case AInput(_) => None
  }

  /** The answer carries the first bytes that were kept, filled up with zeros. */
  lemma DeliversKept(ask: Ask, r: Randomness)
    requires Valid(r) && !ask.Io?
    ensures Delivered(AnswerFrom(ask, Some(r))) == Some(Resized(Kept(r), Length(ask)))
  {
    if ask.Word? {
      KeptIsBytes(r);
      var b := Resized(Kept(r), 8);
      LEBack(b);
    }
  }

  lemma KeptIsBytes(r: Randomness)
    requires Valid(r)
    ensures ByteString(Kept(r)) && |Kept(r)| == Length(AskFor(r))
  {
    if r.Instruction? { LEIsBytes(r.value, 8); }
  }

  lemma {:induction false} LEIsBytes(n: nat, k: nat)
    ensures ByteString(LE(n, k))
    decreases k
  {
    if k > 0 { LEIsBytes(n / 256, k - 1); }
  }

  /** A record delivers the bytes it was served with exactly to a request of the same length, a word counting
      as eight; the answer is the very same exactly if the request is also of the same kind. */
  lemma AnswersExactly(ask: Ask, r: Randomness)
    requires Valid(r) && !ask.Io?
    ensures Delivered(AnswerFrom(ask, Some(r))) == Delivered(Served(r)) <==> Length(ask) == Length(AskFor(r))
    ensures AnswerFrom(ask, Some(r)) == Served(r) <==> ask == AskFor(r)
  {
    DeliversKept(ask, r);
    KeptIsBytes(r);
    assert Delivered(Served(r)) == Some(Kept(r));
    if Length(ask) == |Kept(r)| { assert Kept(r)[..|Kept(r)|] == Kept(r); }
    if r.Instruction? { LE64RoundTrip(r.value); }
  }

  ghost predicate AsRecorded(answer: Answer, ask: Ask, r: Randomness) {
    && (Delivered(answer) == Delivered(Served(r)) <==> Length(ask) == Length(AskFor(r)))
    && (answer == Served(r) <==> ask == AskFor(r))
  }

  function RandomAsks(asks: seq<Ask>): seq<Ask> {
    if asks == [] then []
    else RandomAsks(asks[..|asks| - 1]) + if asks[|asks| - 1].Io? then [] else [asks[|asks| - 1]]
  }

  function RandomAnswers(answers: seq<Answer>): seq<Answer> {
    if answers == [] then []
    else RandomAnswers(answers[..|answers| - 1]) + if answers[|answers| - 1].AInput? then []
      else [answers[|answers| - 1]]
  }

  function InputAnswers(answers: seq<Answer>): seq<Option<IoInput>> {
    if answers == [] then []
    else InputAnswers(answers[..|answers| - 1]) + if answers[|answers| - 1].AInput? then [answers[|answers| - 1].input]
      else []
  }

  function At<T>(s: seq<T>, k: nat): Option<T> { if k < |s| then Some(s[k]) else None }

  /** The answer to the k-th request for randomness. */
  function Answering(rs: seq<Randomness>): (Ask, nat) -> Answer { (a: Ask, k: nat) => AnswerFrom(a, At(rs, k)) }

  function FromRecords(asks: seq<Ask>, f: (Ask, nat) -> Answer): seq<Answer> {
    seq(|asks|, k requires 0 <= k < |asks| => f(asks[k], k))
  }

  function FromInputs(n: nat, ins: seq<IoInput>): seq<Option<IoInput>> { seq(n, k requires 0 <= k => At(ins, k)) }

  /** The random answers come from the records in order, the inputs from the recorded inputs in order. */
  ghost predicate AnswersInOrder(answers: seq<Answer>, asks: seq<Ask>, f: (Ask, nat) -> Answer, ins: seq<IoInput>) {
    InOrder(RandomAnswers(answers), InputAnswers(answers), RandomAsks(asks), |asks|, f, ins)
  }

  ghost predicate InOrder(random: seq<Answer>, inputs: seq<Option<IoInput>>, asks: seq<Ask>, n: nat,
        f: (Ask, nat) -> Answer, ins: seq<IoInput>) {
    random == FromRecords(asks, f) && |inputs| == n - |asks| && inputs == FromInputs(|inputs|, ins)
  }

  lemma MoreRandom(random: seq<Answer>, inputs: seq<Option<IoInput>>, asks: seq<Ask>, n: nat, f: (Ask, nat) -> Answer,
        ins: seq<IoInput>, ask: Ask)
    requires InOrder(random, inputs, asks, n, f, ins)
    ensures InOrder(random + [f(ask, |asks|)], inputs, asks + [ask], n + 1, f, ins)
  {
    assert FromRecords(asks + [ask], f) == FromRecords(asks, f) + [f(ask, |asks|)];
  }

  lemma MoreInputs(random: seq<Answer>, inputs: seq<Option<IoInput>>, asks: seq<Ask>, n: nat, f: (Ask, nat) -> Answer,
        ins: seq<IoInput>)
    requires InOrder(random, inputs, asks, n, f, ins)
    ensures InOrder(random, inputs + [At(ins, |inputs|)], asks, n + 1, f, ins)
  {
    assert FromInputs(|inputs| + 1, ins) == FromInputs(|inputs|, ins) + [At(ins, |inputs|)];
  }

  /** The same one by one. */
  lemma EachInOrder(answers: seq<Answer>, asks: seq<Ask>, rs: seq<Randomness>, ins: seq<IoInput>)
    requires AnswersInOrder(answers, asks, Answering(rs), ins)
    ensures |RandomAnswers(answers)| == |RandomAsks(asks)|
    ensures forall k :: 0 <= k < |RandomAsks(asks)| ==>
      RandomAnswers(answers)[k] == AnswerFrom(RandomAsks(asks)[k], At(rs, k))
    ensures |InputAnswers(answers)| == |asks| - |RandomAsks(asks)|
    ensures forall k :: 0 <= k < |InputAnswers(answers)| ==> InputAnswers(answers)[k] == At(ins, k)
  {
    var f, random, inputs := Answering(rs), RandomAnswers(answers), InputAnswers(answers);
    forall k | 0 <= k < |RandomAsks(asks)| ensures random[k] == AnswerFrom(RandomAsks(asks)[k], At(rs, k)) {
      assert random[k] == FromRecords(RandomAsks(asks), f)[k] == f(RandomAsks(asks)[k], k);
    }
    forall k | 0 <= k < |inputs| ensures inputs[k] == At(ins, k) {
      assert inputs[k] == FromInputs(|inputs|, ins)[k];
    }
  }

  /** Record a run, through the event stream, and replay it: `asks` is what the replayed run asks for, inputs
      interleaved in any way. The k-th request for randomness gets the bytes of the recorded run exactly when
      it asks for as many, and the inputs come back in order. */
  method RecordAndReplay(rs: seq<Randomness>, signals: seq<Signal>, asks: seq<Ask>) returns (answers: seq<Answer>)
    requires forall k :: 0 <= k < |rs| ==> Valid(rs[k])
    ensures |RandomAnswers(answers)| == |RandomAsks(asks)|
    ensures forall k :: 0 <= k < |RandomAsks(asks)| && k < |rs| ==>
      AsRecorded(RandomAnswers(answers)[k], RandomAsks(asks)[k], rs[k])
    ensures forall k :: |rs| <= k < |RandomAsks(asks)| ==>
      RandomAnswers(answers)[k] == AnswerFrom(RandomAsks(asks)[k], None)
    ensures |InputAnswers(answers)| == |asks| - |RandomAsks(asks)|
    ensures forall k :: 0 <= k < |InputAnswers(answers)| ==>
      InputAnswers(answers)[k] == At(Inputs(signals, BashWire.DecodeRequest), k)
  {
    var recording := Record(rs, signals);
    answers := Answers(recording.random, recording.io, rs, asks);
    EachInOrder(answers, asks, rs, recording.io);
    forall k | 0 <= k < |RandomAsks(asks)| && k < |rs|
      ensures AsRecorded(RandomAnswers(answers)[k], RandomAsks(asks)[k], rs[k])
    {
      NoIoAmongRandom(asks, k);
      AnswersExactly(RandomAsks(asks)[k], rs[k]);
    }
  }

  method Record(rs: seq<Randomness>, signals: seq<Signal>) returns (recording: InputRecording)
    ensures fresh(recording) && recording.random == KeptAll(rs)
    ensures recording.io == Inputs(signals, BashWire.DecodeRequest)
  {
    recording := new InputRecording();
    for i := 0 to |rs|
      invariant recording.random == KeptAll(rs[..i]) && recording.io == []
    {
      recording.RecordRandomness(rs[i], rs[..i]);
      assert rs[..i] + [rs[i]] == rs[..i + 1];
    }
    assert rs[..|rs|] == rs;
    for i := 0 to |signals|
      invariant recording.random == KeptAll(rs) && recording.io == Inputs(signals[..i], BashWire.DecodeRequest)
    {
      recording.RecordSignal(signals[i], signals[..i]);
      assert signals[..i] + [signals[i]] == signals[..i + 1];
    }
    assert signals[..|signals|] == signals;
  }

  method Answers(random: seq<Bytes>, io: seq<IoInput>, ghost rs: seq<Randomness>, asks: seq<Ask>)
    returns (answers: seq<Answer>)
    requires random == KeptAll(rs)
    ensures AnswersInOrder(answers, asks, Answering(rs), io)
  {
    var source := new RecordedInputSource(random, io);
    answers := [];
    for i := 0 to |asks|
      invariant source.random == random && source.io == io
      invariant AnswersInOrder(answers, asks[..i], Answering(rs), io)
      invariant Reached(source, |RandomAsks(asks[..i])|, |InputAnswers(answers)|)
    {
      var answer := AnswerOne(source, asks[i], rs, |RandomAsks(asks[..i])|, |InputAnswers(answers)|);
      OneMore(answers, asks[..i], asks[..i + 1], Answering(rs), io, asks[i], answer);
      answers := answers + [answer];
    }
    assert asks[..|asks|] == asks;
  }

  /** After `c` requests for randomness and `d` for inputs each cursor is at the entry that comes next, as
      long as there is one. */
  ghost predicate Reached(source: RecordedInputSource, c: nat, d: nat)
    reads source
  {
    && (if c <= |source.random| then source.randomPos == c else source.randomPos >= |source.random|)
    && source.ioPos == if d <= |source.io| then d else |source.io|
  }

  method AnswerOne(source: RecordedInputSource, ask: Ask, ghost rs: seq<Randomness>, ghost c: nat, ghost d: nat)
    returns (answer: Answer)
    requires source.random == KeptAll(rs) && Reached(source, c, d)
    modifies source
    ensures answer == if ask.Io? then AInput(At(source.io, d)) else AnswerFrom(ask, At(rs, c))
    ensures Reached(source, if ask.Io? then c else c + 1, if ask.Io? then d + 1 else d)
  {
    match ask {
      case Word =>
        var v := source.NextRngU64();
        answer := AWord(v);
      case Buffer(n) =>
        var b := source.NextRandom(n);
        answer := ABuffer(b);
      case Io =>
        var r := source.NextIoInput();
        answer := AInput(r);
    }
  }

  lemma OneMore(answers: seq<Answer>, asks: seq<Ask>, asks': seq<Ask>, f: (Ask, nat) -> Answer, ins: seq<IoInput>,
        ask: Ask, answer: Answer)
    requires AnswersInOrder(answers, asks, f, ins) && asks' == asks + [ask] && (ask.Io? <==> answer.AInput?)
    requires answer == if ask.Io? then AInput(At(ins, |InputAnswers(answers)|)) else f(ask, |RandomAsks(asks)|)
    ensures AnswersInOrder(answers + [answer], asks', f, ins)
    ensures |RandomAsks(asks')| == |RandomAsks(asks)| + (if ask.Io? then 0 else 1)
    ensures |InputAnswers(answers + [answer])| == |InputAnswers(answers)| + (if ask.Io? then 1 else 0)
  {
    AskSnoc(asks, ask);
    AnswerSnoc(answers, answer);
    var random, inputs, before := RandomAnswers(answers), InputAnswers(answers), RandomAsks(asks);
    assert random + [] == random && inputs + [] == inputs && before + [] == before;
    if ask.Io? {
      MoreInputs(random, inputs, before, |asks|, f, ins);
    } else {
      MoreRandom(random, inputs, before, |asks|, f, ins, ask);
    }
  }

  lemma AskSnoc(asks: seq<Ask>, ask: Ask)
    ensures RandomAsks(asks + [ask]) == RandomAsks(asks) + if ask.Io? then [] else [ask]
  {
    assert (asks + [ask])[..|asks|] == asks;
  }

  lemma AnswerSnoc(answers: seq<Answer>, answer: Answer)
    ensures RandomAnswers(answers + [answer]) == RandomAnswers(answers) + if answer.AInput? then [] else [answer]
    ensures InputAnswers(answers + [answer]) == InputAnswers(answers) + if answer.AInput? then [answer.input] else []
  {
    assert (answers + [answer])[..|answers|] == answers;
  }

  lemma {:induction false} NoIoAmongRandom(asks: seq<Ask>, k: nat)
    requires k < |RandomAsks(asks)|
    ensures !RandomAsks(asks)[k].Io?
    decreases |asks|
  {
    var front := asks[..|asks| - 1];
    if k < |RandomAsks(front)| { NoIoAmongRandom(front, k); }
  }

  /** A request the guest will accept as it is. */
  ghost predicate Sendable(r: BashWire.Request) {
    BashWire.NulFree(r.container) && BashWire.NulFree(r.command) && |BashWire.EncodeRequest(r)| <= BashWire.PAGE_SIZE
  }

  function Signalled(i: IoInput): Signal { Signal(i.at, BashWire.EncodeRequest(i.request)) }

  function SignalsOf(ins: seq<IoInput>): seq<Signal> { seq(|ins|, i requires 0 <= i < |ins| => Signalled(ins[i])) }

  /** The signal is recorded as that input. */
  ghost predicate Records(s: Signal, i: IoInput, d: Decoding) { s.at == i.at && d(s.data) == Some(i.request) }

  lemma {:induction false} InputsRecorded(signals: seq<Signal>, ins: seq<IoInput>, d: Decoding)
    requires |signals| == |ins| && forall k :: 0 <= k < |ins| ==> Records(signals[k], ins[k], d)
    ensures Inputs(signals, d) == ins
    decreases |ins|
  {
    if ins != [] {
      var n := |ins| - 1;
      InputsRecorded(signals[..n], ins[..n], d);
      assert Records(signals[n], ins[n], d);
    }
  }

  lemma EncodedIsRecorded(i: IoInput)
    requires Sendable(i.request)
    ensures Records(Signalled(i), i, BashWire.DecodeRequest)
  {
    BashWire.DecodeRoundTrip(i.request);
  }

  /** Requests as the host encodes them are recorded as they were, in order, each at the time it was
      signalled; so a replay injects them again. */
  lemma SignalsAreRecorded(ins: seq<IoInput>)
    requires forall i :: 0 <= i < |ins| ==> Sendable(ins[i].request)
    ensures Inputs(SignalsOf(ins), BashWire.DecodeRequest) == ins
  {
    forall k | 0 <= k < |ins| ensures Records(SignalsOf(ins)[k], ins[k], BashWire.DecodeRequest) {
      EncodedIsRecorded(ins[k]);
    }
    InputsRecorded(SignalsOf(ins), ins, BashWire.DecodeRequest);
  }
}
