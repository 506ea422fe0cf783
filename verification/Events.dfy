/** The framed event stream: the producer in crates/bedrock-vmx/src/vm_state.rs and the reader
    `EventStream` in crates/bedrock-vm/src/events.rs. */
module Events {
  import opened Options
  import opened WireBytes

  const HEADER_SIZE: nat := 32

  const PENDING_SIZE: nat := 4096

  datatype Record = Record(seqNo: nat, tsc: nat, realTsc: nat, kind: nat, flags: nat, payload: Bytes)

  predicate RecordOk(r: Record) {
    r.seqNo < TWO64 && r.tsc < TWO64 && r.realTsc < TWO64 && r.kind < TWO16 && r.flags < TWO16 && |r.payload| < TWO32
  }

  predicate AllOk(rs: seq<Record>) { forall i :: 0 <= i < |rs| ==> RecordOk(rs[i]) }

  function AlignUp(n: nat): (m: nat)
    ensures n <= m < n + 8
  {
    if n % 8 == 0 then n else n + (8 - n % 8)
  }

  function Zeros(n: nat): (z: Bytes)
    ensures |z| == n
  {
    seq(n, _ => '\0')
  }

  // Writing

  function Join(parts: seq<Bytes>): Bytes { if parts == [] then "" else parts[0] + Join(parts[1..]) }

  function Fields(r: Record): seq<Bytes> {
    [LE64(r.seqNo), LE64(r.tsc), LE64(r.realTsc), LE16(r.kind), LE16(r.flags), LE32(|r.payload|)]
  }

  lemma JoinSix(a: Bytes, b: Bytes, c: Bytes, d: Bytes, e: Bytes, f: Bytes)
    ensures Join([a, b, c, d, e, f]) == a + b + c + d + e + f
  {
    var parts := [a, b, c, d, e, f];
    assert parts[1..] == [b, c, d, e, f] && [b, c, d, e, f][1..] == [c, d, e, f] && [c, d, e, f][1..] == [d, e, f];
    assert [d, e, f][1..] == [e, f] && [e, f][1..] == [f] && [f][1..] == [];
    assert Join([f]) == f;
    assert Join([e, f]) == e + f;
    assert Join([d, e, f]) == d + (e + f);
    assert Join([c, d, e, f]) == c + (d + (e + f));
    assert Join([b, c, d, e, f]) == b + (c + (d + (e + f)));
  }

  function Header(r: Record): (h: Bytes)
    ensures |h| == HEADER_SIZE
  {
    JoinSix(LE64(r.seqNo), LE64(r.tsc), LE64(r.realTsc), LE16(r.kind), LE16(r.flags), LE32(|r.payload|));
    Join(Fields(r))
  }

  /** One record: header, payload, zeros up to the next multiple of eight. */
  function Frame(r: Record): (f: Bytes)
    ensures |f| == HEADER_SIZE + AlignUp(|r.payload|)
  {
    Header(r) + r.payload + Zeros(AlignUp(|r.payload|) - |r.payload|)
  }

  function Frames(rs: seq<Record>): Bytes { if rs == [] then "" else Frame(rs[0]) + Frames(rs[1..]) }

  // Reading

  /** The record at the start of `b`, if its header and payload are there. */
  function ParseOne(b: Bytes): Option<Record> {
    if |b| < HEADER_SIZE || |b| - HEADER_SIZE < FromLE32(b[28..32]) then None
    else
      Some(Record(FromLE64(b[..8]), FromLE64(b[8..16]), FromLE64(b[16..24]), FromLE16(b[24..26]), FromLE16(b[26..28]),
                  b[HEADER_SIZE..HEADER_SIZE + FromLE32(b[28..32])]))
  }

  lemma AlignedUp(n: nat)
    ensures AlignUp(n) % 8 == 0
  {}

  /** How far a record moves the reader. */
  function Stride(r: Record): (n: nat)
    ensures n >= HEADER_SIZE
  {
    AlignUp(HEADER_SIZE + |r.payload|)
  }

  /** Everything a reader gets out of `b`. */
  function Parse(b: Bytes): seq<Record>
    decreases |b|
  {
    match ParseOne(b)
    case None => []
    case Some(r) => [r] + if Stride(r) <= |b| then Parse(b[Stride(r)..]) else []
  }

  /** The reader as it is: a buffer and an offset. */
  class EventStream {
    const buf: Bytes
    var off: nat

    constructor (b: Bytes)
      ensures buf == b && off == 0
    {
      buf, off := b, 0;
    }

    /** What is still to come. */
    ghost function Rest(): seq<Record>
      reads this
    {
      if off <= |buf| then Parse(buf[off..]) else []
    }

    /** The next record, or none at a cut or at the end, on any bytes whatever. The offset moves strictly
        forward, by a multiple of eight, and stays where it is at the end. */
    method Next() returns (r: Option<Record>)
      modifies this
      ensures r.Some? ==> old(Rest()) == [r.value] + Rest() && old(off) + HEADER_SIZE <= |buf|
      ensures r.Some? ==> off >= old(off) + HEADER_SIZE && (off - old(off)) % 8 == 0
      ensures r.None? ==> old(Rest()) == [] && off == old(off)
    {
      if off > |buf| { return None; }
      var rest := buf[off..];
      r := ParseOne(rest);
      if r.None? {
        ParseNone(rest);
        return None;
      }
      var next := Stride(r.value);
      AlignedUp(HEADER_SIZE + |r.value.payload|);
      ParseSome(rest, r.value, if next <= |rest| then rest[next..] else "");
      assert next <= |rest| ==> rest[next..] == buf[off + next..];
      off := off + next;
    }
  }

  /** Draining a buffer ends, on any bytes, with everything the buffer holds. */
  method Drain(buf: Bytes) returns (rs: seq<Record>)
    ensures rs == Parse(buf)
  {
    var s := new EventStream(buf);
    rs := [];
    assert buf[0..] == buf;
    ghost var all := s.Rest();
    while true
      invariant s.buf == buf && rs + s.Rest() == all
      decreases if s.off <= |buf| then |buf| - s.off + 1 else 0
    {
      var r := s.Next();
      if r.None? { break; }
      OneMore(rs, r.value, s.Rest());
      rs := rs + [r.value];
    }
  }

  lemma OneMore(rs: seq<Record>, r: Record, rest: seq<Record>)
    ensures rs + ([r] + rest) == rs + [r] + rest
  {}

  // Cutting a well-framed buffer

  /** The bytes of a record that a reader needs. */
  function Core(r: Record): (c: Bytes)
    ensures |c| == HEADER_SIZE + |r.payload|
  {
    Header(r) + r.payload
  }

  lemma HeaderSlices(a: Bytes, b: Bytes, c: Bytes, d: Bytes, e: Bytes, f: Bytes, h: Bytes, x: Bytes)
    requires |a| == |b| == |c| == 8 && |d| == |e| == 2 && |f| == 4 && h == a + b + c + d + e + f && h <= x
    ensures x[..8] == a && x[8..16] == b && x[16..24] == c && x[24..26] == d && x[26..28] == e && x[28..32] == f
  {
    assert x[..8] == h[..8] && x[8..16] == h[8..16] && x[16..24] == h[16..24];
    assert x[24..26] == h[24..26] && x[26..28] == h[26..28] && x[28..32] == h[28..32];
  }

  lemma HeaderReads(r: Record, b: Bytes)
    requires RecordOk(r) && Header(r) <= b
    ensures FromLE64(b[..8]) == r.seqNo && FromLE64(b[8..16]) == r.tsc && FromLE64(b[16..24]) == r.realTsc
    ensures FromLE16(b[24..26]) == r.kind && FromLE16(b[26..28]) == r.flags && FromLE32(b[28..32]) == |r.payload|
  {
    var h := Header(r);
    JoinSix(LE64(r.seqNo), LE64(r.tsc), LE64(r.realTsc), LE16(r.kind), LE16(r.flags), LE32(|r.payload|));
    HeaderSlices(LE64(r.seqNo), LE64(r.tsc), LE64(r.realTsc), LE16(r.kind), LE16(r.flags), LE32(|r.payload|), h, b);
    LE64RoundTrip(r.seqNo);
    LE64RoundTrip(r.tsc);
    LE64RoundTrip(r.realTsc);
    LE16RoundTrip(r.kind);
    LE16RoundTrip(r.flags);
    LE32RoundTrip(|r.payload|);
  }

  lemma ParseOneReads(r: Record, b: Bytes)
    requires RecordOk(r) && Core(r) <= b
    ensures ParseOne(b) == Some(r)
  {
    CoreSlices(Header(r), r.payload, b);
    HeaderReads(r, b);
  }

  lemma CoreSlices(h: Bytes, payload: Bytes, b: Bytes)
    requires h + payload <= b
    ensures h <= b && b[|h|..|h| + |payload|] == payload
  {
    var c := h + payload;
    assert c[..|h|] == h && c[|h|..] == payload;
    assert b[..|c|] == c;
  }

  /** A record whose core is cut off gives nothing. */
  lemma ParseOneCut(r: Record, b: Bytes)
    requires RecordOk(r) && |b| < |Core(r)| && b <= Core(r)
    ensures ParseOne(b) == None
  {
    if |b| >= HEADER_SIZE {
      assert Core(r)[..HEADER_SIZE] == Header(r);
      assert Header(r) <= b;
      HeaderReads(r, b);
    }
  }

  function CoreLen(r: Record): nat { HEADER_SIZE + |r.payload| }

  /** How many records of `rs` have header and payload within the first `n` bytes. */
  function Fitting(rs: seq<Record>, n: nat): (k: nat)
    ensures k <= |rs|
  {
    if rs == [] || CoreLen(rs[0]) > n then 0
    else 1 + Fitting(rs[1..], if Stride(rs[0]) <= n then n - Stride(rs[0]) else 0)
  }

  lemma AlignShift(n: nat)
    ensures AlignUp(HEADER_SIZE + n) == HEADER_SIZE + AlignUp(n)
  {
    assert (HEADER_SIZE + n) % 8 == n % 8;
  }

  lemma StrideIsFrame(r: Record)
    ensures Stride(r) == |Frame(r)| && CoreLen(r) == |Core(r)| <= Stride(r)
  {
    AlignShift(|r.payload|);
  }

  lemma FrameStarts(rs: seq<Record>, n: nat)
    requires rs != [] && n <= |Frames(rs)|
    ensures var b := Frames(rs)[..n]; if |Core(rs[0])| <= n then Core(rs[0]) <= b else b <= Core(rs[0])
  {
    assert Core(rs[0]) <= Frame(rs[0]);
    assert Frame(rs[0]) <= Frames(rs);
  }

  lemma FramesTail(f: Bytes, rest: Bytes, n: nat)
    requires |f| <= n <= |f + rest|
    ensures (f + rest)[..n][|f|..] == rest[..n - |f|]
  {}

  lemma ParseNone(b: Bytes)
    requires ParseOne(b) == None
    ensures Parse(b) == []
  {}

  lemma ParseSome(b: Bytes, r: Record, rest: Bytes)
    requires ParseOne(b) == Some(r) && (Stride(r) <= |b| ==> b[Stride(r)..] == rest)
    ensures Parse(b) == if Stride(r) <= |b| then [r] + Parse(rest) else [r]
  {}

  /** What the first record contributes. */
  lemma CutFirst(rs: seq<Record>, n: nat, b: Bytes, rest: Bytes)
    requires AllOk(rs) && rs != [] && n <= |Frames(rs)| && b == Frames(rs)[..n]
    requires Stride(rs[0]) <= n ==>
      n - Stride(rs[0]) <= |Frames(rs[1..])| && rest == Frames(rs[1..])[..n - Stride(rs[0])]
    ensures Parse(b) ==
      if CoreLen(rs[0]) > n then [] else if Stride(rs[0]) <= n then [rs[0]] + Parse(rest) else [rs[0]]
  {
    var r := rs[0];
    FrameStarts(rs, n);
    StrideIsFrame(r);
    if CoreLen(r) > n {
      ParseOneCut(r, b);
      ParseNone(b);
    } else {
      ParseOneReads(r, b);
      if Stride(r) <= n { FramesTail(Frame(r), Frames(rs[1..]), n); }
      ParseSome(b, r, rest);
    }
  }

  /** Reading any cut of a well-framed buffer gives exactly the records that fit, in order and intact. */
  lemma {:induction false} CutReadsFitting(rs: seq<Record>, n: nat)
    requires AllOk(rs) && n <= |Frames(rs)|
    ensures Parse(Frames(rs)[..n]) == rs[..Fitting(rs, n)]
    decreases |rs|
  {
    if rs == [] {
      ParseNone("");
    } else {
      StrideIsFrame(rs[0]);
      var m := if Stride(rs[0]) <= n then n - Stride(rs[0]) else 0;
      CutFirst(rs, n, Frames(rs)[..n], Frames(rs[1..])[..m]);
      if CoreLen(rs[0]) <= n {
        if Stride(rs[0]) <= n { CutReadsFitting(rs[1..], m); } else { NothingFits(rs[1..]); }
        Prefixes(rs, Fitting(rs, n));
      }
    }
  }

  lemma Prefixes(rs: seq<Record>, k: nat)
    requires 0 < k <= |rs|
    ensures rs[..k] == [rs[0]] + rs[1..][..k - 1]
  {}

  lemma NothingFits(rs: seq<Record>)
    ensures Fitting(rs, 0) == 0
  {}

  /** The whole buffer gives all records. */
  lemma {:induction false} AllFit(rs: seq<Record>)
    ensures Fitting(rs, |Frames(rs)|) == |rs|
    decreases |rs|
  {
    if rs != [] {
      StrideIsFrame(rs[0]);
      AllFit(rs[1..]);
    }
  }

  lemma ReadsBack(rs: seq<Record>)
    requires AllOk(rs)
    ensures Parse(Frames(rs)) == rs
  {
    AllFit(rs);
    CutReadsFitting(rs, |Frames(rs)|);
    assert Frames(rs)[..|Frames(rs)|] == Frames(rs) && rs[..|rs|] == rs;
  }

  lemma FramesCons(rs: seq<Record>, f: Bytes, rest: Bytes)
    requires rs != [] && f == Frame(rs[0]) && rest == Frames(rs[1..])
    ensures Frames(rs) == f + rest
  {}

  /** Where the core of record `k` ends. */
  function CoreEnd(rs: seq<Record>, k: nat): nat
    requires k < |rs|
  {
    if k == 0 then CoreLen(rs[0]) else Stride(rs[0]) + CoreEnd(rs[1..], k - 1)
  }

  lemma {:induction false} CoreEndIsOffset(rs: seq<Record>, k: nat)
    requires k < |rs|
    ensures CoreEnd(rs, k) == |Frames(rs[..k])| + CoreLen(rs[k])
    decreases k
  {
    if k > 0 {
      StrideIsFrame(rs[0]);
      CoreEndIsOffset(rs[1..], k - 1);
      CoreEndCons(rs, k, Stride(rs[0]));
      assert rs[..k][1..] == rs[1..][..k - 1];
      FramesCons(rs[..k], Frame(rs[0]), Frames(rs[1..][..k - 1]));
    }
  }

  lemma FittingCons(rs: seq<Record>, n: nat, c: nat, d: nat)
    requires rs != [] && c == CoreLen(rs[0]) && d == Stride(rs[0])
    ensures Fitting(rs, n) == if c > n then 0 else 1 + Fitting(rs[1..], if d <= n then n - d else 0)
  {}

  lemma CoreEndCons(rs: seq<Record>, k: nat, d: nat)
    requires 0 < k < |rs| && d == Stride(rs[0])
    ensures CoreEnd(rs, k) == d + CoreEnd(rs[1..], k - 1)
  {}

  /** The next record starts past the cut. */
  lemma LongestPast(rs: seq<Record>, n: nat, k: nat)
    requires 0 < k < |rs| && n < Stride(rs[0])
    ensures Fitting(rs, n) <= k && n < CoreEnd(rs, k)
  {
    FittingCons(rs, n, CoreLen(rs[0]), Stride(rs[0]));
    NothingFits(rs[1..]);
    CoreEndCons(rs, k, Stride(rs[0]));
  }

  /** The first record lies within the cut. */
  lemma LongestWithin(rs: seq<Record>, n: nat, k: nat)
    requires 0 < k < |rs| && Stride(rs[0]) <= n
    requires k - 1 < Fitting(rs[1..], n - Stride(rs[0])) <==> CoreEnd(rs[1..], k - 1) <= n - Stride(rs[0])
    ensures k < Fitting(rs, n) <==> CoreEnd(rs, k) <= n
  {
    StrideIsFrame(rs[0]);
    FittingCons(rs, n, CoreLen(rs[0]), Stride(rs[0]));
    CoreEndCons(rs, k, Stride(rs[0]));
  }

  /** The number read is the longest prefix that fits: record `k` is read exactly when its core lies within
      the cut. */
  lemma {:induction false} FittingIsLongest(rs: seq<Record>, n: nat, k: nat)
    requires k < |rs|
    ensures k < Fitting(rs, n) <==> CoreEnd(rs, k) <= n
    decreases |rs|
  {
    if k == 0 {
      FittingCons(rs, n, CoreLen(rs[0]), Stride(rs[0]));
    } else if Stride(rs[0]) <= n {
      FittingIsLongest(rs[1..], n - Stride(rs[0]), k - 1);
      LongestWithin(rs, n, k);
    } else {
      LongestPast(rs, n, k);
    }
  }
}
