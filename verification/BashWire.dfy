/** The wire form of a bash request: crates/bedrock-vm/src/io_channel.rs on the host and the request
    parsing of guest/bedrock-io/bedrock-io.c in the guest. */
module BashWire {
  import opened Options
  import opened WireBytes

  const NUL: char := '\0'

  const IO_REQUEST_MAGIC: nat := 0xB10C1010

  const IO_FLAG_RECORD_OUTPUT: nat := 1

  const REQUEST_HEADER_LEN: nat := 12

  const PAGE_SIZE: nat := 4096

  predicate NulFree(s: Bytes) { forall i :: 0 <= i < |s| ==> s[i] != NUL }

  // Host side

  /** An empty container means the guest host. */
  datatype Request = Request(container: Bytes, command: Bytes, recordOutput: bool)

  function Payload(container: Bytes, command: Bytes): Bytes { container + [NUL] + command + [NUL] }

  function EncodeRequest(r: Request): Bytes {
    var payload := Payload(r.container, r.command);
    LE32(IO_REQUEST_MAGIC) + LE32(if r.recordOutput then IO_FLAG_RECORD_OUTPUT else 0) + LE32(|payload|) + payload
  }

  /** The position of the first NUL, or the end. */
  function NulAt(b: Bytes): (n: nat)
    ensures n <= |b| && (n < |b| ==> b[n] == NUL)
  {
    if b == "" || b[0] == NUL then 0 else 1 + NulAt(b[1..])
  }

  function AfterNul(b: Bytes): Bytes { if NulAt(b) < |b| then b[NulAt(b) + 1..] else "" }

  function HostPayload(bytes: Bytes): Bytes {
    if |bytes| >= REQUEST_HEADER_LEN then bytes[REQUEST_HEADER_LEN..] else ""
  }

  /** `decode_request`: the declared payload length is not looked at. */
  function DecodeRequest(bytes: Bytes): Option<Request> {
    if |bytes| < 4 || FromLE32(bytes[..4]) != IO_REQUEST_MAGIC || |bytes| < 8 then None
    else
      var p := HostPayload(bytes);
      Some(Request(Field(p), Field(AfterNul(p)), FromLE32(bytes[4..8]) % 2 == 1))
  }

  // Guest side

  datatype Parsed =
    | Nothing                       // no request, or one the worker drops without answering
    | Malformed(record: bool)       // answered with an error
    | Parsed(request: Request)

  /** What a worker makes of the shared page after GET_REQUEST returned `len` (none for an error). */
  function GuestParse(page: Bytes, len: nat): Parsed
    requires |page| == PAGE_SIZE && len <= PAGE_SIZE
  {
    if len < REQUEST_HEADER_LEN then Nothing
    else if FromLE32(page[..4]) != IO_REQUEST_MAGIC then Nothing
    else if REQUEST_HEADER_LEN + FromLE32(page[8..12]) > len then Nothing
    else ParsePayload(page[REQUEST_HEADER_LEN..REQUEST_HEADER_LEN + FromLE32(page[8..12])],
      FromLE32(page[4..8]) % 2 == 1)
  }

  function ParsePayload(p: Bytes, record: bool): Parsed {
    if NulAt(p) == |p| then Malformed(record)
    else
      var rest := p[NulAt(p) + 1..];
      if NulAt(rest) == |rest| then Malformed(record)
      else Parsed(Request(p[..NulAt(p)], rest[..NulAt(rest)], record))
  }

  // First NULs

  lemma {:induction false} NulAtFirst(s: Bytes, rest: Bytes)
    requires NulFree(s)
    ensures NulAt(s + [NUL] + rest) == |s|
    decreases |s|
  {
    if s != "" {
      assert (s + [NUL] + rest)[1..] == s[1..] + [NUL] + rest;
      NulAtFirst(s[1..], rest);
    }
  }

  lemma {:induction false} NulAtPrefix(b: Bytes, n: nat)
    requires n <= |b|
    ensures NulAt(b[..n]) == if NulAt(b) < n then NulAt(b) else n
    decreases |b|
  {
    if b != "" && b[0] != NUL && n > 0 {
      NulAtPrefix(b[1..], n - 1);
      assert b[..n][1..] == b[1..][..n - 1];
    }
  }

  // Round trips

  lemma PayloadParses(container: Bytes, command: Bytes, record: bool)
    requires NulFree(container) && NulFree(command)
    ensures ParsePayload(Payload(container, command), record) == Parsed(Request(container, command, record))
  {
    var p := Payload(container, command);
    assert p == container + [NUL] + (command + [NUL]);
    NulAtFirst(container, command + [NUL]);
    assert p[..|container|] == container && p[|container| + 1..] == command + [NUL];
    assert command + [NUL] == command + [NUL] + "";
    NulAtFirst(command, "");
    assert (command + [NUL])[..|command|] == command;
  }

  lemma HeaderReads(r: Request)
    requires |EncodeRequest(r)| <= PAGE_SIZE
    ensures var e := EncodeRequest(r); var n := |Payload(r.container, r.command)|;
      && |e| == REQUEST_HEADER_LEN + n
      && FromLE32(e[..4]) == IO_REQUEST_MAGIC && (FromLE32(e[4..8]) % 2 == 1 <==>
        r.recordOutput) && FromLE32(e[8..12]) == n
      && e[REQUEST_HEADER_LEN..] == Payload(r.container, r.command)
  {
    var e, p := EncodeRequest(r), Payload(r.container, r.command);
    var f := if r.recordOutput then IO_FLAG_RECORD_OUTPUT else 0;
    assert e[..4] == LE32(IO_REQUEST_MAGIC) && e[4..8] == LE32(f) && e[8..12] == LE32(|p|);
    LE32RoundTrip(IO_REQUEST_MAGIC);
    LE32RoundTrip(f);
    LE32RoundTrip(|p|);
  }

  /** The guest reads only the header fields and the payload behind them. */
  lemma ParseReadsFields(page: Bytes, e: Bytes)
    requires |page| == PAGE_SIZE && REQUEST_HEADER_LEN <= |e| <= PAGE_SIZE && e <= page
    requires FromLE32(e[..4]) == IO_REQUEST_MAGIC && REQUEST_HEADER_LEN + FromLE32(e[8..12]) == |e|
    ensures GuestParse(page, |e|) == ParsePayload(e[REQUEST_HEADER_LEN..], FromLE32(e[4..8]) % 2 == 1)
  {
    assert page[..4] == e[..4] && page[4..8] == e[4..8] && page[8..12] == e[8..12];
    assert page[REQUEST_HEADER_LEN..|e|] == e[REQUEST_HEADER_LEN..];
  }

  /** A request whose strings have no NUL, delivered into the shared page over whatever was there, is
      parsed by the guest to exactly those strings. */
  lemma GuestReadsWhatHostWrote(r: Request, page: Bytes)
    requires NulFree(r.container) && NulFree(r.command) && |EncodeRequest(r)| <= PAGE_SIZE
    requires |page| == PAGE_SIZE && EncodeRequest(r) <= page
    ensures GuestParse(page, |EncodeRequest(r)|) == Parsed(r)
  {
    HeaderReads(r);
    ParseReadsFields(page, EncodeRequest(r));
    PayloadParses(r.container, r.command, r.recordOutput);
  }

  /** The host's decoder of captured requests reads back what was encoded. */
  lemma DecodeRoundTrip(r: Request)
    requires NulFree(r.container) && NulFree(r.command) && |EncodeRequest(r)| <= PAGE_SIZE
    ensures DecodeRequest(EncodeRequest(r)) == Some(r)
  {
    HeaderReads(r);
    PayloadFields(r.container, r.command);
  }

  lemma PayloadFields(container: Bytes, command: Bytes)
    requires NulFree(container) && NulFree(command)
    ensures var p := Payload(container, command); Field(p) == container && Field(AfterNul(p)) == command
  {
    var p, tail := Payload(container, command), command + [NUL] + "";
    assert p == container + [NUL] + tail;
    FieldOfCut(container, tail, |p|, p);
    FieldOfCut(command, "", |tail|, AfterNul(p));
  }

  lemma FieldExtends(p: Bytes, q: Bytes)
    requires p <= q && NulAt(p) < |p|
    ensures Field(q) == Field(p) && AfterNul(p) <= AfterNul(q)
  {
    assert q[..|p|] == p;
    NulAtPrefix(q, |p|);
    PrefixParts(p, q, NulAt(p));
  }

  lemma PrefixParts(p: Bytes, q: Bytes, n: nat)
    requires p <= q && n < |p|
    ensures p[..n] == q[..n] && p[n + 1..] <= q[n + 1..]
  {}

  /** Bytes after both NULs do not matter. */
  lemma PayloadExtends(p: Bytes, q: Bytes, record: bool)
    requires ParsePayload(p, record).Parsed? && p <= q
    ensures Parsed(Request(Field(q), Field(AfterNul(q)), record)) == ParsePayload(p, record)
  {
    FieldExtends(p, q);
    FieldExtends(AfterNul(p), AfterNul(q));
  }

  /** On every page the guest accepts, the host's decoder sees the same request, although it ignores the
      declared payload length the guest relies on. */
  lemma HostAgreesWithGuest(page: Bytes, len: nat)
    requires |page| == PAGE_SIZE && len <= PAGE_SIZE && GuestParse(page, len).Parsed?
    ensures DecodeRequest(page[..len]) == Some(GuestParse(page, len).request)
  {
    var n := FromLE32(page[8..12]);
    var p := page[REQUEST_HEADER_LEN..REQUEST_HEADER_LEN + n];
    assert page[..len][..4] == page[..4] && page[..len][4..8] == page[4..8];
    PayloadExtends(p, HostPayload(page[..len]), FromLE32(page[4..8]) % 2 == 1);
  }

  /** A request cut off anywhere decodes to prefixes of its fields with the same flag, and to nothing
      exactly when the cut is inside the first eight bytes. */
  lemma CutDecodesToPrefixes(bytes: Bytes, n: nat)
    requires DecodeRequest(bytes).Some? && n <= |bytes|
    ensures DecodeRequest(bytes[..n]).None? <==> n < 8
    ensures n >= 8 ==> var r, c := DecodeRequest(bytes).value, DecodeRequest(bytes[..n]).value;
      c.container <= r.container && c.command <= r.command && c.recordOutput == r.recordOutput
  {
    if n >= 8 {
      assert bytes[..n][..4] == bytes[..4] && bytes[..n][4..8] == bytes[4..8];
      var p := HostPayload(bytes);
      var k := if n >= REQUEST_HEADER_LEN then n - REQUEST_HEADER_LEN else 0;
      assert HostPayload(bytes[..n]) == p[..k];
      FieldsOfPrefix(p, k, HostPayload(bytes[..n]));
    } else if n >= 4 {
      assert bytes[..n][..4] == bytes[..4];
    }
  }

  /** The field before the first NUL. */
  function Field(b: Bytes): Bytes { b[..NulAt(b)] }

  lemma SlicePrefix(b: Bytes, n: nat, k: nat)
    requires n < k <= |b|
    ensures b[..k][n + 1..] == b[n + 1..][..k - n - 1]
  {}

  lemma FieldOfPrefix(b: Bytes, k: nat, c: Bytes)
    requires k <= |b| && c == b[..k]
    ensures Field(c) <= Field(b)
  {
    NulAtPrefix(b, k);
  }

  lemma AfterNulOfPrefix(b: Bytes, k: nat, c: Bytes) returns (j: nat)
    requires k <= |b| && c == b[..k]
    ensures j <= |AfterNul(b)| && AfterNul(c) == AfterNul(b)[..j]
  {
    var n := NulAt(b);
    NulAtPrefix(b, k);
    if n < k {
      j := k - n - 1;
      SlicePrefix(b, n, k);
      assert AfterNul(b) == b[n + 1..];
    } else {
      j := 0;
      assert AfterNul(c) == "";
    }
  }

  lemma FieldsOfPrefix(p: Bytes, k: nat, c: Bytes)
    requires k <= |p| && c == p[..k]
    ensures Field(c) <= Field(p) && Field(AfterNul(c)) <= Field(AfterNul(p))
  {
    FieldOfPrefix(p, k, c);
    var j := AfterNulOfPrefix(p, k, c);
    FieldOfPrefix(AfterNul(p), j, AfterNul(c));
  }

  // What exactly survives a cut

  function Minus(a: nat, b: nat): nat { if b <= a then a - b else 0 }

  function Take(s: Bytes, k: nat): Bytes { if k <= |s| then s[..k] else s }

  lemma TakeIs(s: Bytes, k: nat)
    ensures (Take(s, k) == s <==> |s| <= k) && (Take(s, k) == "" <==> s == "" || k == 0)
  {}

  lemma FieldOfCut(s: Bytes, rest: Bytes, k: nat, c: Bytes)
    requires NulFree(s) && k <= |s| + 1 + |rest| && c == (s + [NUL] + rest)[..k]
    ensures Field(c) == Take(s, k) && AfterNul(c) == rest[..Minus(k, |s| + 1)]
  {
    var b := s + [NUL] + rest;
    NulAtFirst(s, rest);
    NulAtPrefix(b, k);
  }

  lemma PayloadOfCut(r: Request, n: nat)
    requires |EncodeRequest(r)| <= PAGE_SIZE && 8 <= n <= |EncodeRequest(r)|
    ensures var c := EncodeRequest(r)[..n]; var p := HostPayload(c); var k := Minus(n, REQUEST_HEADER_LEN);
      && k <= |Payload(r.container, r.command)| && p == Payload(r.container, r.command)[..k]
      && DecodeRequest(c) == Some(Request(Field(p), Field(AfterNul(p)), r.recordOutput))
  {
    var e := EncodeRequest(r);
    HeaderReads(r);
    assert e[..n][..4] == e[..4] && e[..n][4..8] == e[4..8];
    assert HostPayload(e[..n]) == e[REQUEST_HEADER_LEN..][..Minus(n, REQUEST_HEADER_LEN)];
  }

  /** Main result: what a request cut to `n` bytes decodes to, byte for byte. */
  lemma CutDecodesExactly(r: Request, n: nat)
    requires NulFree(r.container) && NulFree(r.command) && |EncodeRequest(r)| <= PAGE_SIZE && n <= |EncodeRequest(r)|
    ensures DecodeRequest(EncodeRequest(r)[..n]) ==
      if n < 8 then None
      else
        var k := Minus(n, REQUEST_HEADER_LEN);
        Some(Request(Take(r.container, k), Take(r.command, Minus(k, |r.container| + 1)), r.recordOutput))
  {
    if n < 8 {
      DecodeRoundTrip(r);
      CutDecodesToPrefixes(EncodeRequest(r), n);
    } else {
      PayloadOfCut(r, n);
      var k, p := Minus(n, REQUEST_HEADER_LEN), HostPayload(EncodeRequest(r)[..n]);
      var tail := r.command + [NUL] + "";
      assert Payload(r.container, r.command) == r.container + [NUL] + tail;
      FieldOfCut(r.container, tail, k, p);
      FieldOfCut(r.command, "", Minus(k, |r.container| + 1), AfterNul(p));
    }
  }

  /** So a cut request still names its target exactly from the end of the container on; it looks like a
      request to the guest host exactly up to the header's end, names another container in between, and
      survives whole exactly when both fields do. */
  lemma CutTargetExactly(r: Request, n: nat)
    requires NulFree(r.container) && NulFree(r.command) && |EncodeRequest(r)| <= PAGE_SIZE
    requires 8 <= n <= |EncodeRequest(r)|
    ensures DecodeRequest(EncodeRequest(r)[..n]).Some?
    ensures var c := DecodeRequest(EncodeRequest(r)[..n]).value; var end := REQUEST_HEADER_LEN + |r.container|;
      && (c.container == r.container <==> r.container == "" || n >= end)
      && (c.container == "" <==> r.container == "" || n <= REQUEST_HEADER_LEN)
      && (c.container != "" && c.container != r.container <==> REQUEST_HEADER_LEN < n < end)
      && (c == r <==> (r.container == "" || n >= end) && (r.command == "" || n >= end + 1 + |r.command|))
  {
    CutDecodesExactly(r, n);
    var k := Minus(n, REQUEST_HEADER_LEN);
    TakeIs(r.container, k);
    TakeIs(r.command, Minus(k, |r.container| + 1));
  }

  /** Every request to a container is turned into a host request by a cut at the header's end, and with a
      name of two or more bytes into a request to another container by a cut one byte later. */
  lemma CutChangesTarget(r: Request)
    requires NulFree(r.container) && NulFree(r.command) && |EncodeRequest(r)| <= PAGE_SIZE && |r.container| >= 2
    ensures DecodeRequest(EncodeRequest(r)[..12]) == Some(Request("", "", r.recordOutput))
    ensures DecodeRequest(EncodeRequest(r)[..13]) == Some(Request([r.container[0]], "", r.recordOutput))
  {
    CutDecodesExactly(r, 12);
    CutDecodesExactly(r, 13);
    assert r.container[..0] == r.command[..0] == "" && r.container[..1] == [r.container[0]];
  }
}
