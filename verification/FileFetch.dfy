/** Fetching a host file over one shared buffer: `FileServer::serve` of crates/bedrock-vm/src/file_xfer.rs on
    the host and `fetch_one` of guest/file-fetch.c in the guest. */
module FileFetch {
  import opened Options
  import opened WireBytes

  const HEADER_LEN: nat := 16

  const NOT_FOUND: nat := 0xFFFF_FFFF_FFFF_FFFF   // -1 as 64 bits

  // The operating system under read and write calls

  /** How one call goes: interrupted, failed, at most `n` bytes (at least one), or all that is asked. */
  datatype Event = Interrupted | Failed | AtMost(n: nat) | Full

  /** After the listed events every call is served in full. */
  class Os {
    var schedule: seq<Event>

    constructor (events: seq<Event>)
      ensures schedule == events
    {
      schedule := events;
    }

    method Next() returns (e: Event)
      modifies this
      ensures |schedule| <= |old(schedule)| && (e != Full ==> |schedule| < |old(schedule)|)
      ensures Reliable(old(schedule)) ==> e != Failed && Reliable(schedule)
    {
      if schedule == [] { return Full; }
      e := schedule[0];
      schedule := schedule[1..];
    }
  }

  predicate Reliable(schedule: seq<Event>) { Failed !in schedule }

  function Min(a: nat, b: nat): nat { if a <= b then a else b }

  /** Bytes one successful call moves, out of `max` possible. */
  function Moved(e: Event, max: nat): nat { if e.AtMost? then Min(max, if e.n == 0 then 1 else e.n) else max }

  /** What is left of a file from `pos` on. */
  function Left(content: Bytes, pos: nat): nat { if pos <= |content| then |content| - pos else 0 }

  /** The buffer holds the first `filled` bytes of the part of the file that belongs after `head`. */
  ghost predicate Holds(buf: array<char>, head: Bytes, content: Bytes, pos: nat, filled: nat)
    reads buf
  {
    && filled <= Left(content, pos) && |head| + filled <= buf.Length
    && (forall i :: 0 <= i < |head| ==> buf[i] == head[i])
    && forall j :: |head| <= j < |head| + filled ==> buf[j] == content[pos + (j - |head|)]
  }

  /** One read call; none for an error, no progress for an interruption or the end of the file. */
  method ReadOnce(os: Os, content: Bytes, pos: nat, buf: array<char>, filled: nat, ghost head: Bytes, start: nat)
    returns (more: Option<nat>, eof: bool)
    requires start == |head| && Holds(buf, head, content, pos, filled) && start + filled < buf.Length
    modifies os, buf
    ensures more.Some? ==> Holds(buf, head, content, pos, filled + more.value)
    ensures more.None? ==> Holds(buf, head, content, pos, filled)
    ensures eof ==> more == Some(0) && filled == Left(content, pos)
    ensures more == Some(0) && !eof ==> |os.schedule| < |old(os.schedule)|
    ensures Reliable(old(os.schedule)) ==> more.Some? && Reliable(os.schedule)
  {
    var e := os.Next();
    if e == Failed { return None, false; }
    if e == Interrupted { return Some(0), false; }
    var max := Min(buf.Length - start - filled, Left(content, pos) - filled);
    if max == 0 { return Some(0), true; }
    var k := Moved(e, max);
    Deliver(content, pos, buf, filled, k, head, start);
    return Some(k), false;
  }

  /** The `k` bytes a read call moves. */
  method Deliver(content: Bytes, pos: nat, buf: array<char>, filled: nat, k: nat, ghost head: Bytes, start: nat)
    requires start == |head| && Holds(buf, head, content, pos, filled) && start + filled + k <= buf.Length
    requires 0 < k && filled + k <= Left(content, pos)
    modifies buf
    ensures Holds(buf, head, content, pos, filled + k)
  {
    forall j | start + filled <= j < start + filled + k { buf[j] := content[pos + (j - start)]; }
  }

  /** `read_up_to`: fill the rest of the buffer from the file, through short and interrupted reads. */
  method ReadUpTo(os: Os, content: Bytes, pos: nat, buf: array<char>, start: nat) returns (n: Option<nat>)
    requires start <= buf.Length
    modifies os, buf
    ensures n.Some? ==> n.value == Min(buf.Length - start, Left(content, pos))
    ensures n.Some? ==> buf[start..start + n.value] == Part(content, pos, n.value)
    ensures buf[..start] == old(buf[..start])
    ensures Reliable(old(os.schedule)) ==> n.Some? && Reliable(os.schedule)
  {
    var filled, failed := 0, false;
    ghost var head := buf[..start];
    while start + filled < buf.Length
      invariant Holds(buf, head, content, pos, filled)
      invariant Reliable(old(os.schedule)) ==> Reliable(os.schedule)
      decreases buf.Length - start - filled, |os.schedule|
    {
      var more, eof := ReadOnce(os, content, pos, buf, filled, head, start);
      if more.None? {
        failed := true;
        break;
      }
      if eof { break; }
      filled := filled + more.value;
    }
    Splits(buf, head, content, pos, filled);
    n := if failed then None else Some(filled);
  }

  lemma Splits(buf: array<char>, head: Bytes, content: Bytes, pos: nat, filled: nat)
    requires Holds(buf, head, content, pos, filled)
    ensures buf[..|head|] == head && buf[|head|..|head| + filled] == Part(content, pos, filled)
  {}

  /** `n` bytes of a file from `pos` on; none past its end. */
  function Part(content: Bytes, pos: nat, n: nat): Bytes
    requires n <= Left(content, pos)
  {
    if n == 0 then "" else content[pos..pos + n]
  }

  // Host

  datatype Served = Chunk(n: nat) | NotFound | HostError

  /** `path` contents by guest name; none if the host path cannot be opened. */
  class FileServer {
    var files: map<Bytes, Option<Bytes>>
    var handles: set<Bytes>

    constructor (files: map<Bytes, Option<Bytes>>)
      ensures this.files == files && handles == {}
    {
      this.files, handles := files, {};
    }

    /** Read the request off the buffer, then overwrite the buffer with the answer. */
    method Serve(os: Os, buf: array<char>) returns (r: Served)
      modifies this`handles, os, buf
      ensures buf.Length < HEADER_LEN ==> r == HostError
      ensures r.Chunk? || r.NotFound? ==>
        HEADER_LEN <= buf.Length && HEADER_LEN + FromLE32(old(buf[8..12])) <= buf.Length
      ensures r.NotFound? ==> FromLE64(buf[..8]) == NOT_FOUND
      ensures r.Chunk? ==>
        var name := old(buf[HEADER_LEN..HEADER_LEN + FromLE32(buf[8..12])]); var offset := FromLE64(old(buf[..8]));
        && name in files && files[name].Some?
        && r.n == Min(buf.Length - HEADER_LEN, Left(files[name].value, offset))
        && (r.n < TWO64 ==> FromLE64(buf[..8]) == r.n)
        && buf[HEADER_LEN..HEADER_LEN + r.n] == Part(files[name].value, offset, r.n)
      ensures Reliable(old(os.schedule)) ==> HEADER_LEN <= buf.Length ==>
        HEADER_LEN + FromLE32(old(buf[8..12])) <= buf.Length ==>
        var name := old(buf[HEADER_LEN..HEADER_LEN + FromLE32(buf[8..12])]);
        Reliable(os.schedule) && if name in files && files[name].Some? then r.Chunk? else r.NotFound?
    {
      if buf.Length < HEADER_LEN { return HostError; }
      var offset := FromLE64(buf[..8]);
      var nameLen := FromLE32(buf[8..12]);
      if HEADER_LEN + nameLen > buf.Length { return HostError; }
      var name := buf[HEADER_LEN..HEADER_LEN + nameLen];
      if name !in files || files[name].None? {
        WriteResult(buf, NOT_FOUND);
        return NotFound;
      }
      handles := handles + {name};
      var n := ReadUpTo(os, files[name].value, offset, buf, HEADER_LEN);
      if n.None? { return HostError; }
      ghost var data := buf[HEADER_LEN..];
      assert data[..n.value] == buf[HEADER_LEN..HEADER_LEN + n.value];
      WriteResult(buf, n.value);
      assert buf[HEADER_LEN..HEADER_LEN + n.value] == data[..n.value];
      return Chunk(n.value);
    }
  }

  /** The result word, and zeros in the rest of the header. */
  method WriteResult(buf: array<char>, result: nat)
    requires HEADER_LEN <= buf.Length
    modifies buf
    ensures result < TWO64 ==> FromLE64(buf[..8]) == result
    ensures buf[HEADER_LEN..] == old(buf[HEADER_LEN..])
  {
    var word := LE64(result);
    SetBytes(buf, 0, word);
    SetBytes(buf, 8, seq(8, _ => '\0'));
    assert buf[..8] == word;
    if result < TWO64 { LE64RoundTrip(result); }
  }

  // Guest

  method SetBytes(buf: array<char>, at: nat, data: Bytes)
    requires at + |data| <= buf.Length
    modifies buf
    ensures forall j :: 0 <= j < buf.Length ==> buf[j] == if at <= j < at + |data| then data[j - at] else old(buf[j])
  {
    forall j | at <= j < at + |data| { buf[j] := data[j - at]; }
  }

  /** `data` stands at `at`. */
  ghost predicate HasAt(buf: array<char>, at: nat, data: Bytes)
    reads buf
  {
    at + |data| <= buf.Length && forall j :: at <= j < at + |data| ==> buf[j] == data[j - at]
  }

  lemma SliceAt(buf: array<char>, at: nat, data: Bytes)
    requires HasAt(buf, at, data)
    ensures buf[at..at + |data|] == data
  {}

  method SetRequest(buf: array<char>, word: Bytes, len: Bytes, name: Bytes)
    requires |word| == 8 && |len| == 4 && HEADER_LEN + |name| <= buf.Length
    modifies buf
    ensures HasAt(buf, 0, word) && HasAt(buf, 8, len) && HasAt(buf, HEADER_LEN, name)
  {
    SetBytes(buf, 0, seq(16, _ => '\0'));
    SetBytes(buf, 0, word);
    SetBytes(buf, 8, len);
    SetBytes(buf, HEADER_LEN, name);
  }

  /** The request frame: offset, name length, name. */
  method FrameRequest(buf: array<char>, offset: nat, name: Bytes)
    requires HEADER_LEN + |name| <= buf.Length && offset < TWO64 && |name| < TWO32
    modifies buf
    ensures FromLE64(buf[..8]) == offset && FromLE32(buf[8..12]) == |name|
    ensures buf[HEADER_LEN..HEADER_LEN + |name|] == name
  {
    var word, len := LE64(offset), LE32(|name|);
    SetRequest(buf, word, len, name);
    SliceAt(buf, 0, word);
    SliceAt(buf, 8, len);
    SliceAt(buf, HEADER_LEN, name);
    LE64RoundTrip(offset);
    LE32RoundTrip(|name|);
  }

  /** Write all of `data` to the guest file, through short and interrupted writes. */
  method WriteAll(os: Os, out: Bytes, data: Bytes) returns (ok: bool, out': Bytes)
    modifies os
    ensures ok ==> out' == out + data
    ensures Reliable(old(os.schedule)) ==> ok && Reliable(os.schedule)
  {
    var written := 0;
    out' := out;
    while written < |data|
      invariant 0 <= written <= |data| && out' == out + data[..written]
      invariant Reliable(old(os.schedule)) ==> Reliable(os.schedule)
      decreases |data| - written, |os.schedule|
    {
      var e := os.Next();
      if e == Failed { return false, out'; }
      if e != Interrupted {
        var k := Moved(e, |data| - written);
        assert data[..written + k] == data[..written] + data[written..written + k];
        out' := out' + data[written..written + k];
        written := written + k;
      }
    }
    ok := true;
  }

  /** A file cut into pieces of `cap` bytes, the last possibly shorter. */
  function Pieces(content: Bytes, cap: nat): seq<Bytes>
    requires cap > 0
    decreases |content|
  {
    if content == "" then [] else [content[..Min(cap, |content|)]] + Pieces(content[Min(cap, |content|)..], cap)
  }

  function Joined(pieces: seq<Bytes>): Bytes { if pieces == [] then "" else pieces[0] + Joined(pieces[1..]) }

  lemma {:induction false} PiecesJoin(content: Bytes, cap: nat)
    requires cap > 0
    ensures Joined(Pieces(content, cap)) == content
    decreases |content|
  {
    if content != "" {
      PiecesJoin(content[Min(cap, |content|)..], cap);
      assert content == content[..Min(cap, |content|)] + content[Min(cap, |content|)..];
    }
  }

  /** There are ceil(size / cap) of them: the least number that holds the file. */
  lemma {:induction false} PiecesCount(content: Bytes, cap: nat)
    requires cap > 0
    ensures |content| <= |Pieces(content, cap)| * cap
    ensures content != "" ==> (|Pieces(content, cap)| - 1) * cap < |content|
    decreases |content|
  {
    if content != "" {
      var rest := content[Min(cap, |content|)..];
      PiecesCount(rest, cap);
      var n := |Pieces(rest, cap)|;
      Multiply(n, cap);
      if rest != "" { Multiply(n - 1, cap); }
    }
  }

  lemma Multiply(n: nat, cap: nat)
    ensures (n + 1) * cap == n * cap + cap
  {}

  /** One request and its answer. */
  method Round(os: Os, server: FileServer, buf: array<char>, offset: nat, name: Bytes) returns (data: Option<Bytes>)
    requires HEADER_LEN + |name| <= buf.Length < TWO32 && offset < TWO64
    modifies server`handles, os, buf
    ensures data.Some? ==> name in server.files && server.files[name].Some?
    ensures data.Some? ==> var content := server.files[name].value;
      data.value == Part(content, offset, Min(buf.Length - HEADER_LEN, Left(content, offset)))
    ensures Reliable(old(os.schedule)) ==> Reliable(os.schedule) && (data.Some? <==>
      name in server.files && server.files[name].Some?)
  {
    FrameRequest(buf, offset, name);
    var r := server.Serve(os, buf);
    if !r.Chunk? { return None; }
    var result := FromLE64(buf[..8]);
    if result == NOT_FOUND || result > buf.Length - HEADER_LEN { return None; }
    data := Some(buf[HEADER_LEN..HEADER_LEN + result]);
  }

  /** Fetch one file. It succeeds exactly when nothing fails and the host has the file, and then the guest
      has exactly the host's bytes, in pieces that depend only on the file and the buffer size, after one
      hypercall per piece and one for the end, whatever reads and writes were cut short or interrupted. */
  method FetchOne(os: Os, server: FileServer, buf: array<char>, name: Bytes)
    returns (ok: bool, out: Bytes, ghost pieces: seq<Bytes>, calls: nat)
    requires buf.Length < TWO32 && HEADER_LEN <= buf.Length
    requires name in server.files && server.files[name].Some? ==> |server.files[name].value| < TWO64
    modifies server`handles, os, buf
    ensures ok ==> 0 < |name| <= buf.Length - HEADER_LEN && name in server.files && server.files[name].Some?
    ensures ok ==> out == server.files[name].value && pieces == Pieces(out, buf.Length - HEADER_LEN)
    ensures ok ==> calls == |pieces| + 1
    ensures Reliable(old(os.schedule)) ==>
      (ok <==> 0 < |name| <= buf.Length - HEADER_LEN && name in server.files && server.files[name].Some?)
  {
    out, pieces, calls := "", [], 0;
    var cap := buf.Length - HEADER_LEN;
    if |name| == 0 || |name| > cap { return false, out, pieces, calls; }
    ghost var content := if name in server.files && server.files[name].Some? then server.files[name].value else "";
    ProgressStarts(content, cap);
    while true
      invariant Progress(content, cap, out, pieces)
      invariant calls == |pieces|
      invariant out != "" ==> name in server.files && server.files[name].Some?
      invariant Reliable(old(os.schedule)) ==> Reliable(os.schedule)
      decreases |content| - |out|
    {
      var data := Round(os, server, buf, |out|, name);
      calls := calls + 1;
      if data.None? { return false, out, pieces, calls; }
      if data.value == "" { break; }
      ProgressSteps(content, cap, out, pieces, data.value);
      ok, out := WriteAll(os, out, data.value);
      if !ok { return false, out, pieces, calls; }
      pieces := pieces + [data.value];
    }
    ProgressEnds(content, cap, out, pieces);
    ok := true;
  }

  /** The guest has the file up to here, in these pieces. */
  ghost predicate Progress(content: Bytes, cap: nat, out: Bytes, pieces: seq<Bytes>)
    requires cap > 0
  {
    out <= content && pieces + Pieces(content[|out|..], cap) == Pieces(content, cap)
  }

  lemma ProgressStarts(content: Bytes, cap: nat)
    requires cap > 0
    ensures Progress(content, cap, "", [])
  {
    assert content[0..] == content;
  }

  lemma ProgressSteps(content: Bytes, cap: nat, out: Bytes, pieces: seq<Bytes>, data: Bytes)
    requires cap > 0 && Progress(content, cap, out, pieces) && data != ""
    requires data == Part(content, |out|, Min(cap, Left(content, |out|)))
    ensures Progress(content, cap, out + data, pieces + [data]) && |out| < |out + data| <= |content|
  {
    PiecesStep(content, |out|, cap);
    assert pieces + ([data] + Pieces(content[|out| + |data|..], cap)) ==
      (pieces + [data]) + Pieces(content[|out| + |data|..], cap);
  }

  lemma ProgressEnds(content: Bytes, cap: nat, out: Bytes, pieces: seq<Bytes>)
    requires cap > 0 && Progress(content, cap, out, pieces) && Min(cap, Left(content, |out|)) == 0
    ensures out == content && pieces == Pieces(content, cap)
  {
    assert content[|out|..] == "";
    assert pieces + [] == pieces;
  }

  lemma PiecesStep(content: Bytes, at: nat, cap: nat)
    requires cap > 0 && at < |content|
    ensures var k := Min(cap, |content| - at);
      Pieces(content[at..], cap) == [content[at..at + k]] + Pieces(content[at + k..], cap)
  {
    var k := Min(cap, |content| - at);
    assert content[at..][..k] == content[at..at + k] && content[at..][k..] == content[at + k..];
  }
}
