/** The VM's queue of I/O requests: `IoChannelState` of crates/bedrock-vmx/src/vm_state.rs, the
    QUEUE_IO_ACTION call of crates/bedrock/vm_file/handlers.rs and the GET_REQUEST hypercall of
    crates/bedrock-vmx/src/exits/vmcall.rs. */
module IoQueue {
  import opened WireBytes

  type Request = Bytes

  const IO_CHANNEL_BUF_SIZE := 4096

  const PENDING_IO_QUEUE_CAP := 256

  datatype Enqueued = Queued | Full | TooLong | OutOfMemory

  /** The requests that carry anything: an empty one in the slot cannot be told from a free slot. */
  ghost function NonEmpty(rs: seq<Request>): seq<Request> {
    if rs == [] then [] else (if rs[0] == [] then [] else [rs[0]]) + NonEmpty(rs[1..])
  }

  lemma {:induction false} NonEmptyAppend(a: seq<Request>, b: seq<Request>)
    ensures NonEmpty(a + b) == NonEmpty(a) + NonEmpty(b)
  {
    if a == [] {
      assert a + b == b;
    } else {
      assert (a + b)[1..] == a[1..] + b;
      NonEmptyAppend(a[1..], b);
    }
  }

  class IoChannel {
    var requestBuf: Request              // the in-flight request; empty means the slot is free
    var pending: seq<Request>
    var taken: seq<Request>              // what the guest has fetched

    /** The requests not yet fetched, in order. */
    ghost function Undelivered(): seq<Request>
      reads this
    {
      (if requestBuf == [] then [] else [requestBuf]) + NonEmpty(pending)
    }

    /** Everything accepted, in order: fetched, in the slot, waiting. */
    ghost function Log(): seq<Request>
      reads this
    {
      taken + Undelivered()
    }

    ghost predicate Valid()
      reads this
    {
      |requestBuf| <= IO_CHANNEL_BUF_SIZE && forall i :: 0 <= i < |pending| ==> |pending[i]| <= IO_CHANNEL_BUF_SIZE
    }

    ghost predicate NoEmpty()
      reads this
    {
      forall i :: 0 <= i < |pending| ==> pending[i] != []
    }

    /** No request waits behind a free slot, where no interrupt would fetch it. */
    ghost predicate Moving()
      reads this
    {
      requestBuf == [] ==> pending == []
    }

    constructor ()
      ensures Valid() && Moving() && NoEmpty() && taken == Log() == []
    {
      requestBuf, pending, taken := [], [], [];
    }

    /** Move the front of the queue into a free slot; nothing accepted is lost. */
    method PromoteNextPending()
      requires Valid()
      modifies this`requestBuf, this`pending
      ensures Valid() && Log() == old(Log())
      ensures old(requestBuf) != [] || old(pending) == [] ==> requestBuf == old(requestBuf) && pending == old(pending)
      ensures old(requestBuf) == [] && old(pending) != [] ==>
        requestBuf == old(pending[0]) && pending == old(pending)[1..]
      ensures old(NoEmpty()) ==> NoEmpty()
    {
      if requestBuf != [] || pending == [] { return; }
      var next := pending[0];
      requestBuf := next[..if |next| <= IO_CHANNEL_BUF_SIZE then |next| else IO_CHANNEL_BUF_SIZE];
      pending := pending[1..];
      assert requestBuf == next;
      assert Undelivered() == old(Undelivered());
    }

    /** Queue a request; `memory` says whether the allocations succeed. A non-empty request that is
        accepted goes to the end of the log; nothing else changes it. */
    method QueueIoAction(data: Request, memory: bool) returns (r: Enqueued)
      requires Valid()
      modifies this`requestBuf, this`pending
      ensures Valid() && (old(Moving()) ==> Moving()) && (old(NoEmpty()) && data != [] ==> NoEmpty())
      ensures r == if |data| > IO_CHANNEL_BUF_SIZE then TooLong else if !memory then OutOfMemory
        else if old(|pending|) >= PENDING_IO_QUEUE_CAP then Full else Queued
      ensures Log() == if r == Queued && data != [] then old(Log()) + [data] else old(Log())
      ensures var all := if r == Queued then old(pending) + [data] else old(pending);
        if r != Queued || old(requestBuf) != [] then requestBuf == old(requestBuf) && pending == all
        else requestBuf == all[0] && pending == all[1..]
    {
      if |data| > IO_CHANNEL_BUF_SIZE { return TooLong; }
      if !memory { return OutOfMemory; }
      if |pending| >= PENDING_IO_QUEUE_CAP { return Full; }
      NonEmptyAppend(pending, [data]);
      pending := pending + [data];
      PromoteNextPending();
      return Queued;
    }

    /** The guest fetches the in-flight request into its page; `copied` says whether the page could be
        written. The next waiting request takes the slot at once; the queue stalls exactly when that
        one is empty and others wait behind it. */
    method GetRequest(copied: bool) returns (request: Request)
      requires Valid()
      modifies this
      ensures Valid() && Log() == old(Log())
      ensures request == if copied then old(requestBuf) else []
      ensures taken == if request == [] then old(taken) else old(taken) + [request]
      ensures request == [] ==> requestBuf == old(requestBuf) && pending == old(pending)
      ensures request != [] ==> (Moving() <==> !(old(|pending|) >= 2 && old(pending)[0] == []))
      ensures old(NoEmpty()) ==> NoEmpty()
    {
      if requestBuf == [] || !copied { return []; }
      request := requestBuf;
      taken := taken + [request];
      requestBuf := [];
      PromoteNextPending();
    }

    /** What a fork starts with: an empty slot and an empty queue. It has lost nothing exactly when
        nothing was waiting. */
    method CloneForFork() returns (child: IoChannel)
      requires Valid()
      ensures fresh(child) && child.Valid() && child.Moving() && child.NoEmpty() && child.taken == child.Log() == taken
      ensures child.Log() == Log() <==> Undelivered() == []
    {
      child := new IoChannel();
      child.taken := taken;
      assert |Log()| == |taken| + |Undelivered()|;
    }
  }

  // Reached from a new channel

  ghost predicate Proper(r: Request) { 0 < |r| <= IO_CHANNEL_BUF_SIZE }

  /** A request queued and not yet fetched is gone in the fork. */
  method ForkLosesRequest(a: Request) returns (parent: IoChannel, child: IoChannel)
    requires Proper(a)
    ensures parent.Log() == [a] && child.Log() == []
  {
    parent := new IoChannel();
    var r := parent.QueueIoAction(a, true);
    child := parent.CloneForFork();
  }

  method OneQueued(a: Request) returns (ch: IoChannel)
    requires Proper(a)
    ensures fresh(ch) && ch.Valid() && ch.requestBuf == a && ch.pending == [] && ch.taken == [] && ch.Log() == [a]
  {
    ch := new IoChannel();
    var r := ch.QueueIoAction(a, true);
  }

  /** Three requests, the one in the middle empty. */
  method EmptyBetween(a: Request, b: Request) returns (ch: IoChannel)
    requires Proper(a) && Proper(b)
    ensures fresh(ch) && ch.Valid() && ch.requestBuf == a && ch.pending == ["", b] && ch.taken == []
    ensures ch.Log() == [a, b]
  {
    ch := OneQueued(a);
    var r := ch.QueueIoAction("", true);
    assert r == Queued && ch.requestBuf == a && ch.pending == [""];
    r := ch.QueueIoAction(b, true);
    assert r == Queued;
  }

  /** After the first is fetched the last waits behind a free slot. */
  method EmptyRequestStalls(a: Request, b: Request) returns (ch: IoChannel)
    requires Proper(a) && Proper(b)
    ensures ch.Valid() && !ch.Moving() && ch.taken == [a] && ch.Undelivered() == [b]
  {
    ch := EmptyBetween(a, b);
    var request := ch.GetRequest(true);
    assert ch.Undelivered() == ch.Log()[|ch.taken|..];
  }
}
