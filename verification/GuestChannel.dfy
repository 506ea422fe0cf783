/** The path of GuestDelivery carried out: a branch, the request channel of its VM and the wire form of an
    action (`prepare_next_io_input` of crates/bedrock-lab/src/branch.rs, QUEUE_IO_ACTION and GET_REQUEST). */
module GuestChannel {
  import opened Scheduler
  import opened SchedulerPaths
  import opened GuestDelivery
  import opened Options
  import opened WireBytes
  import BashWire
  import IoQueue

  /** What the host puts on the wire for an action. */
  function Wire(a: Action): Bytes { BashWire.EncodeRequest(BashWire.Request(a.target, a.command, a.recordOutput)) }

  function Requests(a: seq<Action>): seq<Bytes> { seq(|a|, i requires 0 <= i < |a| => Wire(a[i])) }

  lemma WireIsLong(a: Action)
    ensures |Wire(a)| >= BashWire.REQUEST_HEADER_LEN
  {}

  /** What the guest reads back from its page is the action that was scheduled. */
  lemma FetchedParses(a: Action, page: Bytes)
    requires BashWire.NulFree(a.target) && BashWire.NulFree(a.command) && Fits(a)
    requires |page| == BashWire.PAGE_SIZE && Wire(a) <= page
    ensures BashWire.GuestParse(page, |Wire(a)|) ==
      BashWire.Parsed(BashWire.Request(a.target, a.command, a.recordOutput))
  {
    BashWire.GuestReadsWhatHostWrote(BashWire.Request(a.target, a.command, a.recordOutput), page);
  }

  // The queue's answer

  predicate Fits(a: Action) { |Wire(a)| <= IoQueue.IO_CHANNEL_BUF_SIZE }

  /** The queue's answer to an action: what does not fit, or finds no memory, is refused; the slot and the
      queue behind it take so many. */
  function QueueReply(v: Vm, a: Action, memory: bool): Reply {
    if !Fits(a) || !memory then Refused else if |Waits(v)| > IoQueue.PENDING_IO_QUEUE_CAP then Busy else Accepted
  }

  /** The channel has handed out what the guest got and holds what waits. */
  ghost predicate Holds(ch: IoQueue.IoChannel, v: Vm)
    reads ch
  {
    && ch.Valid() && ch.Moving() && ch.NoEmpty() && |v.settled| <= |v.s.queued|
    && ch.taken == Requests(Got(v)) && ch.Undelivered() == Requests(Waits(v))
  }

  lemma {:induction false} SelectIgnoresLater(a: seq<Action>, b: seq<Action>, fates: seq<Fate>, f: Fate)
    requires |fates| <= |a| && a <= b
    ensures Select(a, fates, f) == Select(b, fates, f)
    decreases |fates|
  {
    if fates != [] { SelectIgnoresLater(a, b, fates[..|fates| - 1], f); }
  }

  ghost function WithQueued(v: Vm, a: Action): Vm { v.(s := v.s.(queued := v.s.queued + [Queued(a, v.s.now)])) }

  lemma QueuedOne(v: Vm, v': Vm, a: Action)
    requires |v.settled| <= |v.s.queued| && v' == WithQueued(v, a)
    ensures Requests(Got(v')) == Requests(Got(v)) && Requests(Waits(v')) == Requests(Waits(v)) + [Wire(a)]
  {
    assert Actions(v'.s.queued) == Actions(v.s.queued) + [a];
    SelectIgnoresLater(Actions(v.s.queued), Actions(v'.s.queued), v.settled, Fetched);
  }

  lemma {:induction false} NoEmptyKeeps(rs: seq<IoQueue.Request>)
    requires forall i :: 0 <= i < |rs| ==> rs[i] != []
    ensures IoQueue.NonEmpty(rs) == rs
  {
    if rs != [] { NoEmptyKeeps(rs[1..]); }
  }

  /** How many wait, seen from the channel. */
  lemma WaitsCounted(ch: IoQueue.IoChannel, v: Vm)
    requires Holds(ch, v)
    ensures |Waits(v)| == (if ch.requestBuf == [] then 0 else 1) + |ch.pending|
  {
    NoEmptyKeeps(ch.pending);
    assert |ch.Undelivered()| == |Requests(Waits(v))|;
  }

  /** The channel answers as `QueueReply` says, for every action, and an accepted one waits last. */
  method Offer(ch: IoQueue.IoChannel, a: Action, memory: bool, ghost v: Vm) returns (reply: Reply)
    requires Holds(ch, v)
    modifies ch
    ensures reply == QueueReply(v, a, memory)
    ensures Holds(ch, if reply == Accepted then WithQueued(v, a) else v)
  {
    WireIsLong(a);
    WaitsCounted(ch, v);
    ghost var held := ch.Undelivered();
    var r := ch.QueueIoAction(Wire(a), memory);
    if r == IoQueue.Queued {
      SlotFilled(ch.taken, held, ch.Undelivered(), a, v, WithQueued(v, a));
      return Accepted;
    }
    reply := if r == IoQueue.Full then Busy else Refused;
  }

  /** The bookkeeping of one accepted action. */
  lemma SlotFilled(taken: seq<Bytes>, held: seq<Bytes>, held': seq<Bytes>, a: Action, v: Vm, v': Vm)
    requires |v.settled| <= |v.s.queued| && v' == WithQueued(v, a)
    requires taken == Requests(Got(v)) && held == Requests(Waits(v)) && taken + held' == taken + held + [Wire(a)]
    ensures taken == Requests(Got(v')) && held' == Requests(Waits(v'))
  {
    QueuedOne(v, v', a);
    assert held' == (taken + held')[|taken|..];
    assert held + [Wire(a)] == (taken + held + [Wire(a)])[|taken|..];
  }

  /** The guest gets the next waiting action, or nothing exactly when none waits. */
  method FetchNext(ch: IoQueue.IoChannel, ghost v: Vm) returns (request: Bytes)
    requires Holds(ch, v)
    modifies ch
    ensures request == if Waits(v) == [] then [] else Wire(Waits(v)[0])
    ensures Holds(ch, Do(v, Fetch))
  {
    WaitsCounted(ch, v);
    ghost var taken, held := ch.taken, ch.Undelivered();
    assert Waits(v) != [] ==> held[0] == ch.requestBuf;
    request := ch.GetRequest(true);
    if request != [] {
      SlotTaken(taken, held, ch.taken, ch.Undelivered(), request, v, Do(v, Fetch));
    }
  }

  /** The bookkeeping of one fetch. */
  lemma SlotTaken(taken: seq<Bytes>, held: seq<Bytes>, taken': seq<Bytes>, held': seq<Bytes>, r: Bytes, v: Vm, v': Vm)
    requires |v.settled| <= |v.s.queued| && Waits(v) != [] && v' == Do(v, Fetch)
    requires taken == Requests(Got(v)) && held == Requests(Waits(v)) && held[0] == r
    requires taken' == taken + [r] && taken' + held' == taken + held
    ensures |v'.settled| <= |v'.s.queued|
    ensures r == Wire(Waits(v)[0]) && taken' == Requests(Got(v')) && held' == Requests(Waits(v'))
  {
    FetchedOne(v, v');
    assert held' == (taken' + held')[|taken'|..];
    assert held == [r] + held[1..] && held' == held[1..];
  }

  lemma RequestsAppend(a: seq<Action>, b: seq<Action>)
    ensures Requests(a + b) == Requests(a) + Requests(b)
  {}

  lemma GotOne(v: Vm, v': Vm)
    requires |v.settled| <= |v.s.queued| && Waits(v) != [] && v' == Do(v, Fetch)
    ensures |v'.settled| <= |v'.s.queued| && Got(v') == Got(v) + [Waits(v)[0]] && Waits(v) == [Waits(v)[0]] + Waits(v')
  {
    assert v'.settled[..|v'.settled| - 1] == v.settled;
  }

  lemma FetchedOne(v: Vm, v': Vm)
    requires |v.settled| <= |v.s.queued| && Waits(v) != [] && v' == Do(v, Fetch)
    ensures |v'.settled| <= |v'.s.queued| && Requests(Got(v')) == Requests(Got(v)) + [Wire(Waits(v)[0])]
    ensures Requests(Waits(v)) == [Wire(Waits(v)[0])] + Requests(Waits(v'))
  {
    var first := Waits(v)[0];
    GotOne(v, v');
    RequestsAppend(Got(v), [first]);
    RequestsAppend([first], Waits(v'));
    assert Requests([first]) == [Wire(first)];
  }

  /** The fork's channel has what the guest got and nothing that waits: that is lost. */
  method ForkChannel(ch: IoQueue.IoChannel, ghost v: Vm) returns (child: IoQueue.IoChannel)
    requires Holds(ch, v)
    ensures fresh(child) && Holds(child, Do(v, Fork))
  {
    child := ch.CloneForFork();
    ghost var v' := Do(v, Fork);
    SelectSkips(Actions(v.s.queued), v.settled, |Waits(v)|);
    assert Waits(v') == [];
    assert child.Undelivered() == child.Log()[|child.taken|..];
  }

  lemma {:induction false} SelectSkips(a: seq<Action>, fates: seq<Fate>, n: nat)
    requires |fates| + n <= |a|
    ensures Select(a, fates + seq(n, _ => Lost), Fetched) == Select(a, fates, Fetched)
    decreases n
  {
    if n > 0 {
      var all := fates + seq(n, _ => Lost);
      assert all[..|all| - 1] == fates + seq(n - 1, _ => Lost);
      SelectSkips(a, fates, n - 1);
    } else {
      assert fates + seq(n, _ => Lost) == fates;
    }
  }

  // Whole runs

  /** One pass of the run loop as the VM sees it: whether an allocation would succeed, and the exit. */
  datatype Pass = Pass(memory: bool, exit: Exit)

  function ReplyTo(v: Vm, target: nat, memory: bool): Reply {
    if Offered(v.s, target).Some? then QueueReply(v, Offered(v.s, target).value, memory) else Accepted
  }

  /** The turns of a run with the answers its queue gives. */
  function Turns(v: Vm, target: nat, passes: seq<Pass>): seq<Turn>
    decreases |passes|
  {
    if passes == [] then []
    else
      var reply, exit := ReplyTo(v, target, passes[0].memory), passes[0].exit;
      [Turn(reply, exit)] +
      match Prepare(v.s, target, reply)
      case Failed(_) => []
      case Prepared(s1, _) =>
        if GoesOn(exit, target) then Turns(v.(s := s1.(now := exit.at)), target, passes[1..]) else []
  }

  lemma PrepareQueues(s: Sched, target: nat, reply: Reply)
    ensures Prepare(s, target, reply).s.queued ==
      if Offered(s, target).Some? && reply == Accepted then s.queued + [Queued(Offered(s, target).value, s.now)]
      else s.queued
  {}

  /** What the channel holds depends only on what was queued and settled. */
  lemma HoldsSame(ch: IoQueue.IoChannel, v: Vm, v': Vm)
    requires Holds(ch, v) && v'.s.queued == v.s.queued && v'.settled == v.settled
    ensures Holds(ch, v')
  {}

  /** One pass against the channel. */
  method DrivePass(ch: IoQueue.IoChannel, s: Sched, target: nat, memory: bool, ghost v: Vm) returns (p: Prepared)
    requires v.s == s && Holds(ch, v)
    modifies ch
    ensures p == Prepare(s, target, ReplyTo(v, target, memory))
    ensures Holds(ch, v.(s := p.s))
  {
    var offered := Offered(s, target);
    var reply := Accepted;
    if offered.Some? {
      reply := Offer(ch, offered.value, memory, v);
    }
    p := Prepare(s, target, reply);
    PrepareQueues(s, target, reply);
    HoldsSame(ch, if offered.Some? && reply == Accepted then WithQueued(v, offered.value) else v, v.(s := p.s));
  }

  /** Where the run loop ends with those answers. */
  ghost function Driven(v: Vm, target: nat, passes: seq<Pass>): (Sched, Outcome) {
    Loop(v.s, target, Turns(v, target, passes))
  }

  lemma DrivenNext(v: Vm, target: nat, passes: seq<Pass>, p: Prepared)
    requires passes != [] && p == Prepare(v.s, target, ReplyTo(v, target, passes[0].memory))
    ensures Driven(v, target, passes) ==
      if p.Failed? then (p.s, QueueError)
      else
        var e := passes[0].exit;
        var s2 := p.s.(now := e.at);
        if GoesOn(e, target) then Driven(v.(s := s2), target, passes[1..])
        else (s2, if e.kind.Left? then Yielded else ReachedTime)
  {
    var turns := Turns(v, target, passes);
    if p.Prepared? {
      LoopNext(v.s, target, turns, p);
      if GoesOn(passes[0].exit, target) {
        assert turns[1..] == Turns(v.(s := p.s.(now := passes[0].exit.at)), target, passes[1..]);
      }
    }
  }

  /** One pass and the exit that ends it: the run goes on, or ends with an outcome. */
  method DriveTurn(ch: IoQueue.IoChannel, s: Sched, target: nat, pass: Pass, ghost passes: seq<Pass>, ghost v: Vm)
      returns (s': Sched, done: Option<Outcome>)
    requires v.s == s && Holds(ch, v) && passes != [] && passes[0] == pass
    modifies ch
    ensures Holds(ch, v.(s := s'))
    ensures Driven(v, target, passes) ==
      if done.Some? then (s', done.value) else Driven(v.(s := s'), target, passes[1..])
  {
    var p := DrivePass(ch, s, target, pass.memory, v);
    DrivenNext(v, target, passes, p);
    if p.Failed? { return p.s, Some(QueueError); }
    s' := p.s.(now := pass.exit.at);
    HoldsSame(ch, v.(s := p.s), v.(s := s'));
    if GoesOn(pass.exit, target) { return s', None; }
    done := Some(if pass.exit.kind.Left? then Yielded else ReachedTime);
  }

  /** A whole `run_until` against the channel is the run of the model with the answers of `QueueReply`. */
  method DriveRun(ch: IoQueue.IoChannel, s: Sched, target: nat, passes: seq<Pass>, ghost v: Vm)
      returns (s': Sched, o: Outcome)
    requires v.s == s && Holds(ch, v)
    modifies ch
    ensures (s', o) == RunUntil(s, target, Turns(v, target, passes))
    ensures Holds(ch, v.(s := s'))
  {
    if target < s.now { return s, TargetInPast; }
    if target == s.now { return s, ReachedTime; }
    s' := s;
    var i := 0;
    while i < |passes|
      invariant 0 <= i <= |passes| && Holds(ch, v.(s := s'))
      invariant Driven(v, target, passes) == Driven(v.(s := s'), target, passes[i..])
    {
      var done;
      assert passes[i..][1..] == passes[i + 1..];
      s', done := DriveTurn(ch, s', target, passes[i], passes[i..], v.(s := s'));
      if done.Some? { return s', done.value; }
      i := i + 1;
    }
    assert passes[i..] == [];
    o := StillRunning;
  }

  // Whole paths

  datatype Command = RunTo(target: nat, passes: seq<Pass>) | FetchOne | ForkOff

  function StepOf(v: Vm, c: Command): Step {
    match c
    case RunTo(target, passes) => Step.Run(target, Turns(v, target, passes))
    case FetchOne => Fetch
    case ForkOff => Fork
  }

  /** The path of the model that the commands take. */
  function Steps(v: Vm, commands: seq<Command>): seq<Step>
    decreases |commands|
  {
    if commands == [] then [] else [StepOf(v, commands[0])] + Steps(Do(v, StepOf(v, commands[0])), commands[1..])
  }

  method DriveStep(ch: IoQueue.IoChannel, s: Sched, c: Command, ghost v: Vm)
      returns (ch': IoQueue.IoChannel, s': Sched)
    requires v.s == s && Holds(ch, v)
    modifies ch
    ensures Holds(ch', Do(v, StepOf(v, c))) && s' == Do(v, StepOf(v, c)).s && (ch' == ch || fresh(ch'))
  {
    ch', s' := ch, s;
    match c
    case RunTo(target, passes) =>
      var o;
      s', o := DriveRun(ch, s, target, passes, v);
    case FetchOne =>
      var request := FetchNext(ch, v);
    case ForkOff =>
      ch' := ForkChannel(ch, v);
      s' := Branch(Freeze(s));
  }

  lemma StepsNext(v: Vm, commands: seq<Command>)
    requires commands != []
    ensures var v1 := Do(v, StepOf(v, commands[0]));
      DoAll(v, Steps(v, commands)) == DoAll(v1, Steps(v1, commands[1..]))
  {
    var v1 := Do(v, StepOf(v, commands[0]));
    assert Steps(v, commands)[1..] == Steps(v1, commands[1..]);
  }

  /** Main result: from a new branch with any stream, any runs, fetches and forks against the channel: the
      channel the path ends with has handed out exactly what the model says the guest got, and holds
      exactly what the model says waits. */
  method DrivePath(stream: seq<Action>, now: nat, commands: seq<Command>)
      returns (ch: IoQueue.IoChannel, s: Sched)
    ensures var v := Vm(Sched(now, None, false, Some(stream), []), []); var v' := DoAll(v, Steps(v, commands));
      && Valid(v') && s == v'.s && fresh(ch)
      && ch.taken == Requests(Got(v')) && ch.Undelivered() == Requests(Waits(v'))
  {
    s := Sched(now, None, false, Some(stream), []);
    ghost var v0 := Vm(s, []);
    ghost var v := v0;
    ch := new IoQueue.IoChannel();
    var i := 0;
    while i < |commands|
      invariant 0 <= i <= |commands| && fresh(ch) && v.s == s && Holds(ch, v) && Valid(v)
      invariant DoAll(v0, Steps(v0, commands)) == DoAll(v, Steps(v, commands[i..]))
    {
      assert commands[i..][0] == commands[i] && commands[i..][1..] == commands[i + 1..];
      StepsNext(v, commands[i..]);
      StepShrinks(v, StepOf(v, commands[i]));
      ch, s := DriveStep(ch, s, commands[i], v);
      v := Do(v, StepOf(v, commands[i]));
      i := i + 1;
    }
    assert commands[i..] == [];
  }

  // When nothing is refused

  ghost predicate AllFit(a: seq<Action>) { forall i :: 0 <= i < |a| ==> Fits(a[i]) }

  ghost predicate HasMemory(commands: seq<Command>) {
    forall i, j :: 0 <= i < |commands| && commands[i].RunTo? && 0 <= j < |commands[i].passes| ==>
      commands[i].passes[j].memory
  }

  lemma MemoryAfter(commands: seq<Command>)
    requires commands != [] && HasMemory(commands)
    ensures HasMemory(commands[1..])
  {
    var rest := commands[1..];
    forall i, j | 0 <= i < |rest| && rest[i].RunTo? && 0 <= j < |rest[i].passes| ensures rest[i].passes[j].memory {
      assert rest[i] == commands[i + 1];
    }
  }

  lemma OfferedIsAhead(s: Sched, target: nat)
    requires Offered(s, target).Some?
    ensures Ahead(s) != [] && Offered(s, target).value == Ahead(s)[0]
  {
    PulledAhead(s);
    assert Ahead(Pulled(s))[0] == Pulled(s).pending.value;
  }

  lemma PreparedAhead(s: Sched, target: nat, reply: Reply)
    requires Honest(s) && AllFit(Ahead(s)) && Prepare(s, target, reply).Prepared?
    ensures AllFit(Ahead(Prepare(s, target, reply).s))
  {
    PulledAhead(s);
    if Offered(s, target).Some? && reply == Accepted {
      var a := Ahead(s);
      AcceptedAhead(Pulled(s), target);
      assert Ahead(AfterAccepted(Pulled(s), target).0) == a[1..];
    }
  }

  lemma {:induction false} FittingRunAccepted(v: Vm, target: nat, passes: seq<Pass>)
    requires Honest(v.s) && AllFit(Ahead(v.s)) && forall j :: 0 <= j < |passes| ==> passes[j].memory
    ensures var (s', o) := Driven(v, target, passes); o != QueueError && AllFit(Ahead(s'))
    decreases |passes|
  {
    if passes != [] {
      var reply := ReplyTo(v, target, passes[0].memory);
      if Offered(v.s, target).Some? { OfferedIsAhead(v.s, target); }
      var p := Prepare(v.s, target, reply);
      assert p.Prepared?;
      DrivenNext(v, target, passes, p);
      PreparedAhead(v.s, target, reply);
      PrepareConserves(v.s, target, reply);
      var s2 := p.s.(now := passes[0].exit.at);
      assert Ahead(s2) == Ahead(p.s);
      if GoesOn(passes[0].exit, target) { FittingRunAccepted(v.(s := s2), target, passes[1..]); }
    }
  }

  /** When every action fits the channel's buffer and the allocations succeed, none is refused. */
  lemma {:induction false} FittingPathAccepted(v: Vm, commands: seq<Command>)
    requires Valid(v) && AllFit(Ahead(v.s)) && HasMemory(commands)
    ensures NoneRefused(v, Steps(v, commands))
    decreases |commands|
  {
    if commands != [] {
      var c := commands[0];
      var v1 := Do(v, StepOf(v, c));
      if c.RunTo? { FittingRunAccepted(v, c.target, c.passes); }
      assert AllFit(Ahead(v1.s));
      StepShrinks(v, StepOf(v, c));
      MemoryAfter(commands);
      FittingPathAccepted(v1, commands[1..]);
      assert Steps(v, commands)[1..] == Steps(v1, commands[1..]);
    }
  }
}
