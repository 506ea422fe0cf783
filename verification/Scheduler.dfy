/** How a branch injects the I/O actions of its input source: `run_until` and `prepare_next_io_input` of
    crates/bedrock-lab/src/branch.rs, and what checkpoints and forks carry over
    (crates/bedrock-lab/src/checkpoint.rs).

    The VM is outside: a turn is one pass of the run loop, with the queue's answer, if it is asked, and the
    exit that ends the pass. */
module Scheduler {
  import opened Options

  datatype Action = Action(at: nat, target: string, command: string, recordOutput: bool)

  /** An action accepted by the VM's queue, and the branch's time when it was. */
  datatype Queued = Queued(action: Action, time: nat)

  /** `source` is what is left of the input source's I/O stream, if there is a source; `queued` is the
      history along the path to this branch. */
  datatype Sched = Sched(
    now: nat,
    pending: Option<Action>,
    exhausted: bool,
    source: Option<seq<Action>>,
    queued: seq<Queued>)

  datatype Reply = Accepted | Busy | Refused

  datatype Kind =
    | StopTscReached
    | Resumed              // feedback registration, randomness fed, full event buffer, plain continue
    | Left                 // ready, I/O response, exhausted randomness, or anything the loop does not handle

  datatype Exit = Exit(kind: Kind, at: nat)

  datatype Turn = Turn(reply: Reply, exit: Exit)

  datatype Outcome = ReachedTime | Yielded | TargetInPast | QueueError | StillRunning

  // Looking at the stream

  function Rest(s: Sched): seq<Action> { if s.source.Some? then s.source.value else [] }

  function Waiting(s: Sched): seq<Action> { if s.pending.Some? then [s.pending.value] else [] }

  function Actions(q: seq<Queued>): seq<Action> { seq(|q|, i requires 0 <= i < |q| => q[i].action) }

  /** The whole stream as this branch sees it: queued, then pending, then still in the source. */
  function Total(s: Sched): seq<Action> { Actions(s.queued) + Waiting(s) + Rest(s) }

  // One preparation

  /** Take the next action from the source, if none is pending. */
  function Pulled(s: Sched): Sched {
    if s.pending.Some? || s.source.None? then s
    else if s.source.value == [] then s.(exhausted := true)
    else s.(pending := Some(s.source.value[0]), source := Some(s.source.value[1..]))
  }

  function Min(a: nat, b: nat): nat { if a <= b then a else b }

  /** After queueing, the next action is taken at once and its time bounds the next stop. */
  function AfterAccepted(s: Sched, target: nat): (Sched, nat)
    requires s.pending.Some?
  {
    var s1 := Pulled(s.(pending := None, queued := s.queued + [Queued(s.pending.value, s.now)]));
    (s1, if s1.pending.Some? then Min(s1.pending.value.at, target) else target)
  }

  datatype Prepared = Prepared(s: Sched, stop: nat) | Failed(s: Sched)

  /** `prepare_next_io_input`: the new state and the time to stop at, or a refused action. */
  function Prepare(s: Sched, target: nat, reply: Reply): Prepared {
    if s.exhausted then Prepared(s, target)
    else
      var s1 := Pulled(s);
      if s1.pending.None? then Prepared(s1, target)
      else if s1.pending.value.at > target then Prepared(s1, target)
      else if s1.pending.value.at > s1.now then Prepared(s1, s1.pending.value.at)
      else match reply
        case Accepted => Prepared(AfterAccepted(s1, target).0, AfterAccepted(s1, target).1)
        case Busy => Prepared(s1, target)
        case Refused => Failed(s1.(pending := None))
  }

  /** The action a preparation offers to the queue, if it gets that far. */
  function Offered(s: Sched, target: nat): Option<Action> {
    var s1 := Pulled(s);
    if s.exhausted || s1.pending.None? || s1.pending.value.at > target || s1.pending.value.at > s1.now then None
    else s1.pending
  }

  // The run loop

  function Loop(s: Sched, target: nat, turns: seq<Turn>): (Sched, Outcome)
    decreases |turns|
  {
    if turns == [] then (s, StillRunning)
    else match Prepare(s, target, turns[0].reply)
      case Failed(s1) => (s1, QueueError)
      case Prepared(s1, _) =>
        var s2 := s1.(now := turns[0].exit.at);
        match turns[0].exit.kind
        case StopTscReached => if s2.now >= target then (s2, ReachedTime) else Loop(s2, target, turns[1..])
        case Resumed => Loop(s2, target, turns[1..])
        case Left => (s2, Yielded)
  }

  /** Another pass follows this exit. */
  predicate GoesOn(e: Exit, target: nat) { e.kind.Resumed? || (e.kind.StopTscReached? && e.at < target) }

  /** The stop the VM must be given in each pass. */
  function Stops(s: Sched, target: nat, turns: seq<Turn>): seq<nat>
    decreases |turns|
  {
    if turns == [] then []
    else match Prepare(s, target, turns[0].reply)
      case Failed(_) => []
      case Prepared(s1, stop) =>
        [stop] + if GoesOn(turns[0].exit, target) then Stops(s1.(now := turns[0].exit.at), target, turns[1..]) else []
  }

  function RunUntil(s: Sched, target: nat, turns: seq<Turn>): (Sched, Outcome) {
    if target < s.now then (s, TargetInPast)
    else if target == s.now then (s, ReachedTime)
    else Loop(s, target, turns)
  }

  // Conservation

  /** The exhausted flag is only set with nothing left. */
  ghost predicate Honest(s: Sched) { s.exhausted ==> s.pending.None? && Rest(s) == [] }

  lemma PulledKeeps(s: Sched)
    requires Honest(s)
    ensures Honest(Pulled(s)) && Total(Pulled(s)) == Total(s)
    ensures Pulled(s).now == s.now && Pulled(s).queued == s.queued
  {
    var s1 := Pulled(s);
    if s.pending.None? && s.source.Some? && s.source.value != [] {
      assert Waiting(s1) + Rest(s1) == s.source.value;
      assert Total(s1) == Actions(s.queued) + (Waiting(s1) + Rest(s1));
    }
  }

  lemma QueuedKeeps(s: Sched, time: nat)
    requires s.pending.Some?
    ensures Total(s.(pending := None, queued := s.queued + [Queued(s.pending.value, time)])) == Total(s)
  {
    var q' := s.queued + [Queued(s.pending.value, time)];
    assert Actions(q') == Actions(s.queued) + [s.pending.value];
  }

  /** A preparation that does not fail loses nothing, adds nothing and reorders nothing. */
  lemma PrepareConserves(s: Sched, target: nat, reply: Reply)
    requires Honest(s) && Prepare(s, target, reply).Prepared?
    ensures Honest(Prepare(s, target, reply).s) && Total(Prepare(s, target, reply).s) == Total(s)
  {
    var s1 := Pulled(s);
    PulledKeeps(s);
    if Offered(s, target).Some? && reply == Accepted {
      var s2 := s1.(pending := None, queued := s1.queued + [Queued(s1.pending.value, s1.now)]);
      QueuedKeeps(s1, s1.now);
      PulledKeeps(s2);
    }
  }

  /** A refused action is lost: exactly that one. */
  lemma RefusedIsLost(s: Sched, target: nat, reply: Reply)
    requires Honest(s) && Prepare(s, target, reply).Failed?
    ensures Offered(s, target).Some? && reply == Refused
    ensures var s' := Prepare(s, target, reply).s;
      && Honest(s') && s'.queued == s.queued && s'.pending.None?
      && Total(s) == Actions(s.queued) + [Offered(s, target).value] + Rest(s')
      && Total(s') == Actions(s.queued) + Rest(s')
  {
    PulledKeeps(s);
  }

  /** A queue never accepts an action before its time. */
  ghost predicate NoneEarly(q: seq<Queued>) { forall i :: 0 <= i < |q| ==> q[i].action.at <= q[i].time }

  lemma PrepareNotEarly(s: Sched, target: nat, reply: Reply)
    requires NoneEarly(s.queued)
    ensures NoneEarly(Prepare(s, target, reply).s.queued) && s.queued <= Prepare(s, target, reply).s.queued
  {}

  /** Over a whole `run_until`, barring a refusal, the stream is conserved and in order, and nothing is
      queued early. */
  lemma {:induction false} LoopConserves(s: Sched, target: nat, turns: seq<Turn>)
    requires Honest(s) && NoneEarly(s.queued)
    ensures var (s', o) := Loop(s, target, turns);
      && Honest(s') && NoneEarly(s'.queued) && s.queued <= s'.queued
      && (o != QueueError ==> Total(s') == Total(s))
    decreases |turns|
  {
    if turns != [] {
      PrepareNotEarly(s, target, turns[0].reply);
      match Prepare(s, target, turns[0].reply)
      case Failed(_) => RefusedIsLost(s, target, turns[0].reply);
      case Prepared(s1, _) =>
        PrepareConserves(s, target, turns[0].reply);
        LoopConserves(s1.(now := turns[0].exit.at), target, turns[1..]);
    }
  }

  /** A run that ends in a refused action has lost exactly one action. */
  lemma {:induction false} LoopLosesOne(s: Sched, target: nat, turns: seq<Turn>)
    requires Honest(s) && Loop(s, target, turns).1 == QueueError
    ensures |Total(Loop(s, target, turns).0)| + 1 == |Total(s)|
    decreases |turns|
  {
    match Prepare(s, target, turns[0].reply)
    case Failed(_) => RefusedIsLost(s, target, turns[0].reply);
    case Prepared(s1, _) =>
      PrepareConserves(s, target, turns[0].reply);
      LoopLosesOne(s1.(now := turns[0].exit.at), target, turns[1..]);
  }
}
