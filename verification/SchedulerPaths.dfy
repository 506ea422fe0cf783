/** Injection along whole paths of runs, checkpoints and forks. */
module SchedulerPaths {
  import opened Scheduler
  import opened Options

  // Checkpoints and forks

  /** The part of a checkpoint that schedules. */
  datatype Frozen = Frozen(time: nat, pending: Option<Action>, exhausted: bool, source: Option<seq<Action>>,
    queued: seq<Queued>)

  function Freeze(s: Sched): Frozen { Frozen(s.now, s.pending, s.exhausted, s.source, s.queued) }

  /** `branch`: a clone of the source, and the pending action and flag as they are. */
  function Branch(f: Frozen): Sched { Sched(f.time, f.pending, f.exhausted, f.source, f.queued) }

  /** `branch_with_input_source`: another source, but the old pending action and flag. */
  function BranchWith(f: Frozen, source: seq<Action>): Sched {
    Sched(f.time, f.pending, f.exhausted, Some(source), f.queued)
  }

  datatype Op =
    | Run(target: nat, turns: seq<Turn>)
    | CheckpointAndBranch

  function Apply(s: Sched, op: Op): Sched {
    match op
    case Run(target, turns) => RunUntil(s, target, turns).0
    case CheckpointAndBranch => Branch(Freeze(s))
  }

  /** No run of the path ends in a refused action. */
  ghost predicate Unrefused(s: Sched, ops: seq<Op>)
    decreases |ops|
  {
    ops == [] ||
    ((ops[0].Run? ==>
      RunUntil(s, ops[0].target, ops[0].turns).1 != QueueError) && Unrefused(Apply(s, ops[0]), ops[1..]))
  }

  function After(s: Sched, ops: seq<Op>): Sched
    decreases |ops|
  {
    if ops == [] then s else After(Apply(s, ops[0]), ops[1..])
  }

  /** Along any path of runs, checkpoints and forks without a refused action: what was queued, then what
      is pending, then what the source still has, is always the original stream, and nothing was queued
      before its time. */
  lemma {:induction false} PathConserves(s: Sched, ops: seq<Op>)
    requires Honest(s) && NoneEarly(s.queued) && Unrefused(s, ops)
    ensures Total(After(s, ops)) == Total(s)
    ensures Honest(After(s, ops)) && NoneEarly(After(s, ops).queued) && s.queued <= After(s, ops).queued
    decreases |ops|
  {
    if ops != [] {
      if ops[0].Run? { LoopConserves(s, ops[0].target, ops[0].turns); }
      PathConserves(Apply(s, ops[0]), ops[1..]);
    }
  }

  /** From a fresh start, the queued actions are a prefix of the stream. */
  lemma QueuedIsPrefix(stream: seq<Action>, now: nat, ops: seq<Op>)
    requires Unrefused(Sched(now, None, false, Some(stream), []), ops)
    ensures Actions(After(Sched(now, None, false, Some(stream), []), ops).queued) <= stream
  {
    var s := Sched(now, None, false, Some(stream), []);
    PathConserves(s, ops);
    assert Total(s) == stream;
  }

  /** The stream a branch has before it, not counting what its path had queued already. */
  function Ahead(s: Sched): seq<Action> { Waiting(s) + Rest(s) }

  // A source that has run dry

  /** A checkpoint that had run dry silences every source given to its branches. */
  lemma {:induction false} ExhaustedQueuesNothing(s: Sched, ops: seq<Op>)
    requires s.exhausted
    ensures After(s, ops).queued == s.queued && After(s, ops).exhausted
    decreases |ops|
  {
    if ops != [] {
      if ops[0].Run? { ExhaustedLoop(s, ops[0].target, ops[0].turns); }
      ExhaustedQueuesNothing(Apply(s, ops[0]), ops[1..]);
    }
  }

  lemma {:induction false} ExhaustedLoop(s: Sched, target: nat, turns: seq<Turn>)
    requires s.exhausted
    ensures Loop(s, target, turns).0.queued == s.queued && Loop(s, target, turns).0.exhausted
    decreases |turns|
  {
    if turns != [] { ExhaustedLoop(s.(now := turns[0].exit.at), target, turns[1..]); }
  }

  // Exact times

  ghost predicate Sorted(a: seq<Action>) { forall i, j :: 0 <= i < j < |a| ==> a[i].at <= a[j].at }

  ghost predicate AllFrom(a: seq<Action>, time: nat) { forall i :: 0 <= i < |a| ==> a[i].at >= time }

  /** The stop set for the action after the next one is not the value that means "off". */
  ghost predicate StopsStayOn(a: seq<Action>) { |a| >= 2 ==> a[1].at > 0 }

  ghost predicate LaterNonZero(a: seq<Action>) { forall i :: 1 <= i < |a| ==> a[i].at > 0 }

  lemma SecondDecides(a: seq<Action>)
    requires Sorted(a)
    ensures LaterNonZero(a) <==> StopsStayOn(a)
  {}

  ghost predicate OnTime(q: seq<Queued>) { forall i :: 0 <= i < |q| ==> q[i].time == q[i].action.at }

  /** What lies ahead is in order and not yet due, and everything queued was queued exactly when due. */
  ghost predicate Regular(s: Sched) { Honest(s) && Sorted(Ahead(s)) && AllFrom(Ahead(s), s.now) && OnTime(s.queued) }

  ghost predicate Punctual(s: Sched) { Regular(s) && LaterNonZero(Ahead(s)) }

  /** The VM during a run: its queue is never full, time does not go back and, where a stop is set (zero
      means none), it does not run past it; a stop in the past takes effect at once. */
  ghost predicate Obeys(s: Sched, target: nat, turns: seq<Turn>)
    decreases |turns|
  {
    turns == [] ||
    (var turn := turns[0];
      && turn.reply == Accepted && Prepare(s, target, turn.reply).Prepared?
      && s.now <= turn.exit.at
      && (var stop := Prepare(s, target, turn.reply).stop; stop == 0 || turn.exit.at <= stop || turn.exit.at == s.now)
      && Obeys(Prepare(s, target, turn.reply).s.(now := turn.exit.at), target, turns[1..]))
  }

  lemma PulledAhead(s: Sched)
    ensures Ahead(Pulled(s)) == Ahead(s)
  {
    if s.pending.None? && s.source.Some? && s.source.value != [] {
      assert [s.source.value[0]] + s.source.value[1..] == s.source.value;
    }
  }

  /** Queueing takes the head of what is ahead. */
  lemma AcceptedAhead(s: Sched, target: nat)
    requires s.pending.Some?
    ensures Ahead(s) == [s.pending.value] + Ahead(AfterAccepted(s, target).0)
    ensures AfterAccepted(s, target).0.queued == s.queued + [Queued(s.pending.value, s.now)]
  {
    PulledAhead(s.(pending := None, queued := s.queued + [Queued(s.pending.value, s.now)]));
  }

  /** The stop a preparation sets is never past the next action, and never the value that means "off". */
  ghost predicate Ready(s: Sched, target: nat, p: Prepared) {
    p.Prepared? && Punctual(p.s) && 0 < p.stop <= target && s.now <= p.stop && AllFrom(Ahead(p.s), p.stop) &&
      p.s.now == s.now
  }

  lemma PreparePunctual(s: Sched, target: nat)
    requires Punctual(s) && 0 < target && s.now <= target
    ensures Ready(s, target, Prepare(s, target, Accepted))
  {
    PulledAhead(s);
    PulledKeeps(s);
    var s1 := Pulled(s);
    if s.exhausted || s1.pending.None? {
      assert Ahead(s) == [] && Ahead(s1) == [];
    } else {
      assert Ahead(s1)[0] == s1.pending.value;
      if s1.pending.value.at <= s1.now {
        TakenPunctual(s1, target);
      } else {
        NotDuePunctual(s1, target);
      }
    }
  }

  lemma NotDuePunctual(s: Sched, target: nat)
    requires Punctual(s) && s.pending.Some? && s.now < s.pending.value.at && 0 < target && s.now <= target
    ensures Ready(s, target, Prepared(s, Min(s.pending.value.at, target)))
  {
    assert Ahead(s)[0] == s.pending.value;
  }

  lemma TakenPunctual(s: Sched, target: nat)
    requires Punctual(s) && s.pending.Some? && s.pending.value.at <= s.now && !s.exhausted && 0 < target
    requires s.now <= target
    ensures var (s1, stop) := AfterAccepted(s, target); Ready(s, target, Prepared(s1, stop))
  {
    AcceptedAhead(s, target);
    var (s1, stop) := AfterAccepted(s, target);
    var a, b := Ahead(s), Ahead(s1);
    assert forall i :: 0 <= i < |b| ==> b[i] == a[i + 1];
    assert a[0] == s.pending.value;
    if s1.pending.Some? { assert b[0] == s1.pending.value; } else { assert b == []; }
    QueuedOnTime(s.queued, s.pending.value, s.now);
  }

  lemma QueuedOnTime(q: seq<Queued>, a: Action, now: nat)
    requires OnTime(q) && a.at == now
    ensures OnTime(q + [Queued(a, now)])
  {}

  lemma TurnPunctual(s: Sched, target: nat, at: nat)
    requires Punctual(s) && 0 < target && s.now <= target && s.now <= at
    requires var p := Prepare(s, target, Accepted); p.Prepared? && (p.stop == 0 || at <= p.stop || at == s.now)
    ensures Punctual(Prepare(s, target, Accepted).s.(now := at)) && at <= target
  {
    PreparePunctual(s, target);
    var s1 := Prepare(s, target, Accepted).s;
    assert Ahead(s1.(now := at)) == Ahead(s1);
  }

  /** One pass of the loop. */
  lemma LoopNext(s: Sched, target: nat, turns: seq<Turn>, p: Prepared)
    requires turns != [] && p == Prepare(s, target, turns[0].reply) && p.Prepared?
    ensures var e := turns[0].exit; var s2 := p.s.(now := e.at);
      Loop(s, target, turns) == if GoesOn(e, target) then Loop(s2, target, turns[1..])
        else (s2, if e.kind.Left? then Yielded else ReachedTime)
  {}

  ghost predicate EndsWell(s: Sched, target: nat, r: (Sched, Outcome)) {
    Punctual(r.0) && s.now <= r.0.now <= target && r.1 != QueueError && (r.1 == ReachedTime ==> r.0.now == target)
  }

  /** With such a VM a run queues every action at exactly its time; when it returns, every action that is
      still ahead is not due before the time reached. */
  lemma {:induction false} LoopPunctual(s: Sched, target: nat, turns: seq<Turn>)
    requires Punctual(s) && 0 < target && s.now <= target && Obeys(s, target, turns)
    ensures EndsWell(s, target, Loop(s, target, turns))
    decreases |turns|, 1
  {
    if turns != [] {
      var e, p := turns[0].exit, Prepare(s, target, Accepted);
      TurnPunctual(s, target, e.at);
      LoopNext(s, target, turns, p);
      LoopPunctualStep(s, target, turns, p.s.(now := e.at));
    }
  }

  lemma {:induction false} LoopPunctualStep(s: Sched, target: nat, turns: seq<Turn>, s2: Sched)
    requires turns != [] && Punctual(s2) && 0 < target && s.now <= s2.now <= target && s2.now == turns[0].exit.at
    requires Obeys(s2, target, turns[1..])
    requires var e := turns[0].exit;
      Loop(s, target, turns) == if GoesOn(e, target) then Loop(s2, target, turns[1..])
        else (s2, if e.kind.Left? then Yielded else ReachedTime)
    ensures EndsWell(s, target, Loop(s, target, turns))
    decreases |turns|, 0
  {
    if GoesOn(turns[0].exit, target) {
      LoopPunctual(s2, target, turns[1..]);
    }
  }

  ghost predicate PathObeys(s: Sched, ops: seq<Op>)
    decreases |ops|
  {
    ops == [] ||
    ((ops[0].Run? && s.now < ops[0].target ==>
      Obeys(s, ops[0].target, ops[0].turns)) && PathObeys(Apply(s, ops[0]), ops[1..]))
  }

  lemma StepPunctual(s: Sched, op: Op)
    requires Punctual(s) && (op.Run? && s.now < op.target ==> Obeys(s, op.target, op.turns))
    ensures Punctual(Apply(s, op))
  {
    if op.Run? && s.now < op.target { LoopPunctual(s, op.target, op.turns); }
  }

  /** A sorted stream of future times whose second action is not at time zero, a queue that is never busy
      and a VM that never passes its stop: along every path each queued action was queued at exactly its
      time, and nothing still ahead is overdue. */
  lemma {:induction false} PathPunctual(s: Sched, ops: seq<Op>)
    requires Punctual(s) && PathObeys(s, ops)
    ensures Punctual(After(s, ops)) && OnTime(After(s, ops).queued) && AllFrom(Ahead(After(s, ops)), After(s, ops).now)
    decreases |ops|
  {
    if ops != [] {
      StepPunctual(s, ops[0]);
      PathPunctual(Apply(s, ops[0]), ops[1..]);
    }
  }

  /** One turn that offers the pending action and lets the VM run to `at`. */
  lemma LastTurn(s: Sched, s': Sched, target: nat, stop: nat, at: nat)
    requires Prepare(s, target, Accepted) == Prepared(s', stop)
    requires s.now <= at && (stop == 0 || at <= stop || at == s.now)
    ensures var turns := [Turn(Accepted, Exit(Resumed, at))];
      Obeys(s, target, turns) && Loop(s, target, turns).0 == s'.(now := at)
  {
    var turns := [Turn(Accepted, Exit(Resumed, at))];
    assert turns[1..] == [];
  }

  lemma FirstTurn(s: Sched, s': Sched, target: nat, stop: nat, at: nat, rest: seq<Turn>)
    requires Prepare(s, target, Accepted) == Prepared(s', stop)
    requires s.now <= at && (stop == 0 || at <= stop || at == s.now) && Obeys(s'.(now := at), target, rest)
    ensures var turns := [Turn(Accepted, Exit(Resumed, at))] + rest;
      Obeys(s, target, turns) && Loop(s, target, turns) == Loop(s'.(now := at), target, rest)
  {
    var turns := [Turn(Accepted, Exit(Resumed, at))] + rest;
    assert turns[1..] == rest;
  }

  /** Preparing twice from a state with nothing but the first action due. */
  lemma SecondIsTaken(s: Sched, target: nat) returns (s1: Sched)
    requires Regular(s) && |Ahead(s)| >= 2 && Ahead(s)[1].at == 0 && 0 < target
    ensures s.now == 0 && Prepare(s, target, Accepted) == Prepared(s1, 0)
    ensures s1.now == 0 && !s1.exhausted && s1.pending == Some(Ahead(s)[1])
    ensures s1.queued == s.queued + [Queued(Ahead(s)[0], 0)]
  {
    var a, s0 := Ahead(s), Pulled(s);
    PulledAhead(s);
    assert a[0].at == 0 && s.now == 0;
    assert s0.pending.Some? && Ahead(s0)[0] == s0.pending.value;
    AcceptedAhead(s0, target);
    s1 := AfterAccepted(s0, target).0;
    assert Ahead(s1) == a[1..];
    assert s1.pending == Some(a[1]);
  }

  /** A second action at time zero switches the stop off: with any target, a VM that obeys every stop it
      is given may run to any time before that action is queued. */
  lemma ZeroTimeLosesPunctuality(s: Sched, target: nat, late: nat) returns (turns: seq<Turn>)
    requires Regular(s) && |Ahead(s)| >= 2 && Ahead(s)[1].at == 0 && 0 < target && 0 < late
    ensures Obeys(s, target, turns) && Loop(s, target, turns).0.now == late && !OnTime(Loop(s, target, turns).0.queued)
  {
    var s1 := SecondIsTaken(s, target);
    var s2 := s1.(now := late);
    var p := Prepare(s2, target, Accepted);
    assert p.Prepared? && p.s == AfterAccepted(s2, target).0;
    AcceptedAhead(s2, target);
    LastTurn(s2, p.s, target, p.stop, late);
    FirstTurn(s, s1, target, 0, late, [Turn(Accepted, Exit(Resumed, late))]);
    turns := [Turn(Accepted, Exit(Resumed, late))] + [Turn(Accepted, Exit(Resumed, late))];
    var q := p.s.queued;
    assert q[|q| - 1] == Queued(Ahead(s)[1], late);
  }

  lemma ZeroTimePath(s: Sched) returns (ops: seq<Op>)
    requires Regular(s) && !StopsStayOn(Ahead(s))
    ensures PathObeys(s, ops) && !OnTime(After(s, ops).queued)
  {
    var s1 := SecondIsTaken(s, 1);
    var turns := ZeroTimeLosesPunctuality(s, 1, 1);
    ops := OneRunPath(s, 1, turns);
  }

  lemma OneRunPath(s: Sched, target: nat, turns: seq<Turn>) returns (ops: seq<Op>)
    requires s.now < target && Obeys(s, target, turns)
    ensures PathObeys(s, ops) && After(s, ops) == Loop(s, target, turns).0
  {
    ops := [Run(target, turns)];
    assert ops[1..] == [] && Apply(s, ops[0]) == Loop(s, target, turns).0;
    assert After(s, ops) == After(Apply(s, ops[0]), []);
    assert PathObeys(Apply(s, ops[0]), []);
  }

  // Streams out of order or overdue

  /** An action that is not yet due: the preparation asks for a stop at its time. */
  lemma WaitsFor(s: Sched, target: nat)
    requires Honest(s) && Ahead(s) != [] && s.now < Ahead(s)[0].at <= target
    ensures Prepare(s, target, Accepted) == Prepared(Pulled(s), Ahead(s)[0].at)
    ensures Honest(Pulled(s)) && Ahead(Pulled(s)) == Ahead(s) && Pulled(s).now == s.now && Pulled(s).queued == s.queued
  {
    PulledAhead(s);
    PulledKeeps(s);
    assert Ahead(Pulled(s))[0] == Pulled(s).pending.value;
  }

  /** A due action is queued, and the time of the one behind it, if any, bounds the stop. */
  lemma Takes(s: Sched, target: nat) returns (s1: Sched, stop: nat)
    requires Honest(s) && Ahead(s) != [] && Ahead(s)[0].at <= s.now && Ahead(s)[0].at <= target
    ensures Prepare(s, target, Accepted) == Prepared(s1, stop)
    ensures Honest(s1) && Ahead(s1) == Ahead(s)[1..] && s1.now == s.now
    ensures s1.queued == s.queued + [Queued(Ahead(s)[0], s.now)]
    ensures stop == if |Ahead(s)| > 1 then Min(Ahead(s)[1].at, target) else target
  {
    var s0 := Pulled(s);
    PulledAhead(s);
    PulledKeeps(s);
    assert Ahead(s0)[0] == s0.pending.value;
    AcceptedAhead(s0, target);
    PrepareConserves(s, target, Accepted);
    s1, stop := AfterAccepted(s0, target).0, AfterAccepted(s0, target).1;
    assert Ahead(s1) == Ahead(s)[1..];
    if s1.pending.Some? { assert Ahead(s1)[0] == s1.pending.value; }
  }

  /** An action earlier than the one before it, or earlier than the present. */
  ghost predicate ComesLate(a: seq<Action>, now: nat, i: nat)
    requires i < |a|
  {
    a[i].at < if i == 0 then now else a[i - 1].at
  }

  /** Such an action is queued late by a VM that obeys every stop. */
  lemma {:induction false} GetsLate(s: Sched, target: nat, i: nat) returns (turns: seq<Turn>)
    requires Honest(s) && i < |Ahead(s)| && ComesLate(Ahead(s), s.now, i)
    requires forall j :: 0 <= j <= i ==> Ahead(s)[j].at <= target
    ensures Obeys(s, target, turns) && !OnTime(Loop(s, target, turns).0.queued)
    decreases i, if s.now < Ahead(s)[0].at then 1 else 0
  {
    var a := Ahead(s);
    if s.now < a[0].at {
      WaitsFor(s, target);
      var s1 := Pulled(s).(now := a[0].at);
      assert Ahead(s1) == a;
      var rest := GetsLate(s1, target, i);
      FirstTurn(s, Pulled(s), target, a[0].at, a[0].at, rest);
      turns := [Turn(Accepted, Exit(Resumed, a[0].at))] + rest;
    } else {
      var s1, stop := Takes(s, target);
      if a[0].at < s.now {
        LastTurn(s, s1, target, stop, s.now);
        turns := [Turn(Accepted, Exit(Resumed, s.now))];
        assert s1.queued[|s.queued|] == Queued(a[0], s.now);
      } else {
        assert s1.(now := s.now) == s1;
        assert forall j :: 0 <= j < i ==> Ahead(s1)[j] == a[j + 1];
        var rest := GetsLate(s1, target, i - 1);
        FirstTurn(s, s1, target, stop, s.now, rest);
        turns := [Turn(Accepted, Exit(Resumed, s.now))] + rest;
      }
    }
  }

  lemma NoneComesLate(a: seq<Action>, now: nat)
    requires forall i :: 0 <= i < |a| ==> !ComesLate(a, now, i)
    ensures Sorted(a) && AllFrom(a, now)
  {
    NoneComesLateBefore(a, now, |a|);
    assert a[..|a|] == a;
  }

  lemma {:induction false} NoneComesLateBefore(a: seq<Action>, now: nat, k: nat)
    requires k <= |a| && forall i :: 0 <= i < |a| ==> !ComesLate(a, now, i)
    ensures Sorted(a[..k]) && AllFrom(a[..k], now)
  {
    if k > 0 {
      NoneComesLateBefore(a, now, k - 1);
      assert !ComesLate(a, now, k - 1);
      if k > 1 { assert a[..k - 1][k - 2] == a[k - 2]; }
    }
  }

  function Latest(a: seq<Action>, t: nat): (m: nat)
    ensures m >= t && forall i :: 0 <= i < |a| ==> a[i].at <= m
    decreases |a|
  {
    if a == [] then t else Latest(a[..|a| - 1], if a[|a| - 1].at <= t then t else a[|a| - 1].at)
  }

  /** A path that queues an action late, wherever the stream or the history is irregular. */
  lemma IrregularPath(s: Sched) returns (ops: seq<Op>)
    requires Honest(s) && !Regular(s)
    ensures PathObeys(s, ops) && !OnTime(After(s, ops).queued)
  {
    var a := Ahead(s);
    if !OnTime(s.queued) {
      ops := [];
    } else {
      if forall i :: 0 <= i < |a| ==> !ComesLate(a, s.now, i) {
        NoneComesLate(a, s.now);
      }
      var i: nat :| i < |a| && ComesLate(a, s.now, i);
      var target := Latest(a, s.now) + 1;
      var turns := GetsLate(s, target, i);
      ops := OneRunPath(s, target, turns);
    }
  }

  /** Every path of a VM that obeys its stops queues every action at exactly its time. */
  ghost predicate AlwaysOnTime(s: Sched) { forall ops :: PathObeys(s, ops) ==> OnTime(After(s, ops).queued) }

  /** Main result: whatever the stream, that holds if and only if everything queued so far was on time, what
      is ahead is in order and not overdue, and the second action ahead, if there is one, is not at time
      zero. */
  lemma PunctualExactly(s: Sched)
    requires Honest(s)
    ensures AlwaysOnTime(s) <==>
      OnTime(s.queued) && Sorted(Ahead(s)) && AllFrom(Ahead(s), s.now) && StopsStayOn(Ahead(s))
  {
    if !Regular(s) {
      var ops := IrregularPath(s);
      assert PathObeys(s, ops);
    } else if StopsStayOn(Ahead(s)) {
      SecondDecides(Ahead(s));
      forall ops | PathObeys(s, ops) ensures OnTime(After(s, ops).queued) { PathPunctual(s, ops); }
    } else {
      var ops := ZeroTimePath(s);
      assert PathObeys(s, ops);
    }
  }
}
