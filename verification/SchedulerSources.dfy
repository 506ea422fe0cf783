/** What a branch with an input source of its own queues: `branch_with_input_source` of
    crates/bedrock-lab/src/checkpoint.rs. */
module SchedulerSources {
  import opened Scheduler
  import opened SchedulerPaths
  import opened Options

  /** The actions queued since `before`. */
  function Since(before: seq<Queued>, after: seq<Queued>): seq<Action> {
    if |before| <= |after| then Actions(after)[|before|..] else []
  }

  // Along any path the new actions are the front of what was ahead

  lemma Front(q: seq<Action>, added: seq<Action>, rest: seq<Action>, ahead: seq<Action>)
    requires q + added + rest == q + ahead
    ensures added + rest == ahead
  {
    assert (q + added + rest)[|q|..] == added + rest && (q + ahead)[|q|..] == ahead;
  }

  lemma SinceIsFront(s: Sched, ops: seq<Op>)
    requires Honest(s) && NoneEarly(s.queued) && Unrefused(s, ops)
    ensures Since(s.queued, After(s, ops).queued) + Ahead(After(s, ops)) == Ahead(s)
  {
    PathConserves(s, ops);
    var s' := After(s, ops);
    SinceSplits(s, s');
    Front(Actions(s.queued), Since(s.queued, s'.queued), Ahead(s'), Ahead(s));
  }

  lemma SinceSplits(s: Sched, s': Sched)
    requires s.queued <= s'.queued
    ensures Total(s') == Actions(s.queued) + Since(s.queued, s'.queued) + Ahead(s')
    ensures Total(s) == Actions(s.queued) + Ahead(s)
  {
    assert Actions(s'.queued) == Actions(s.queued) + Since(s.queued, s'.queued);
  }

  /** From a checkpoint, a branch with its own source queues nothing if the old source had run dry; else the
      inherited pending action, if there is one, and then the new stream from its start. */
  lemma BranchQueues(f: Frozen, source: seq<Action>, ops: seq<Op>)
    requires Honest(Branch(f)) && NoneEarly(f.queued) && Unrefused(BranchWith(f, source), ops)
    ensures var added := Since(f.queued, After(BranchWith(f, source), ops).queued);
      if f.exhausted then added == []
      else if f.pending.None? then added <= source
      else added == [] || (added[0] == f.pending.value && added[1..] <= source)
  {
    var s := BranchWith(f, source);
    if f.exhausted {
      ExhaustedQueuesNothing(s, ops);
    } else {
      SinceIsFront(s, ops);
      var added, rest := Since(f.queued, After(s, ops).queued), Ahead(After(s, ops));
      if f.pending.Some? && added != [] {
        assert Ahead(s)[1..] == source && (added + rest)[1..] == added[1..] + rest;
        assert (added + rest)[0] == f.pending.value;
      } else if f.pending.None? {
        assert Ahead(s) == source;
      }
    }
  }

  // A path that queues everything

  ghost predicate DueBy(a: seq<Action>, t: nat) { forall i :: 0 <= i < |a| ==> a[i].at <= t }

  function Passes(t: nat, n: nat): seq<Turn> { seq(n, _ => Turn(Accepted, Exit(Resumed, t))) }

  /** One pass keeps what is ahead, or takes its head; when everything is due it takes the head. */
  lemma PassTakes(s: Sched, t: nat)
    requires Honest(s) && DueBy(Ahead(s), t) && s.now <= t
    ensures var p := Prepare(s, t, Accepted);
      && p.Prepared? && Honest(p.s)
      && (Ahead(p.s) == Ahead(s) || (Ahead(s) != [] && Ahead(p.s) == Ahead(s)[1..]))
      && (s.now == t && Ahead(s) != [] ==> Ahead(p.s) == Ahead(s)[1..])
  {
    PulledAhead(s);
    PulledKeeps(s);
    var s1 := Pulled(s);
    if !s.exhausted && s1.pending.Some? {
      assert Ahead(s1)[0] == s1.pending.value;
      AcceptedAhead(s1, t);
      PulledKeeps(s1.(pending := None, queued := s1.queued + [Queued(s1.pending.value, s1.now)]));
    } else {
      assert Ahead(s) == [];
    }
  }

  lemma PassesNext(s: Sched, t: nat, n: nat, s1: Sched, stop: nat)
    requires Prepare(s, t, Accepted) == Prepared(s1, stop)
    ensures Loop(s, t, Passes(t, n + 1)) == Loop(s1.(now := t), t, Passes(t, n))
  {
    assert Passes(t, n + 1)[1..] == Passes(t, n);
    LoopNext(s, t, Passes(t, n + 1), Prepared(s1, stop));
  }

  ghost predicate Drained(r: (Sched, Outcome)) { r.1 == StillRunning && Ahead(r.0) == [] }

  /** The state after one pass to time `t`. */
  lemma OnePass(s: Sched, t: nat, n: nat) returns (s2: Sched)
    requires Honest(s) && DueBy(Ahead(s), t) && s.now <= t
    ensures Loop(s, t, Passes(t, n + 1)) == Loop(s2, t, Passes(t, n))
    ensures Honest(s2) && DueBy(Ahead(s2), t) && s2.now == t && |Ahead(s2)| <= |Ahead(s)|
    ensures s.now == t && Ahead(s) != [] ==> |Ahead(s2)| == |Ahead(s)| - 1
  {
    var p := Prepare(s, t, Accepted);
    PassTakes(s, t);
    PassesNext(s, t, n, p.s, p.stop);
    s2 := p.s.(now := t);
    assert Ahead(s2) == Ahead(p.s);
  }

  lemma {:induction false} PassesDrain(s: Sched, t: nat, n: nat)
    requires Honest(s) && DueBy(Ahead(s), t) && s.now == t && |Ahead(s)| <= n
    ensures Drained(Loop(s, t, Passes(t, n)))
    decreases n
  {
    if n > 0 {
      var s2 := OnePass(s, t, n - 1);
      PassesDrain(s2, t, n - 1);
    }
  }

  lemma DrainingRun(s: Sched, t: nat)
    requires Honest(s) && s.now < t && DueBy(Ahead(s), t)
    ensures Drained(Loop(s, t, Passes(t, |Ahead(s)| + 1)))
  {
    var s2 := OnePass(s, t, |Ahead(s)|);
    PassesDrain(s2, t, |Ahead(s)|);
  }

  lemma OneRun(s: Sched, t: nat, turns: seq<Turn>)
    requires s.now < t && Loop(s, t, turns).1 != QueueError
    ensures Unrefused(s, [Run(t, turns)]) && After(s, [Run(t, turns)]) == Loop(s, t, turns).0
  {
    var ops := [Run(t, turns)];
    assert ops[1..] == [] && Apply(s, ops[0]) == Loop(s, t, turns).0;
    assert After(s, ops) == After(Apply(s, ops[0]), []);
    assert Unrefused(Apply(s, ops[0]), []);
  }

  lemma QueuesAll(s: Sched) returns (ops: seq<Op>)
    requires Honest(s) && NoneEarly(s.queued)
    ensures Unrefused(s, ops) && Since(s.queued, After(s, ops).queued) == Ahead(s)
  {
    var t := Latest(Ahead(s), s.now) + 1;
    DrainingRun(s, t);
    OneRun(s, t, Passes(t, |Ahead(s)| + 1));
    ops := [Run(t, Passes(t, |Ahead(s)| + 1))];
    SinceIsFront(s, ops);
  }

  // When a branch plays its own source

  /** Whatever path the branch takes, it queues only its own stream, from the start. */
  ghost predicate PlaysOnlyOwn(f: Frozen, source: seq<Action>) {
    forall ops :: Unrefused(BranchWith(f, source), ops) ==>
      Since(f.queued, After(BranchWith(f, source), ops).queued) <= source
  }

  /** Whatever path it takes, it queues nothing. */
  ghost predicate Silent(f: Frozen, source: seq<Action>) {
    forall ops :: Unrefused(BranchWith(f, source), ops) ==>
      Since(f.queued, After(BranchWith(f, source), ops).queued) == []
  }

  /** Main result: a branch plays only its own source exactly when the checkpoint had nothing pending. */
  lemma OwnSourceExactly(f: Frozen, source: seq<Action>)
    requires Honest(Branch(f)) && NoneEarly(f.queued)
    ensures PlaysOnlyOwn(f, source) <==> f.pending.None?
  {
    var s := BranchWith(f, source);
    if f.pending.None? {
      forall ops | Unrefused(s, ops) ensures Since(f.queued, After(s, ops).queued) <= source {
        BranchQueues(f, source, ops);
      }
    } else {
      var ops := QueuesAll(s);
      assert Unrefused(s, ops) && |Since(f.queued, After(s, ops).queued)| == |source| + 1;
    }
  }

  /** And it is silent exactly when the old source had run dry, or there is nothing to play. */
  lemma SilentExactly(f: Frozen, source: seq<Action>)
    requires Honest(Branch(f)) && NoneEarly(f.queued)
    ensures Silent(f, source) <==> f.exhausted || (f.pending.None? && source == [])
  {
    var s := BranchWith(f, source);
    if f.exhausted || (f.pending.None? && source == []) {
      forall ops | Unrefused(s, ops) ensures Since(f.queued, After(s, ops).queued) == [] {
        BranchQueues(f, source, ops);
      }
    } else {
      var ops := QueuesAll(s);
      assert Unrefused(s, ops) && |Since(f.queued, After(s, ops).queued)| > 0;
    }
  }

  // A checkpoint a run leaves behind

  /** A branch runs to time 3 while the next action, due at 5, has been taken from the source: the checkpoint
      made there has it pending, and a branch of it with another stream queues it. */
  lemma InheritedActionIsQueued() returns (f: Frozen, first: Action, source: seq<Action>, ops: seq<Op>)
    ensures f ==
      Freeze(After(Sched(0, None, false, Some([first]), []), [Run(3, [Turn(Accepted, Exit(StopTscReached, 3))])]))
    ensures first !in source && Unrefused(BranchWith(f, source), ops)
    ensures Since(f.queued, After(BranchWith(f, source), ops).queued) == [first] + source
  {
    first, source := Action(5, "", "a", false), [Action(7, "", "b", false)];
    var s, turns := Sched(0, None, false, Some([first]), []), [Turn(Accepted, Exit(StopTscReached, 3))];
    assert [first][1..] == [];
    var p := Prepare(s, 3, Accepted);
    assert p == Prepared(Sched(0, Some(first), false, Some([]), []), 3);
    LoopNext(s, 3, turns, p);
    OneRun(s, 3, turns);
    f := Freeze(After(s, [Run(3, turns)]));
    assert f == Frozen(3, Some(first), false, Some([]), []);
    ops := QueuesAll(BranchWith(f, source));
  }
}
