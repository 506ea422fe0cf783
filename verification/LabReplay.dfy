/** Where the replay of a rewind may end. `rewind` runs a branch of the best checkpoint to the target and
    ignores how the run ended (crates/bedrock-lab/src/checkpoint.rs). */
module LabReplay {
  import opened Options
  import opened LabTree
  import opened LabRewind
  import opened LabGraphs
  import S = Scheduler
  import P = SchedulerPaths

  /** The VM during a replay, whatever its queue answers: time does not go back and, where a stop is set
      (zero means none), it does not run past it; a stop in the past takes effect at once. */
  ghost predicate KeepsStops(s: S.Sched, target: nat, turns: seq<S.Turn>)
    decreases |turns|
  {
    turns == [] ||
    (var p, at := S.Prepare(s, target, turns[0].reply), turns[0].exit.at;
      p.Prepared? ==>
        && s.now <= at && (p.stop == 0 || at <= p.stop || at == s.now)
        && KeepsStops(p.s.(now := at), target, turns[1..]))
  }

  /** Every run by such a VM ends at or before the target. */
  ghost predicate NeverPasses(s: S.Sched, target: nat) {
    forall turns :: KeepsStops(s, target, turns) ==> S.RunUntil(s, target, turns).0.now <= target
  }

  /** The action at `i` switches the stop off: it is at time zero, and every action before it, of which
      there is at least one, is queued by the target. */
  ghost predicate SwitchesOff(a: seq<S.Action>, target: nat, i: nat) {
    && 1 <= i < |a| && a[i].at == 0
    && forall j :: 0 <= j < i ==> a[j].at <= target
  }

  ghost predicate StopsStaySet(a: seq<S.Action>, target: nat) { forall i: nat :: !SwitchesOff(a, target, i) }

  // The safe half

  ghost predicate Safe(s: S.Sched, target: nat) {
    S.Honest(s) && 0 < target && s.now <= target && StopsStaySet(P.Ahead(s), target)
  }

  lemma OffLater(a: seq<S.Action>, target: nat, i: nat)
    requires a != [] && a[0].at <= target && SwitchesOff(a[1..], target, i)
    ensures SwitchesOff(a, target, i + 1)
  {
    assert forall j :: 1 <= j <= i ==> a[j] == a[1..][j - 1];
  }

  /** Taking the head leaves the same actions to reach. */
  lemma TakenStaysSet(a: seq<S.Action>, target: nat)
    requires a != [] && a[0].at <= target && StopsStaySet(a, target)
    ensures StopsStaySet(a[1..], target) && (|a| > 1 ==> a[1].at > 0)
  {
    var b := a[1..];
    forall i: nat ensures !SwitchesOff(b, target, i) {
      if SwitchesOff(b, target, i) { OffLater(a, target, i); }
    }
    if |a| > 1 { assert !SwitchesOff(a, target, 1); }
  }

  lemma TurnSafe(s: S.Sched, target: nat, reply: S.Reply)
    requires Safe(s, target)
    ensures var p := S.Prepare(s, target, reply);
      p.s.now == s.now && (p.Prepared? ==> Safe(p.s, target) && 0 < p.stop <= target)
  {
    P.PulledAhead(s);
    S.PulledKeeps(s);
    var s1 := S.Pulled(s);
    if S.Offered(s, target).Some? && reply == S.Accepted {
      assert P.Ahead(s)[0] == s1.pending.value;
      TakenStaysSet(P.Ahead(s), target);
      var s2, stop := P.Takes(s, target);
    }
  }

  lemma {:induction false} LoopSafe(s: S.Sched, target: nat, turns: seq<S.Turn>)
    requires Safe(s, target) && KeepsStops(s, target, turns)
    ensures s.now <= S.Loop(s, target, turns).0.now <= target
    decreases |turns|
  {
    if turns != [] {
      TurnSafe(s, target, turns[0].reply);
      var p, e := S.Prepare(s, target, turns[0].reply), turns[0].exit;
      if p.Prepared? {
        P.LoopNext(s, target, turns, p);
        var s2 := p.s.(now := e.at);
        assert P.Ahead(s2) == P.Ahead(p.s);
        if S.GoesOn(e, target) { LoopSafe(s2, target, turns[1..]); }
      }
    }
  }

  // The failing half

  lemma FirstOf(s: S.Sched, s': S.Sched, target: nat, stop: nat, at: nat, rest: seq<S.Turn>)
    requires S.Prepare(s, target, S.Accepted) == S.Prepared(s', stop)
    requires s.now <= at && (stop == 0 || at <= stop || at == s.now) && KeepsStops(s'.(now := at), target, rest)
    ensures var turns := [S.Turn(S.Accepted, S.Exit(S.Resumed, at))] + rest;
      KeepsStops(s, target, turns) && S.Loop(s, target, turns) == S.Loop(s'.(now := at), target, rest)
  {
    var turns := [S.Turn(S.Accepted, S.Exit(S.Resumed, at))] + rest;
    assert turns[1..] == rest;
  }

  lemma LeavesAt(s: S.Sched, s': S.Sched, target: nat, at: nat)
    requires S.Prepare(s, target, S.Accepted) == S.Prepared(s', 0) && s.now <= at
    ensures var turns := [S.Turn(S.Accepted, S.Exit(S.Left, at))];
      KeepsStops(s, target, turns) && S.Loop(s, target, turns).0.now == at
  {
    var turns := [S.Turn(S.Accepted, S.Exit(S.Left, at))];
    assert turns[1..] == [];
  }

  /** The VM runs to the time of each action before the one at zero, where that is queued. Behind the last
      of them no stop is set, and it leaves at any time from the target on. */
  lemma {:induction false} ReplayMayRunAnywhere(s: S.Sched, target: nat, i: nat, late: nat)
      returns (turns: seq<S.Turn>)
    requires S.Honest(s) && s.now <= target <= late && SwitchesOff(P.Ahead(s), target, i)
    ensures KeepsStops(s, target, turns) && S.Loop(s, target, turns).0.now == late
    decreases i, if s.now < P.Ahead(s)[0].at then 1 else 0
  {
    var a := P.Ahead(s);
    if s.now < a[0].at {
      P.WaitsFor(s, target);
      var s1 := S.Pulled(s).(now := a[0].at);
      assert P.Ahead(s1) == a;
      var rest := ReplayMayRunAnywhere(s1, target, i, late);
      FirstOf(s, S.Pulled(s), target, a[0].at, a[0].at, rest);
      turns := [S.Turn(S.Accepted, S.Exit(S.Resumed, a[0].at))] + rest;
    } else {
      var s1, stop := P.Takes(s, target);
      if i == 1 {
        LeavesAt(s, s1, target, late);
        turns := [S.Turn(S.Accepted, S.Exit(S.Left, late))];
      } else {
        assert s1.(now := s.now) == s1;
        assert forall j :: 0 <= j < i ==> P.Ahead(s1)[j] == a[j + 1];
        var rest := ReplayMayRunAnywhere(s1, target, i - 1, late);
        FirstOf(s, s1, target, stop, s.now, rest);
        turns := [S.Turn(S.Accepted, S.Exit(S.Resumed, s.now))] + rest;
      }
    }
  }

  /** Main result, for every stream, sorted or not, overdue or not: a replay never passes its target exactly
      when no action at time zero stands behind actions that are all due by the target. */
  lemma NeverPassesExactly(s: S.Sched, target: nat)
    requires S.Honest(s) && s.now < target
    ensures NeverPasses(s, target) <==>
      !exists i :: 1 <= i < |P.Ahead(s)| && P.Ahead(s)[i].at == 0 && forall j :: 0 <= j < i ==>
        P.Ahead(s)[j].at <= target
  {
    var a := P.Ahead(s);
    if StopsStaySet(a, target) {
      forall i | 1 <= i < |a| && a[i].at == 0 ensures !forall j :: 0 <= j < i ==> a[j].at <= target {
        assert !SwitchesOff(a, target, i);
      }
      forall turns | KeepsStops(s, target, turns) ensures S.RunUntil(s, target, turns).0.now <= target {
        LoopSafe(s, target, turns);
      }
    } else {
      var i: nat :| SwitchesOff(a, target, i);
      var turns := ReplayMayRunAnywhere(s, target, i, target + 1);
      assert KeepsStops(s, target, turns);
    }
  }

  /** Then the checkpoint a rewind inserts keeps the tree in order, wherever the replay ended. */
  lemma ReplayKeepsOrder(g: Graph, id: Id, x: Id, target: nat, k: nat, s: S.Sched, turns: seq<S.Turn>)
    requires Ordered(g) && x in g.nodes && g.nodes[x].alive && target <= g.nodes[x].time && Fills(g, x, target, k)
    requires id !in g.nodes && forall y :: y in g.nodes ==> y < id
    requires s.now == TimeAt(g, LiveChain(g, x), k) && S.Honest(s) && KeepsStops(s, target, turns)
    requires StopsStaySet(P.Ahead(s), target)
    ensures k > 0
    ensures Ordered(Inserted(g, id, S.RunUntil(s, target, turns).0.now, LiveChain(g, x)[k], LiveChain(g, x)[k - 1]))
  {
    GapSplits(g, x, target, k, id);
    LoopSafe(s, target, turns);
    InsertedOrdered(g, id, S.RunUntil(s, target, turns).0.now, LiveChain(g, x)[k], LiveChain(g, x)[k - 1]);
  }

  /** Every replay of the rewind by a VM that keeps its stops leaves the tree in order. */
  ghost predicate AlwaysInOrder(g: Graph, id: Id, best: Id, child: Id, s: S.Sched, target: nat) {
    forall turns :: KeepsStops(s, target, turns) ==>
      Ordered(Inserted(g, id, S.RunUntil(s, target, turns).0.now, best, child))
  }

  /** Main result, for every gap in every tree: that holds exactly when the stops stay set. */
  lemma ReplayOrderExactly(g: Graph, id: Id, x: Id, target: nat, k: nat, s: S.Sched)
    requires Ordered(g) && x in g.nodes && g.nodes[x].alive && target <= g.nodes[x].time && Fills(g, x, target, k)
    requires id !in g.nodes && forall y :: y in g.nodes ==> y < id
    requires s.now == TimeAt(g, LiveChain(g, x), k) && S.Honest(s)
    ensures k > 0
    ensures AlwaysInOrder(g, id, LiveChain(g, x)[k], LiveChain(g, x)[k - 1], s, target) <==>
      StopsStaySet(P.Ahead(s), target)
  {
    GapSplits(g, x, target, k, id);
    var best, child := LiveChain(g, x)[k], LiveChain(g, x)[k - 1];
    if StopsStaySet(P.Ahead(s), target) {
      forall turns | KeepsStops(s, target, turns)
        ensures Ordered(Inserted(g, id, S.RunUntil(s, target, turns).0.now, best, child))
      {
        ReplayKeepsOrder(g, id, x, target, k, s, turns);
      }
    } else {
      var i: nat :| SwitchesOff(P.Ahead(s), target, i);
      var turns := ReplayMayRunAnywhere(s, target, i, g.nodes[child].time);
      assert KeepsStops(s, target, turns);
      InsertedOrdered(g, id, g.nodes[child].time, best, child);
    }
  }

  /** A root that was made well after time zero, and two actions whose time is the special "at once" value:
      both are overdue, so the stream is not regular, and the stop is switched off all the same. */
  lemma OverdueStreamPasses(first: S.Action, second: S.Action)
    requires first.at == 0 && second.at == 0
    ensures var s := S.Sched(10, None, false, Some([first, second]), []);
      S.Honest(s) && !P.Regular(s) && SwitchesOff(P.Ahead(s), 20, 1) && !NeverPasses(s, 20)
  {
    var s := S.Sched(10, None, false, Some([first, second]), []);
    assert P.Ahead(s) == [first, second];
    assert SwitchesOff(P.Ahead(s), 20, 1);
    assert !P.AllFrom(P.Ahead(s), 10);
    NeverPassesExactly(s, 20);
  }

  ghost function Two(): Graph { Graph(map[0 := Node(10, true), 1 := Node(30, true)], map[1 := 0]) }

  method TwoCheckpoints() returns (lab: LabGraph)
    ensures fresh(lab) && lab.Valid() && lab.G() == Two() && lab.nextId == 2
  {
    lab := new LabGraph();
    var root := lab.RegisterCheckpoint(10, None);
    var x := lab.RegisterCheckpoint(30, Some(root));
  }

  /** Rewinding the later one to 20 fills the gap below it. */
  lemma TheGap(k: nat)
    ensures Ordered(Two()) && LiveChain(Two(), 1) == [1, 0] && !NoneBefore(Two(), 1, 20)
    ensures Nearest(Two(), 1, 20, k) ==> k == 1
  {
    assert LiveChain(Two(), 0) == [0];
    assert TimeAt(Two(), [1, 0], 1) == 10 && TimeAt(Two(), [1, 0], 0) == 30;
    assert Nearest(Two(), 1, 20, 1);
  }

  lemma InsertedPast()
    ensures var g := Inserted(Two(), 2, 100, 0, 1);
      && g == Graph(map[0 := Node(10, true), 1 := Node(30, true), 2 := Node(100, true)], map[1 := 2, 2 := 0])
      && !Ordered(g)
  {
    var g := Inserted(Two(), 2, 100, 0, 1);
    assert g.parent[1] == 2 && !Precedes(g, 2, 1);
  }

  /** From an empty lab: a root at 10, a checkpoint at 30 and a rewind of it to 20. Whenever an action
      ahead of the root switches the stop off, the replay by a VM that keeps every stop it is given may end
      at 100; then the new checkpoint is later than its child. */
  method RewindBreaksOrder(ghost s: S.Sched, ghost i: nat) returns (lab: LabGraph, ghost turns: seq<S.Turn>)
    requires S.Honest(s) && s.now == 10 && SwitchesOff(P.Ahead(s), 20, i)
    ensures KeepsStops(s, 20, turns) && S.RunUntil(s, 20, turns).0.now == 100
    ensures lab.Consistent() && !Ordered(lab.G())
    ensures lab.G() == Graph(map[0 := Node(10, true), 1 := Node(30, true), 2 := Node(100, true)], map[1 := 2, 2 := 0])
  {
    turns := ReplayMayRunAnywhere(s, 20, i, 100);
    lab := TwoCheckpoints();
    var r, k := lab.Rewind(1, 10, Some(100));
    TheGap(k);
    InsertedPast();
  }
}
