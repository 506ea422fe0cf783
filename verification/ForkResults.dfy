/** The promises of the fork protocol, over every interleaving of its steps from the empty handler. */
module ForkResults {
  import opened ForkProtocol
  import opened ForkInvariant
  import opened ForkSteps
  import opened ForkSupport
  import opened Options

  ghost predicate Reachable(s: State) { exists steps :: Runs(Init, steps) && After(Init, steps) == s }

  ghost predicate Full(s: State) { Inv(s) && Extras(s) }

  lemma {:induction false} RunKeepsFull(s: State, steps: seq<Step>)
    requires Full(s) && Runs(s, steps)
    ensures Full(After(s, steps))
    decreases |steps|
  {
    if steps != [] {
      var s' := Apply(s, steps[0]);
      StepKeepsInv(s, steps[0], s');
      StepKeepsExtras(s, steps[0], s');
      RunKeepsFull(s', steps[1..]);
    }
  }

  lemma InitIsFull()
    ensures Full(Init)
  {}

  lemma ReachableIsFull(s: State)
    requires Reachable(s)
    ensures Full(s)
  {
    var steps :| Runs(Init, steps) && After(Init, steps) == s;
    InitIsFull();
    RunKeepsFull(Init, steps);
  }

  lemma ReachableInit()
    ensures Reachable(Init)
  {
    var none: seq<Step> := [];
    assert Runs(Init, none) && After(Init, none) == Init;
  }

  lemma ReachableStep(s: State, step: Step, s': State)
    requires Reachable(s) && Enabled(s, step) && s' == Apply(s, step)
    ensures Reachable(s')
  {
    var steps :| Runs(Init, steps) && After(Init, steps) == s;
    RunAppend(Init, steps, step);
    assert After(Init, steps + [step]) == s';
  }

  lemma {:induction false} RunAppend(s: State, steps: seq<Step>, step: Step)
    requires Runs(s, steps) && Enabled(After(s, steps), step)
    ensures Runs(s, steps + [step]) && After(s, steps + [step]) == Apply(After(s, steps), step)
    decreases |steps|
  {
    if steps == [] {
      assert Runs(Apply(s, step), []);
      assert [step][1..] == [];
    } else {
      RunAppend(Apply(s, steps[0]), steps[1..], step);
      assert (steps + [step])[1..] == steps[1..] + [step];
    }
  }

  // Child counts and RUN

  /** In every interleaving, failed forks and closes included, `children_count` is the number of live
      forked children plus the forks in flight, and the reference count is the references that exist. */
  lemma CountsAreExact(s: State, o: Obj)
    requires Reachable(s) && o in s.vms
    ensures s.vms[o].children == |Kids(s.vms, o)| + |InFlight(s.threads, o)|
    ensures s.vms[o].strong == |Holders(s.threads, o)| + |Kids(s.vms, o)| + One(InList(s.list, o)) + One(o in s.fds)
  {
    ReachableIsFull(s);
    assert CountsOk(s, o);
  }

  lemma OnlyOneRuns(s: State, t: Tid, o: Obj)
    requires Reachable(s) && RunsOn(s, t, o)
    ensures forall u :: u in s.threads && u != t ==> !InRun(s.threads[u], o)
  {
    ReachableIsFull(s);
    forall u | u in s.threads && u != t ensures !InRun(s.threads[u], o) {
      assert InRun(s.threads[u], o) ==> RunsOn(s, u, o);
    }
  }

  /** A RUN gets past its check exactly when the VM has no live child and no fork in flight, and no
      other thread is inside RUN on it; a RUN that does not leaves the flag clear. */
  lemma RunPassesExactlyWhenChildless(s: State, t: Tid)
    requires Reachable(s) && Enabled(s, RunTest(t))
    ensures var o := s.threads[t].obj; var s' := Apply(s, RunTest(t));
      && o in s.vms && o in s'.vms
      && (t in s'.threads <==> Kids(s.vms, o) == {} && InFlight(s.threads, o) == {})
      && (t in s'.threads ==> s'.threads[t] == Running(o) && s'.vms[o].running)
      && (t !in s'.threads ==> !s'.vms[o].running)
      && forall u :: u in s'.threads && u != t ==> !InRun(s'.threads[u], o)
  {
    var o := s.threads[t].obj;
    ReachableIsFull(s);
    assert RunsOn(s, t, o);
    CountsAreExact(s, o);
    OnlyOneRuns(s, t, o);
  }

  /** No VM past its RUN check has a child or a fork in flight. */
  ghost predicate Undisturbed(s: State) {
    forall t :: t in s.threads && s.threads[t].Running? && s.threads[t].obj in s.vms ==>
      s.vms[s.threads[t].obj].children == 0
  }

  /** Some thread is past its RUN check on `o`. */
  ghost predicate Executing(s: State, o: Obj) { exists t :: t in s.threads && s.threads[t] == Running(o) }

  /** The fork a step starts, if it starts one. */
  function Starts(s: State, step: Step): Option<Obj> {
    if step.ForkPhase1? && |s.list| < MAX_VMS then Find(s.list, step.parentId) else None
  }

  /** One root VM with id 1 at address 7, listed and open. */
  ghost function OneRoot(children: int, strong: int, running: bool, nextId: nat, threads: map<Tid, Phase>): State {
    State(map[7 := Vm(1, None, strong, children, running)], [(1, 7)], nextId, {7}, threads)
  }

  lemma OneRootIsReachable()
    ensures Reachable(OneRoot(0, 2, false, 2, map[]))
  {
    var vm := Vm(1, None, 1, 0, false);
    var s1 := State(map[], [], 2, {}, map[0 := RootHasId(1)]);
    var s2 := State(map[7 := vm], [], 2, {}, map[0 := Built(7)]);
    var s3 := State(map[7 := vm.(strong := 2)], [(1, 7)], 2, {}, map[0 := Listed(7)]);
    ReachableInit();
    ReachableStep(Init, RootAlloc(0), s1);
    ReachableStep(s1, RootBuild(0, true, 7), s2);
    ReachableStep(s2, Register(0), s3);
    assert Apply(s3, GetFd(0, true)) == OneRoot(0, 2, false, 2, map[]);
    ReachableStep(s3, GetFd(0, true), OneRoot(0, 2, false, 2, map[]));
  }

  lemma OneRootExecutes()
    ensures Reachable(OneRoot(0, 2, true, 2, map[1 := Running(7)]))
  {
    var s4 := OneRoot(0, 2, false, 2, map[]);
    var s5 := OneRoot(0, 2, true, 2, map[1 := RunCheck(7)]);
    OneRootIsReachable();
    assert Apply(s4, RunEnter(1, 7)) == s5;
    ReachableStep(s4, RunEnter(1, 7), s5);
    assert Apply(s5, RunTest(1)) == OneRoot(0, 2, true, 2, map[1 := Running(7)]);
    ReachableStep(s5, RunTest(1), OneRoot(0, 2, true, 2, map[1 := Running(7)]));
  }

  /** The check is made on entry only and a fork does not look at the running flag: a fork may start
      while its parent executes. */
  lemma ForkMayDisturbRun() returns (s: State, step: Step)
    ensures Reachable(s) && Undisturbed(s) && Enabled(s, step)
    ensures Reachable(Apply(s, step)) && !Undisturbed(Apply(s, step))
  {
    s := OneRoot(0, 2, true, 2, map[1 := Running(7)]);
    step := ForkPhase1(2, 1);
    OneRootExecutes();
    var s' := OneRoot(1, 3, true, 3, map[1 := Running(7), 2 := Forking(7, 2)]);
    assert Find(s.list, 1) == Some(7);
    assert Apply(s, step) == s';
    ReachableStep(s, step, s');
    assert s'.threads[1] == Running(7) && s'.vms[7].children == 1;
  }

  /** Only starting a fork adds to a child count. */
  lemma StepChildren(s: State, step: Step, s': State)
    requires Enabled(s, step) && s' == Apply(s, step)
    ensures forall o :: o in s'.vms && o !in s.vms ==> s'.vms[o].children == 0
    ensures forall o :: o in s'.vms && o in s.vms && Starts(s, step) != Some(o) ==>
      s'.vms[o].children <= s.vms[o].children
    ensures Starts(s, step).Some? && Starts(s, step).value in s.vms ==>
      Starts(s, step).value in s'.vms &&
        s'.vms[Starts(s, step).value].children == s.vms[Starts(s, step).value].children + 1
  {}

  /** Only passing the check enters RUN. */
  lemma StepRunning(s: State, step: Step, s': State)
    requires Enabled(s, step) && s' == Apply(s, step)
    ensures forall t :: t in s'.threads && s'.threads[t].Running? ==>
      || (t in s.threads && s.threads[t] == s'.threads[t])
      || (s'.threads[t].obj in s.vms && s.vms[s'.threads[t].obj].children == 0 && Starts(s, step) == None)
    ensures Starts(s, step).Some? ==> forall t :: t in s.threads ==> t in s'.threads && s'.threads[t] == s.threads[t]
  {}

  /** A step that starts a fork of an executing VM. */
  ghost predicate ForksExecuting(s: State, step: Step) { Starts(s, step).Some? && Executing(s, Starts(s, step).value) }

  lemma ForkOfExecutingDisturbs(s: State, step: Step, s': State)
    requires Reachable(s) && Enabled(s, step) && ForksExecuting(s, step) && s' == Apply(s, step)
    ensures !Undisturbed(s')
  {
    var p := Starts(s, step).value;
    ReachableIsFull(s);
    FoundIsListed(s, step.parentId);
    CountsAreExact(s, p);
    StepChildren(s, step, s');
    StepRunning(s, step, s');
    var t :| t in s.threads && s.threads[t] == Running(p);
    assert s'.threads[t] == Running(p) && s'.vms[p].children > 0;
  }

  lemma OtherStepDisturbsNot(s: State, step: Step, s': State)
    requires Undisturbed(s) && Enabled(s, step) && !ForksExecuting(s, step) && s' == Apply(s, step)
    requires forall o :: o in s'.vms ==> s'.vms[o].children >= 0
    requires forall t :: t in s.threads && s.threads[t].Running? ==> s.threads[t].obj in s.vms
    ensures Undisturbed(s')
  {
    StepChildren(s, step, s');
    StepRunning(s, step, s');
    forall t | t in s'.threads && s'.threads[t].Running? && s'.threads[t].obj in s'.vms
      ensures s'.vms[s'.threads[t].obj].children == 0
    {
      var o := s'.threads[t].obj;
      assert Executing(s, o) || !(t in s.threads && s.threads[t] == Running(o));
    }
  }

  /** Exactly the forks of an executing VM disturb a RUN. */
  lemma ForkDisturbsExactly(s: State, step: Step, s': State)
    requires Reachable(s) && Undisturbed(s) && Enabled(s, step) && s' == Apply(s, step)
    ensures Undisturbed(s') <==> !ForksExecuting(s, step)
  {
    if ForksExecuting(s, step) {
      ForkOfExecutingDisturbs(s, step, s');
    } else {
      RunningIsLive(s);
      ReachableStep(s, step, s');
      forall o | o in s'.vms ensures s'.vms[o].children >= 0 {
        CountsAreExact(s', o);
      }
      OtherStepDisturbsNot(s, step, s');
    }
  }

  lemma RunningIsLive(s: State)
    requires Reachable(s)
    ensures forall t :: t in s.threads && s.threads[t].Running? ==> s.threads[t].obj in s.vms
  {
    ReachableIsFull(s);
    forall t | t in s.threads && s.threads[t].Running? ensures s.threads[t].obj in s.vms {
      assert RunsOn(s, t, s.threads[t].obj);
    }
  }

  /** A run in which no fork starts on an executing VM. */
  ghost predicate Guarded(s: State, steps: seq<Step>)
    requires Runs(s, steps)
    decreases |steps|
  {
    steps == [] ||
    (!ForksExecuting(s, steps[0]) && Guarded(Apply(s, steps[0]), steps[1..]))
  }

  /** If no fork starts on an executing VM, no VM executes while it has a child or a fork in flight. */
  lemma {:induction false} GuardedRunsAreUndisturbed(s: State, steps: seq<Step>)
    requires Reachable(s) && Undisturbed(s) && Runs(s, steps) && Guarded(s, steps)
    ensures Undisturbed(After(s, steps))
    decreases |steps|
  {
    if steps != [] {
      ForkDisturbsExactly(s, steps[0], Apply(s, steps[0]));
      ReachableStep(s, steps[0], Apply(s, steps[0]));
      GuardedRunsAreUndisturbed(Apply(s, steps[0]), steps[1..]);
    }
  }

  // Ancestors

  /** The `n`-th ancestor of `o`; `o` itself for 0. */
  function Ancestor(s: State, o: Obj, n: nat): Option<Obj>
    decreases n
  {
    if n == 0 then Some(o)
    else if o in s.vms && s.vms[o].parent.Some? then Ancestor(s, s.vms[o].parent.value, n - 1)
    else None
  }

  lemma ParentIsLive(s: State, o: Obj)
    requires Reachable(s) && o in s.vms && s.vms[o].parent.Some?
    ensures var p := s.vms[o].parent.value; p in s.vms && s.vms[p].strong > 0 && s.vms[p].id < s.vms[o].id
  {
    ReachableIsFull(s);
    var p := s.vms[o].parent.value;
    assert o in Kids(s.vms, p);
    CountsAreExact(s, p);
  }

  /** Whatever was closed in whatever order, the whole ancestor chain of a live VM is live and
      referenced, ids decrease strictly along it, and it ends. */
  lemma {:induction false} AncestorsAreLive(s: State, o: Obj, n: nat)
    requires Reachable(s) && o in s.vms
    ensures Ancestor(s, o, n).Some? ==>
      && Ancestor(s, o, n).value in s.vms
      && (n > 0 ==> s.vms[Ancestor(s, o, n).value].strong > 0)
      && s.vms[Ancestor(s, o, n).value].id + n <= s.vms[o].id
    ensures n > s.vms[o].id ==> Ancestor(s, o, n) == None
    decreases n
  {
    if n > 0 && s.vms[o].parent.Some? {
      ParentIsLive(s, o);
      AncestorsAreLive(s, s.vms[o].parent.value, n - 1);
    }
  }

  lemma OnlyReapFrees(s: State, step: Step, o: Obj)
    requires Enabled(s, step) && o in s.vms && o !in Apply(s, step).vms
    ensures Destroys(s, step.t, o)
  {}

  /** A step that destroys a VM destroys no ancestor of a VM it leaves alive. */
  lemma ReapTakesNoAncestor(s: State, step: Step, o: Obj, n: nat)
    requires Reachable(s) && Enabled(s, step) && o in s.vms && o in Apply(s, step).vms && Ancestor(s, o, n).Some?
    ensures Ancestor(s, o, n).value in Apply(s, step).vms
  {
    AncestorsAreLive(s, o, n);
    var a := Ancestor(s, o, n).value;
    if a !in Apply(s, step).vms {
      OnlyReapFrees(s, step, a);
      DestroyedAtZero(s, step.t, a);
      assert false;
    }
  }

  lemma DestroyedAtZero(s: State, t: Tid, o: Obj)
    requires Reachable(s) && Destroys(s, t, o)
    ensures o in s.vms && s.vms[o].strong == 0
  {
    ReachableIsFull(s);
  }

  /** A VM being forked has a larger id than its parent. */
  lemma ForkIsYounger(s: State, t: Tid)
    requires Reachable(s) && t in s.threads && Forks(s.threads[t]).Some?
    ensures Forks(s.threads[t]).value in s.vms && s.vms[Forks(s.threads[t]).value].id < s.threads[t].id
  {
    ReachableIsFull(s);
  }

  /** `d` is kept alive from outside: it has a descriptor or a thread working on it. */
  ghost predicate Rooted(s: State, d: Obj) {
    d in s.fds || exists t :: t in s.threads && Names(s.threads[t]) == Some(d)
  }

  /** What keeps a VM alive: something from outside, or a child. */
  lemma WhyAlive(s: State, o: Obj)
    requires Counts(s) && ListedOwned(s) && ZeroReaped(s) && o in s.vms
    ensures Rooted(s, o) || Kids(s.vms, o) != {}
  {
    assert CountsOk(s, o);
    if s.vms[o].strong == 0 {
      var t :| Destroys(s, t, o);
      assert Names(s.threads[t]) == Some(o);
    } else if t :| t in Holders(s.threads, o) {
      assert Names(s.threads[t]) == Some(o);
    } else if InList(s.list, o) && o !in s.fds {
      var t :| t in s.threads && Owns(s.threads[t]) == Some(o);
      assert Names(s.threads[t]) == Some(o);
    } else {
      assert |Holders(s.threads, o)| == 0;
    }
  }

  /** Nothing leaks: every live VM has a descendant, possibly itself, with a descriptor or a thread. */
  lemma {:induction false} EveryVmIsRooted(s: State, o: Obj) returns (d: Obj, n: nat)
    requires Reachable(s) && o in s.vms
    ensures d in s.vms && Ancestor(s, d, n) == Some(o) && Rooted(s, d)
    decreases var k: int := s.nextId - s.vms[o].id; k
  {
    ReachableIsFull(s);
    WhyAlive(s, o);
    d, n := o, 0;
    if !Rooted(s, o) {
      var c :| c in Kids(s.vms, o);
      d, n := EveryVmIsRooted(s, c);
      AncestorAbove(s, d, n, c, o);
      n := n + 1;
    }
  }

  lemma {:induction false} AncestorAbove(s: State, d: Obj, n: nat, c: Obj, p: Obj)
    requires Ancestor(s, d, n) == Some(c) && c in s.vms && s.vms[c].parent == Some(p)
    ensures Ancestor(s, d, n + 1) == Some(p)
    decreases n
  {
    if n > 0 {
      AncestorAbove(s, s.vms[d].parent.value, n - 1, c, p);
    } else {
      assert Ancestor(s, p, 0) == Some(p);
    }
  }

  lemma ListedIsLive(s: State, i: nat)
    requires Reachable(s) && i < |s.list|
    ensures s.list[i].1 in s.vms
  {
    ReachableIsFull(s);
  }

  /** When every descriptor is closed and every call has returned, no VM is left. */
  lemma QuiescentIsEmpty(s: State)
    requires Reachable(s) && s.fds == {} && s.threads == map[]
    ensures s.vms == map[] && s.list == []
  {
    forall o ensures o !in s.vms {
      if o in s.vms {
        var d, n := EveryVmIsRooted(s, o);
        assert false;
      }
    }
    if |s.list| > 0 {
      ListedIsLive(s, 0);
      assert false;
    }
  }

  // Ids

  /** `find_vm_by_id` finds exactly the listed VM with that id. */
  lemma FindIsExact(s: State, id: nat, o: Obj)
    requires Reachable(s)
    ensures Find(s.list, id) == Some(o) <==> o in s.vms && s.vms[o].id == id && InList(s.list, o)
  {
    ReachableIsFull(s);
    FindSound(s.list, id);
    if o in s.vms && s.vms[o].id == id && InList(s.list, o) {
      var i :| 0 <= i < |s.list| && s.list[i].1 == o;
      FindComplete(s.list, id, i);
    }
  }

  lemma {:induction false} FindComplete(list: seq<(nat, Obj)>, id: nat, i: nat)
    requires i < |list| && list[i].0 == id
    ensures Find(list, id).Some?
    decreases |list|
  {
    if i > 0 {
      assert list[1..][i - 1] == list[i];
      FindComplete(list[1..], id, i - 1);
    }
  }

  /** Id `i` has been issued, no thread is about to give it to a VM, and only a VM at `o` may carry it. */
  ghost predicate Settled(s: State, i: nat, at: set<Obj>) {
    && i < s.nextId
    && (forall t :: t in s.threads ==> Reserves(s.threads[t]) != Some(i))
    && (forall x :: x in s.vms && s.vms[x].id == i ==> x in at)
  }

  lemma StepReserves(s: State, step: Step, s': State, i: nat)
    requires Enabled(s, step) && s' == Apply(s, step) && i < s.nextId
    requires forall t :: t in s.threads ==> Reserves(s.threads[t]) != Some(i)
    ensures i < s'.nextId && forall t :: t in s'.threads ==> Reserves(s'.threads[t]) != Some(i)
  {}

  lemma StepNames(s: State, step: Step, s': State, x: Obj)
    requires Enabled(s, step) && s' == Apply(s, step) && x in s'.vms
    ensures x in s.vms ==> s'.vms[x].id == s.vms[x].id
    ensures x !in s.vms ==> step.t in s.threads && Reserves(s.threads[step.t]) == Some(s'.vms[x].id)
  {}

  lemma StepKeepsSettled(s: State, step: Step, s': State, i: nat, at: set<Obj>)
    requires Enabled(s, step) && Settled(s, i, at) && s' == Apply(s, step)
    ensures Settled(s', i, at)
  {
    StepReserves(s, step, s', i);
    forall x | x in s'.vms && s'.vms[x].id == i ensures x in at {
      StepNames(s, step, s', x);
    }
  }

  lemma {:induction false} RunKeepsSettled(s: State, steps: seq<Step>, i: nat, at: set<Obj>)
    requires Runs(s, steps) && Settled(s, i, at)
    ensures Settled(After(s, steps), i, at)
    decreases |steps|
  {
    if steps != [] {
      StepKeepsSettled(s, steps[0], Apply(s, steps[0]), i, at);
      RunKeepsSettled(Apply(s, steps[0]), steps[1..], i, at);
    }
  }

  /** Whatever happens after a VM was given its id, only that VM file ever carries it. */
  lemma IdNamesOneVm(s: State, o: Obj, steps: seq<Step>, o': Obj)
    requires Reachable(s) && o in s.vms && Runs(s, steps)
    requires o' in After(s, steps).vms && After(s, steps).vms[o'].id == s.vms[o].id
    ensures o' == o
  {
    ReachableIsFull(s);
    RunKeepsSettled(s, steps, s.vms[o].id, {o});
  }

  /** Once the VM is gone its id is never carried or found again, in any continuation. */
  lemma IdIsNeverReused(s: State, id: nat, steps: seq<Step>)
    requires Reachable(s) && Runs(s, steps) && id < s.nextId
    requires forall o :: o in s.vms ==> s.vms[o].id != id
    requires forall t :: t in s.threads ==> Reserves(s.threads[t]) != Some(id)
    ensures forall o :: o in After(s, steps).vms ==> After(s, steps).vms[o].id != id
    ensures Find(After(s, steps).list, id) == None
  {
    ReachableIsFull(s);
    RunKeepsSettled(s, steps, id, {});
    RunKeepsFull(s, steps);
    FindSound(After(s, steps).list, id);
  }

  /** The id a step hands out is larger than every id handed out before. */
  lemma {:induction false} CounterOnlyGrows(s: State, steps: seq<Step>)
    requires Runs(s, steps)
    ensures s.nextId <= After(s, steps).nextId
    decreases |steps|
  {
    if steps != [] {
      assert s.nextId <= Apply(s, steps[0]).nextId;
      CounterOnlyGrows(Apply(s, steps[0]), steps[1..]);
    }
  }
}
