/** What becomes of the queued actions: the guest fetches them in order, and a fork drops those still
    waiting (`IoChannelState::clone_for_fork` of crates/bedrock-vmx/src/vm_state.rs). A fetch during a
    run is taken after it, which makes no difference: only forks drop. */
module GuestDelivery {
  import opened Scheduler
  import opened SchedulerPaths
  import opened Options

  datatype Fate = Fetched | Lost

  /** `settled` says what became of the first actions queued; the others wait in the VM's channel. */
  datatype Vm = Vm(s: Sched, settled: seq<Fate>)

  datatype Step = Run(target: nat, turns: seq<Turn>) | Fetch | Fork

  function Waits(v: Vm): seq<Action> { if |v.settled| <= |v.s.queued| then Actions(v.s.queued)[|v.settled|..] else [] }

  /** The actions of `a` that met fate `f`. */
  function Select(a: seq<Action>, fates: seq<Fate>, f: Fate): seq<Action>
    requires |fates| <= |a|
  {
    if fates == [] then []
    else Select(a, fates[..|fates| - 1], f) + if fates[|fates| - 1] == f then [a[|fates| - 1]] else []
  }

  ghost predicate Valid(v: Vm) { |v.settled| <= |v.s.queued| && Honest(v.s) && NoneEarly(v.s.queued) }

  function Got(v: Vm): seq<Action>
    requires |v.settled| <= |v.s.queued|
  {
    Select(Actions(v.s.queued), v.settled, Fetched)
  }

  function Dropped(v: Vm): seq<Action>
    requires |v.settled| <= |v.s.queued|
  {
    Select(Actions(v.s.queued), v.settled, Lost)
  }

  function Do(v: Vm, step: Step): Vm {
    match step
    case Run(target, turns) => v.(s := RunUntil(v.s, target, turns).0)
    case Fetch => if Waits(v) != [] then v.(settled := v.settled + [Fetched]) else v
    case Fork => Vm(Branch(Freeze(v.s)), v.settled + seq(|Waits(v)|, _ => Lost))
  }

  function DoAll(v: Vm, steps: seq<Step>): Vm
    decreases |steps|
  {
    if steps == [] then v else DoAll(Do(v, steps[0]), steps[1..])
  }

  ghost predicate NoneRefused(v: Vm, steps: seq<Step>)
    decreases |steps|
  {
    steps == [] ||
    ((steps[0].Run? ==>
      RunUntil(v.s, steps[0].target, steps[0].turns).1 != QueueError) && NoneRefused(Do(v, steps[0]), steps[1..]))
  }

  // Conservation

  /** From `v` on nothing of the stream was added or lost, and what is settled stayed settled. */
  ghost predicate Conserved(v: Vm, v': Vm) {
    Valid(v') && Total(v'.s) == Total(v.s) && v.settled <= v'.settled && v.s.queued <= v'.s.queued
  }

  lemma StepConserves(v: Vm, step: Step)
    requires Valid(v) && (step.Run? ==> RunUntil(v.s, step.target, step.turns).1 != QueueError)
    ensures Conserved(v, Do(v, step))
  {
    if step.Run? { LoopConserves(v.s, step.target, step.turns); }
  }

  lemma {:induction false} StepsConserve(v: Vm, steps: seq<Step>)
    requires Valid(v) && NoneRefused(v, steps)
    ensures Conserved(v, DoAll(v, steps))
    decreases |steps|
  {
    if steps != [] {
      StepConserves(v, steps[0]);
      StepsConserve(Do(v, steps[0]), steps[1..]);
    }
  }

  /** Along any path of runs, fetches, checkpoints and forks without a refused action, the stream is what
      is settled, then what waits for the guest, then what is ahead; and what is settled stays settled. */
  lemma PathDelivers(v: Vm, steps: seq<Step>)
    requires Valid(v) && NoneRefused(v, steps)
    ensures var v' := DoAll(v, steps);
      Conserved(v, v') && Actions(v'.s.queued)[..|v'.settled|] + Waits(v') + Ahead(v'.s) == Total(v.s)
  {
    StepsConserve(v, steps);
    StreamSplits(DoAll(v, steps));
  }

  lemma StreamSplits(v: Vm)
    requires |v.settled| <= |v.s.queued|
    ensures Actions(v.s.queued)[..|v.settled|] + Waits(v) + Ahead(v.s) == Total(v.s)
  {
    assert Actions(v.s.queued) == Actions(v.s.queued)[..|v.settled|] + Waits(v);
  }

  // What gets lost

  /** Nothing waits whenever the path forks. */
  ghost predicate ForksClean(v: Vm, steps: seq<Step>)
    decreases |steps|
  {
    steps == [] || ((steps[0].Fork? ==> Waits(v) == []) && ForksClean(Do(v, steps[0]), steps[1..]))
  }

  ghost predicate IsRefused(v: Vm, step: Step) {
    step.Run? && RunUntil(v.s, step.target, step.turns).1 == QueueError
  }

  /** A step loses one action of the stream if it is a run that ends in a refusal, and none otherwise. */
  lemma StepShrinks(v: Vm, step: Step)
    requires Valid(v)
    ensures Valid(Do(v, step)) && v.settled <= Do(v, step).settled && v.s.queued <= Do(v, step).s.queued
    ensures |Total(Do(v, step).s)| == |Total(v.s)| - (if IsRefused(v, step) then 1 else 0)
  {
    if IsRefused(v, step) {
      LoopConserves(v.s, step.target, step.turns);
      LoopLosesOne(v.s, step.target, step.turns);
    } else {
      StepConserves(v, step);
    }
  }

  lemma {:induction false} StepsShrink(v: Vm, steps: seq<Step>)
    requires Valid(v)
    ensures Valid(DoAll(v, steps)) && v.settled <= DoAll(v, steps).settled
    ensures |Total(DoAll(v, steps).s)| <= |Total(v.s)|
    decreases |steps|
  {
    if steps != [] {
      StepShrinks(v, steps[0]);
      StepsShrink(Do(v, steps[0]), steps[1..]);
    }
  }

  /** Nothing of the stream vanished, and nothing that was queued was dropped. */
  ghost predicate Intact(v: Vm, v': Vm) { Lost !in v'.settled && Total(v'.s) == Total(v.s) }

  /** Main result: no action of the stream is lost on the way to the guest exactly when the queue refuses
      none and nothing waits at any fork of the path. */
  lemma {:induction false} NothingLostExactly(v: Vm, steps: seq<Step>)
    requires Valid(v) && Lost !in v.settled
    ensures Intact(v, DoAll(v, steps)) <==> NoneRefused(v, steps) && ForksClean(v, steps)
    decreases |steps|
  {
    if steps != [] {
      var v1 := Do(v, steps[0]);
      StepShrinks(v, steps[0]);
      StepsShrink(v1, steps[1..]);
      if !IsRefused(v, steps[0]) {
        StepConserves(v, steps[0]);
        if steps[0].Fork? && Waits(v) != [] {
          assert v1.settled[|v.settled|] == Lost;
          assert DoAll(v1, steps[1..]).settled[|v.settled|] == Lost;
        } else {
          NothingLostExactly(v1, steps[1..]);
        }
      }
    }
  }

  lemma {:induction false} SelectAll(a: seq<Action>, fates: seq<Fate>)
    requires |fates| <= |a| && Lost !in fates
    ensures Select(a, fates, Fetched) == a[..|fates|]
    decreases |fates|
  {
    if fates != [] {
      var front := fates[..|fates| - 1];
      assert forall f :: f in front ==> f in fates;
      SelectAll(a, front);
      assert fates[|fates| - 1] in fates;
    }
  }

  lemma {:induction false} SelectCounts(a: seq<Action>, fates: seq<Fate>)
    requires |fates| <= |a|
    ensures |Select(a, fates, Fetched)| <= |fates|
    ensures Lost in fates ==> |Select(a, fates, Fetched)| < |fates|
    decreases |fates|
  {
    if fates != [] { SelectCounts(a, fates[..|fates| - 1]); }
  }

  /** Main result, from a new branch: what the guest has got, what waits for it and what is ahead make up
      the stream, in order, exactly when the queue refuses nothing and nothing waits at any fork. */
  lemma GuestGetsFrontExactly(stream: seq<Action>, now: nat, steps: seq<Step>)
    ensures var v := Vm(Sched(now, None, false, Some(stream), []), []); var v' := DoAll(v, steps);
      && |v'.settled| <= |v'.s.queued|
      && (Got(v') + Waits(v') + Ahead(v'.s) == stream <==> NoneRefused(v, steps) && ForksClean(v, steps))
  {
    var v := Vm(Sched(now, None, false, Some(stream), []), []);
    var v' := DoAll(v, steps);
    assert Total(v.s) == stream;
    StepsShrink(v, steps);
    NothingLostExactly(v, steps);
    FrontExactly(v', stream);
  }

  lemma FrontExactly(v: Vm, stream: seq<Action>)
    requires |v.settled| <= |v.s.queued| && |Total(v.s)| <= |stream|
    ensures Got(v) + Waits(v) + Ahead(v.s) == stream <==> Lost !in v.settled && Total(v.s) == stream
  {
    var a := Actions(v.s.queued);
    StreamSplits(v);
    SelectCounts(a, v.settled);
    if Lost !in v.settled {
      SelectAll(a, v.settled);
    } else {
      assert |Got(v) + Waits(v) + Ahead(v.s)| < |Total(v.s)|;
    }
  }

  /** A run that queues an action due at once and a fork before the guest has fetched it. */
  lemma ForkDropsAction() returns (a: Action, steps: seq<Step>)
    ensures var v := Vm(Sched(0, None, false, Some([a]), []), []);
      NoneRefused(v, steps) && DoAll(v, steps).settled == [Lost] && Ahead(DoAll(v, steps).s) == []
  {
    a := Action(0, "", "", false);
    var s, turns := Sched(0, None, false, Some([a]), []), [Turn(Accepted, Exit(StopTscReached, 1))];
    var p := Prepare(s, 1, Accepted);
    assert [a][1..] == [];
    assert p == Prepared(Sched(0, None, true, Some([]), [Queued(a, 0)]), 1);
    LoopNext(s, 1, turns, p);
    steps := [Step.Run(1, turns), Fork];
    var v, v1 := Vm(s, []), Vm(p.s.(now := 1), []);
    assert Do(v, steps[0]) == v1 && steps[1..] == [Fork] && [Fork][1..] == [];
    assert |Waits(v1)| == 1;
    assert Do(v1, Fork).settled == [Lost];
    assert DoAll(v1, [Fork]) == DoAll(Do(v1, Fork), []) && NoneRefused(v1, [Fork]);
  }
}
