/** More that every interleaving keeps: forks are younger than their parents, a listed VM has an owner, and
    a VM at count zero is being destroyed. */
module ForkSupport {
  import opened ForkProtocol
  import opened ForkInvariant
  import opened ForkSteps
  import opened Options

  lemma StepKeepsInv(s: State, step: Step, s': State)
    requires Inv(s) && Enabled(s, step) && s' == Apply(s, step)
    ensures Inv(s')
  {
    match step
    case RootAlloc(t) => RootAllocKeeps(s, t);
    case RootBuild(t, ok, o) => RootBuildKeeps(s, t, ok, o);
    case ForkPhase1(t, parentId) => ForkPhase1Keeps(s, t, parentId, s');
    case ForkPhase2(t, ok) => ForkPhase2Keeps(s, t, ok);
    case ForkWrap(t, ok, o) => ForkWrapKeeps(s, t, ok, o);
    case Register(t) => RegisterKeeps(s, t, s');
    case GetFd(t, ok) => GetFdKeeps(s, t, ok, s');
    case Close(t, o) => CloseKeeps(s, t, o);
    case Unlist(t) => UnlistKeeps(s, t, s');
    case Release(t) => ReleaseKeeps(s, t, s');
    case Reap(t) => ReapKeeps(s, t, s');
    case RunEnter(t, o) => RunEnterKeeps(s, t, o, s');
    case RunTest(t) => RunTestKeeps(s, t, s');
    case RunExit(t) => RunExitKeeps(s, t, s');
  }

  // What else every run keeps

  /** A forked VM, finished or in flight, has a larger id than its parent. */
  ghost predicate Older(s: State) {
    && (forall c :: c in s.vms && s.vms[c].parent.Some? ==>
      s.vms[c].parent.value in s.vms && s.vms[s.vms[c].parent.value].id < s.vms[c].id)
    && (forall t :: t in s.threads && Forks(s.threads[t]).Some? ==>
          Forks(s.threads[t]).value in s.vms && s.vms[Forks(s.threads[t]).value].id < s.threads[t].id)
  }

  /** A VM visible by id has a descriptor, or a thread that is about to give it one or take it away. */
  ghost predicate ListedOwned(s: State) {
    forall i :: 0 <= i < |s.list| ==>
      s.list[i].1 in s.fds || exists t :: t in s.threads && Owns(s.threads[t]) == Some(s.list[i].1)
  }

  /** A VM at count zero has a thread running its destructor. */
  ghost predicate ZeroReaped(s: State) {
    forall o :: o in s.vms && s.vms[o].strong == 0 ==> exists t :: Destroys(s, t, o)
  }

  lemma OlderQuiet(s: State, s': State, t: Tid, ph: Option<Phase>)
    requires Older(s) && Quiet(s, s', t, ph)
    requires ForkedBy(ph).Some? ==> ForkedBy(ph).value in s.vms && s.vms[ForkedBy(ph).value].id < ph.value.id
    ensures Older(s')
  {}

  lemma OlderBuilt(s: State, t: Tid, vm: Vm, o: Obj)
    requires Older(s) && Builds(s, t, vm, o)
    ensures Older(WithVm(s, t, vm, o))
  {}

  lemma OlderDead(s: State, s': State, t: Tid, o: Obj)
    requires Older(s) && Counts(s) && ReapOk(s) && Dies(s, s', t, o)
    ensures Older(s')
  {
    NothingLeft(s, o);
    forall u | u in s'.threads && Forks(s'.threads[u]).Some?
      ensures Forks(s'.threads[u]).value in s'.vms && s'.vms[Forks(s'.threads[u]).value].id < s'.threads[u].id
    {
      assert u in s.threads && s.threads[u] == s'.threads[u];
      assert Holds(s.threads[u]) == Forks(s.threads[u]);
    }
  }

  ghost predicate Extras(s: State) { Older(s) && ListedOwned(s) && ZeroReaped(s) }

  lemma QuietListedOwned(s: State, s': State, t: Tid, ph: Option<Phase>)
    requires ListedOwned(s) && Quiet(s, s', t, ph)
    requires OwnedBy(Was(s.threads, t)).Some? ==> OwnedBy(ph) == OwnedBy(Was(s.threads, t))
    ensures ListedOwned(s')
  {
    forall i | 0 <= i < |s'.list| && s'.list[i].1 !in s'.fds
      ensures exists u :: u in s'.threads && Owns(s'.threads[u]) == Some(s'.list[i].1)
    {
      var u :| u in s.threads && Owns(s.threads[u]) == Some(s.list[i].1);
      assert u in s'.threads && Owns(s'.threads[u]) == Some(s.list[i].1);
    }
  }

  lemma QuietZeroReaped(s: State, s': State, t: Tid, ph: Option<Phase>)
    requires ZeroReaped(s) && Quiet(s, s', t, ph)
    requires forall o :: o in s.vms && s'.vms[o].strong == 0 ==> s.vms[o].strong == 0 || ph == Some(Reaping(o))
    requires Was(s.threads, t).Some? ==> !Was(s.threads, t).value.Reaping?
    ensures ZeroReaped(s')
  {
    forall o | o in s'.vms && s'.vms[o].strong == 0 ensures exists u :: Destroys(s', u, o) {
      if ph == Some(Reaping(o)) {
        assert Destroys(s', t, o);
      } else {
        var u :| Destroys(s, u, o);
        assert Destroys(s', u, o);
      }
    }
  }

  /** What a quiet step must respect for the extra invariants. */
  ghost predicate QuietExtra(s: State, s': State, t: Tid, ph: Option<Phase>) {
    && Quiet(s, s', t, ph)
    && (ForkedBy(ph).Some? ==> ForkedBy(ph).value in s.vms && s.vms[ForkedBy(ph).value].id < ph.value.id)
    && (OwnedBy(Was(s.threads, t)).Some? ==> OwnedBy(ph) == OwnedBy(Was(s.threads, t)))
    && (forall o :: o in s.vms && s'.vms[o].strong == 0 ==> s.vms[o].strong == 0 || ph == Some(Reaping(o)))
    && (Was(s.threads, t).Some? ==> !Was(s.threads, t).value.Reaping?)
  }

  lemma QuietExtras(s: State, s': State, t: Tid, ph: Option<Phase>)
    requires Extras(s) && QuietExtra(s, s', t, ph)
    ensures Extras(s')
  {
    OlderQuiet(s, s', t, ph);
    QuietListedOwned(s, s', t, ph);
    QuietZeroReaped(s, s', t, ph);
  }

  /** The quiet steps, and the phase each moves its thread to. */
  ghost function QuietPhase(s: State, step: Step): Option<Phase>
    requires Enabled(s, step)
  {
    match step
    case RootAlloc(t) => if |s.list| >= MAX_VMS then None else Some(RootHasId(s.nextId))
    case ForkPhase1(t, parentId) =>
      if |s.list| >= MAX_VMS ||
        Find(s.list, parentId).None? then None else Some(Forking(Find(s.list, parentId).value, s.nextId))
    case ForkPhase2(t, ok) =>
      if ok then Some(Forked(s.threads[t].from, s.threads[t].id)) else Some(DropRef(s.threads[t].from))
    case ForkWrap(t, ok, o) => Some(DropRef(s.threads[t].from))
    case GetFd(t, ok) => Some(Unlisting(s.threads[t].obj))
    case Release(t) =>
      var o := s.threads[t].obj;
      if o in s.vms && s.vms[o].strong == 1 then Some(Reaping(o)) else None
    case RunEnter(t, o) => if o in s.vms && !s.vms[o].running then Some(RunCheck(o)) else None
    case RunTest(t) =>
      if s.threads[t].obj in s.vms &&
      s.vms[s.threads[t].obj].children == 0 then Some(Running(s.threads[t].obj)) else None
    case _ => None
  }

  ghost predicate IsQuiet(step: Step) {
    match step
    case RootBuild(_, ok, _) => !ok
    case ForkWrap(_, ok, _) => !ok
    case GetFd(_, ok) => !ok
    case Register(_) => false
    case Close(_, _) => false
    case Unlist(_) => false
    case Reap(_) => false
    case _ => true
  }

  /** The facts about the thread's own VM that a quiet step relies on. */
  ghost predicate Grounded(s: State, step: Step)
    requires Enabled(s, step)
  {
    && (step.ForkPhase1? && Find(s.list, step.parentId).Some? ==>
          var p := Find(s.list, step.parentId).value; p in s.vms && s.vms[p].id < s.nextId && s.vms[p].strong > 0)
    && (step.ForkPhase2? ==> s.threads[step.t].from in s.vms && s.vms[s.threads[step.t].from].id < s.threads[step.t].id)
    && (step.Release? ==> s.threads[step.t].obj in s.vms && s.vms[s.threads[step.t].obj].strong > 0)
  }

  lemma QuietCreateExtra(s: State, step: Step)
    requires Enabled(s, step) && IsQuiet(step) && Grounded(s, step)
    requires step.RootAlloc? || step.RootBuild? || step.ForkPhase1? || step.ForkPhase2? || step.ForkWrap?
    ensures QuietExtra(s, Apply(s, step), step.t, QuietPhase(s, step))
  {
    assert step.t !in s.threads ==> s.threads - {step.t} == s.threads;
  }

  lemma QuietUseExtra(s: State, step: Step)
    requires Enabled(s, step) && IsQuiet(step) && Grounded(s, step)
    requires step.GetFd? || step.Release? || step.RunEnter? || step.RunTest? || step.RunExit?
    ensures QuietExtra(s, Apply(s, step), step.t, QuietPhase(s, step))
  {
    assert step.t !in s.threads ==> s.threads - {step.t} == s.threads;
  }

  lemma QuietStepExtra(s: State, step: Step)
    requires Enabled(s, step) && IsQuiet(step) && Grounded(s, step)
    ensures QuietExtra(s, Apply(s, step), step.t, QuietPhase(s, step))
  {
    if step.RootAlloc? || step.RootBuild? || step.ForkPhase1? || step.ForkPhase2? || step.ForkWrap? {
      QuietCreateExtra(s, step);
    } else {
      QuietUseExtra(s, step);
    }
  }

  lemma StepGrounded(s: State, step: Step)
    requires Inv(s) && Older(s) && Enabled(s, step)
    ensures Grounded(s, step)
  {
    if step.ForkPhase1? && Find(s.list, step.parentId).Some? {
      FoundIsListed(s, step.parentId);
      ListedIsReferenced(s, Find(s.list, step.parentId).value);
    }
    if step.Release? {
      assert Names(s.threads[step.t]) == Some(s.threads[step.t].obj);
      HeldIsReferenced(s, step.t, s.threads[step.t].obj);
    }
  }

  // The other steps

  lemma BuiltExtras(s: State, t: Tid, vm: Vm, o: Obj)
    requires Extras(s) && Builds(s, t, vm, o)
    ensures Extras(WithVm(s, t, vm, o))
  {
    var s' := WithVm(s, t, vm, o);
    OlderBuilt(s, t, vm, o);
    forall x | x in s'.vms && s'.vms[x].strong == 0 ensures exists u :: Destroys(s', u, x) {
      var u :| Destroys(s, u, x);
      assert Destroys(s', u, x);
    }
    forall i | 0 <= i < |s'.list| && s'.list[i].1 !in s'.fds
      ensures exists u :: u in s'.threads && Owns(s'.threads[u]) == Some(s'.list[i].1)
    {
      var u :| u in s.threads && Owns(s.threads[u]) == Some(s.list[i].1);
      assert u in s'.threads && Owns(s'.threads[u]) == Some(s.list[i].1);
    }
  }

  lemma AddedExtras(s: State, t: Tid, o: Obj)
    requires Extras(s) && Counts(s) && Adds(s, t, o)
    ensures Extras(Added(s, t, o))
  {
    var s' := Added(s, t, o);
    HeldIsReferenced(s, t, o);
    forall x | x in s'.vms && s'.vms[x].strong == 0 ensures exists u :: Destroys(s', u, x) {
      var u :| Destroys(s, u, x);
      assert Destroys(s', u, x);
    }
    forall i | 0 <= i < |s'.list| && s'.list[i].1 !in s'.fds
      ensures exists u :: u in s'.threads && Owns(s'.threads[u]) == Some(s'.list[i].1)
    {
      if i < |s.list| {
        var u :| u in s.threads && Owns(s.threads[u]) == Some(s.list[i].1);
        assert u in s'.threads && Owns(s'.threads[u]) == Some(s.list[i].1);
      } else {
        assert t in s'.threads && Owns(s'.threads[t]) == Some(o);
      }
    }
  }

  /** Steps that only move a descriptor: the raw pointer passes between `fds` and thread `t`. */
  ghost predicate Passes(s: State, s': State, t: Tid, o: Obj) {
    && s'.vms == s.vms && s'.list == s.list && s'.nextId == s.nextId
    && (forall u :: u != t ==> (u in s'.threads <==> u in s.threads))
    && (forall u :: u != t && u in s.threads ==> s'.threads[u] == s.threads[u])
    && (forall x :: x != o ==> (x in s'.fds <==> x in s.fds))
    && (o in s'.fds || (t in s'.threads && Owns(s'.threads[t]) == Some(o)))
    && (t in s'.threads ==> Forks(s'.threads[t]) == None)
    && (t in s.threads ==> Owns(s.threads[t]) == Some(o))
  }

  lemma PassExtras(s: State, s': State, t: Tid, o: Obj)
    requires Extras(s) && Passes(s, s', t, o)
    ensures Extras(s')
  {
    forall x | x in s'.vms && s'.vms[x].strong == 0 ensures exists u :: Destroys(s', u, x) {
      var u :| Destroys(s, u, x);
      assert Destroys(s', u, x);
    }
    forall i | 0 <= i < |s'.list| && s'.list[i].1 !in s'.fds
      ensures exists u :: u in s'.threads && Owns(s'.threads[u]) == Some(s'.list[i].1)
    {
      if s.list[i].1 != o {
        var u :| u in s.threads && Owns(s.threads[u]) == Some(s.list[i].1);
        assert u in s'.threads && Owns(s'.threads[u]) == Some(s.list[i].1);
      }
    }
  }

  lemma RemovedZeroReaped(s: State, s': State, t: Tid, o: Obj)
    requires ZeroReaped(s) && t in s.threads && s.threads[t] == Unlisting(o) && s'.threads == s.threads[t := DropRef(o)]
    requires s'.vms.Keys == s.vms.Keys && o in s.vms && s'.vms[o].strong > 0
    requires forall x :: x in s.vms && x != o ==> s'.vms[x] == s.vms[x]
    ensures ZeroReaped(s')
  {
    forall x | x in s'.vms && s'.vms[x].strong == 0 ensures exists u :: Destroys(s', u, x) {
      var u :| Destroys(s, u, x);
      assert Destroys(s', u, x);
    }
  }

  lemma RemovedListedOwned(s: State, s': State, t: Tid, o: Obj)
    requires ListedOwned(s) && t in s.threads && s.threads[t] == Unlisting(o)
    requires s'.threads == s.threads[t := DropRef(o)]
    requires s'.list == Without(s.list, o) && s'.fds == s.fds
    ensures ListedOwned(s')
  {
    WithoutElems(s.list, o);
    forall i | 0 <= i < |s'.list| && s'.list[i].1 !in s'.fds
      ensures exists u :: u in s'.threads && Owns(s'.threads[u]) == Some(s'.list[i].1)
    {
      assert s'.list[i] in s.list;
      var j :| 0 <= j < |s.list| && s.list[j] == s'.list[i];
      var u :| u in s.threads && Owns(s.threads[u]) == Some(s.list[j].1);
      assert u in s'.threads && Owns(s'.threads[u]) == Some(s.list[j].1);
    }
  }

  lemma RemovedOlder(s: State, t: Tid, o: Obj)
    requires Older(s) && Removes(s, t, o)
    ensures Older(Removed(s, t, o))
  {}

  lemma RemovedExtras(s: State, t: Tid, o: Obj)
    requires Extras(s) && ListOk(s) && Counts(s) && Removes(s, t, o)
    ensures Extras(Removed(s, t, o))
  {
    RemovedStillHeld(s, t, o);
    RemovedOlder(s, t, o);
    RemovedZeroReaped(s, Removed(s, t, o), t, o);
    RemovedListedOwned(s, Removed(s, t, o), t, o);
  }

  lemma RemovedStillHeld(s: State, t: Tid, o: Obj)
    requires ListOk(s) && Counts(s) && Removes(s, t, o)
    ensures Removed(s, t, o).vms[o].strong > 0
  {
    RemovedCounts(s, t, o);
    HeldIsReferenced(Removed(s, t, o), t, o);
  }

  lemma DeadZeroReaped(s: State, s': State, t: Tid, o: Obj)
    requires ZeroReaped(s) && Dies(s, s', t, o)
    ensures ZeroReaped(s')
  {
    forall x | x in s'.vms && s'.vms[x].strong == 0 ensures exists u :: Destroys(s', u, x) {
      var u :| Destroys(s, u, x);
      assert u != t;
      assert Destroys(s', u, x);
    }
  }

  lemma DeadListedOwned(s: State, s': State, t: Tid, o: Obj)
    requires ListedOwned(s) && Dies(s, s', t, o)
    ensures ListedOwned(s')
  {
    forall i | 0 <= i < |s'.list| && s'.list[i].1 !in s'.fds
      ensures exists u :: u in s'.threads && Owns(s'.threads[u]) == Some(s'.list[i].1)
    {
      var u :| u in s.threads && Owns(s.threads[u]) == Some(s.list[i].1);
      assert u in s'.threads && Owns(s'.threads[u]) == Some(s.list[i].1);
    }
  }

  lemma DeadExtras(s: State, s': State, t: Tid, o: Obj)
    requires Extras(s) && Counts(s) && ReapOk(s) && Dies(s, s', t, o)
    ensures Extras(s')
  {
    OlderDead(s, s', t, o);
    DeadZeroReaped(s, s', t, o);
    DeadListedOwned(s, s', t, o);
  }

  lemma StepKeepsExtras(s: State, step: Step, s': State)
    requires Inv(s) && Extras(s) && Enabled(s, step) && s' == Apply(s, step)
    ensures Extras(s')
  {
    if IsQuiet(step) {
      StepGrounded(s, step);
      QuietStepExtra(s, step);
      QuietExtras(s, s', step.t, QuietPhase(s, step));
    } else {
      LoudStepExtras(s, step, s');
    }
  }

  lemma ReapExtras(s: State, t: Tid, s': State)
    requires Counts(s) && ReapOk(s) && Extras(s) && t in s.threads && s.threads[t].Reaping? && s' == AfterReap(s, t)
    ensures Extras(s')
  {
    var o := s.threads[t].obj;
    assert Destroys(s, t, o);
    NothingLeft(s, o);
    ReapDelta(s, t, o);
    DeadExtras(s, s', t, o);
  }

  lemma UnlistExtras(s: State, t: Tid, s': State)
    requires Inv(s) && Extras(s) && t in s.threads && s.threads[t].Unlisting? && s' == AfterUnlist(s, t)
    ensures Extras(s')
  {
    assert Names(s.threads[t]) == Some(s.threads[t].obj);
    UnlistIsRemoved(s, t);
    RemovedExtras(s, t, s.threads[t].obj);
  }

  lemma RegisterExtras(s: State, t: Tid, s': State)
    requires Inv(s) && Extras(s) && t in s.threads && s.threads[t].Built? && s' == AfterRegister(s, t)
    ensures Extras(s')
  {
    assert Names(s.threads[t]) == Some(s.threads[t].obj);
    AddedExtras(s, t, s.threads[t].obj);
  }

  lemma GetFdPasses(s: State, t: Tid)
    requires t in s.threads && s.threads[t].Listed?
    ensures Passes(s, AfterGetFd(s, t, true), t, s.threads[t].obj)
  {}

  lemma ClosePasses(s: State, t: Tid, o: Obj)
    requires t !in s.threads
    ensures Passes(s, AfterClose(s, t, o), t, o)
  {}

  lemma LoudStepExtras(s: State, step: Step, s': State)
    requires Inv(s) && Extras(s) && Enabled(s, step) && s' == Apply(s, step) && !IsQuiet(step)
    ensures Extras(s')
  {
    var t := step.t;
    match step
    case RootBuild(_, _, o) => BuiltExtras(s, t, Vm(s.threads[t].id, None, 1, 0, false), o);
    case ForkWrap(_, _, o) => BuiltExtras(s, t, Vm(s.threads[t].id, Some(s.threads[t].from), 1, 0, false), o);
    case Register(_) => RegisterExtras(s, t, s');
    case GetFd(_, _) =>
      GetFdPasses(s, t);
      PassExtras(s, s', t, s.threads[t].obj);
    case Close(_, o) =>
      ClosePasses(s, t, o);
      PassExtras(s, s', t, o);
    case Unlist(_) => UnlistExtras(s, t, s');
    case Reap(_) => ReapExtras(s, t, s');
  }
}
