/** Every step of the fork protocol keeps the invariant. */
module ForkSteps {
  import opened ForkProtocol
  import opened ForkInvariant
  import opened Options

  /** Thread `t` moves to phase `ph`, or finishes. */
  ghost function Moved(th: map<Tid, Phase>, t: Tid, ph: Option<Phase>): map<Tid, Phase> {
    if ph.Some? then th[t := ph.value] else th - {t}
  }

  ghost function Was(th: map<Tid, Phase>, t: Tid): Option<Phase> { if t in th then Some(th[t]) else None }

  // Views of a phase that may be absent

  ghost function HeldBy(ph: Option<Phase>): Option<Obj> { if ph.Some? then Holds(ph.value) else None }

  ghost function ForkedBy(ph: Option<Phase>): Option<Obj> { if ph.Some? then Forks(ph.value) else None }

  ghost function ReservedBy(ph: Option<Phase>): Option<nat> { if ph.Some? then Reserves(ph.value) else None }

  ghost function NamedBy(ph: Option<Phase>): Option<Obj> { if ph.Some? then Names(ph.value) else None }

  ghost function OwnedBy(ph: Option<Phase>): Option<Obj> { if ph.Some? then Owns(ph.value) else None }

  ghost predicate RunningBy(ph: Option<Phase>, o: Obj) { ph.Some? && InRun(ph.value, o) }

  lemma HoldersMoved(th: map<Tid, Phase>, t: Tid, ph: Option<Phase>, o: Obj)
    ensures |Holders(Moved(th, t, ph), o)| ==
      |Holders(th, o)| - One(HeldBy(Was(th, t)) == Some(o)) + One(HeldBy(ph) == Some(o))
  {
    if ph.Some? { HoldersGo(th, t, ph.value, o); } else { HoldersDone(th, t, o); }
  }

  lemma InFlightMoved(th: map<Tid, Phase>, t: Tid, ph: Option<Phase>, o: Obj)
    ensures |InFlight(Moved(th, t, ph), o)| ==
      |InFlight(th, o)| - One(ForkedBy(Was(th, t)) == Some(o)) + One(ForkedBy(ph) == Some(o))
  {
    if ph.Some? { InFlightGo(th, t, ph.value, o); } else { InFlightDone(th, t, o); }
  }

  // Steps that create and destroy no VM and leave the list and the descriptors alone

  /** The same VMs with the same ids and parents; only counters and flags may differ. */
  ghost predicate SameVms(vms: map<Obj, Vm>, vms': map<Obj, Vm>) {
    vms'.Keys == vms.Keys && forall o :: o in vms ==> vms'[o].id == vms[o].id && vms'[o].parent == vms[o].parent
  }

  ghost predicate Quiet(s: State, s': State, t: Tid, ph: Option<Phase>) {
    && s'.threads == Moved(s.threads, t, ph) && SameVms(s.vms, s'.vms)
    && s'.list == s.list && s'.fds == s.fds && s.nextId <= s'.nextId
  }

  lemma QuietAlive(s: State, s': State, t: Tid, ph: Option<Phase>)
    requires Alive(s) && Quiet(s, s', t, ph) && (NamedBy(ph).Some? ==> NamedBy(ph).value in s.vms)
    ensures Alive(s')
  {}

  lemma QuietList(s: State, s': State, t: Tid, ph: Option<Phase>)
    requires ListOk(s) && Quiet(s, s', t, ph)
    ensures ListOk(s')
  {}

  lemma QuietIds(s: State, s': State, t: Tid, ph: Option<Phase>)
    requires IdsOk(s) && Quiet(s, s', t, ph)
    requires ReservedBy(ph).Some? ==>
      ReservedBy(ph) == ReservedBy(Was(s.threads, t)) || (ReservedBy(ph) == Some(s.nextId) && s.nextId < s'.nextId)
    ensures IdsOk(s')
  {}

  lemma QuietOwners(s: State, s': State, t: Tid, ph: Option<Phase>)
    requires OwnersOk(s) && Quiet(s, s', t, ph)
    requires OwnedBy(ph).Some? ==> OwnedBy(ph) == OwnedBy(Was(s.threads, t)) && !ph.value.Built?
    ensures OwnersOk(s')
  {}

  lemma QuietRun(s: State, s': State, t: Tid, ph: Option<Phase>)
    requires RunOk(s) && Quiet(s, s', t, ph)
    requires forall o :: o in s.vms ==> s'.vms[o].running == s.vms[o].running
    requires forall o :: RunningBy(ph, o) ==> RunningBy(Was(s.threads, t), o)
    ensures RunOk(s')
  {
    forall u, o | RunsOn(s', u, o) ensures RunsOn(s, u, o) {
      assert u == t ==> RunningBy(ph, o);
    }
  }

  lemma QuietReap(s: State, s': State, t: Tid, ph: Option<Phase>)
    requires ReapOk(s) && Quiet(s, s', t, ph)
    requires forall o :: o in s.vms && s.vms[o].strong == 0 ==> s'.vms[o].strong == 0
    requires ph.Some? && ph.value.Reaping? ==>
      ph.value.obj in s.vms && s'.vms[ph.value.obj].strong == 0 && s.vms[ph.value.obj].strong != 0
    ensures ReapOk(s')
  {
    forall u, o | Destroys(s', u, o) ensures o in s'.vms && s'.vms[o].strong == 0 && (u == t || Destroys(s, u, o)) {
      assert u == t || Destroys(s, u, o);
    }
  }

  /** How the counters must have moved. */
  ghost predicate CountersMove(s: State, s': State, t: Tid, ph: Option<Phase>)
    requires SameVms(s.vms, s'.vms)
  {
    forall o :: o in s.vms ==>
      && s'.vms[o].strong - s.vms[o].strong == One(HeldBy(ph) == Some(o)) - One(HeldBy(Was(s.threads, t)) == Some(o))
      && s'.vms[o].children - s.vms[o].children ==
        One(ForkedBy(ph) == Some(o)) - One(ForkedBy(Was(s.threads, t)) == Some(o))
  }

  lemma SameKids(vms: map<Obj, Vm>, vms': map<Obj, Vm>, o: Obj)
    requires SameVms(vms, vms')
    ensures Kids(vms', o) == Kids(vms, o)
  {}

  lemma QuietCounts(s: State, s': State, t: Tid, ph: Option<Phase>)
    requires Counts(s) && Quiet(s, s', t, ph) && CountersMove(s, s', t, ph)
    ensures Counts(s')
  {
    forall o | o in s'.vms ensures CountsOk(s', o) {
      assert CountsOk(s, o);
      HoldersMoved(s.threads, t, ph, o);
      InFlightMoved(s.threads, t, ph, o);
      SameKids(s.vms, s'.vms, o);
    }
  }

  /** A step that moves one thread, and the counters with it, and nothing else. */
  ghost predicate QuietOk(s: State, s': State, t: Tid, ph: Option<Phase>) {
    && Quiet(s, s', t, ph) && CountersMove(s, s', t, ph)
    && (NamedBy(ph).Some? ==> NamedBy(ph).value in s.vms)
    && (ReservedBy(ph).Some? ==>
          ReservedBy(ph) == ReservedBy(Was(s.threads, t)) || (ReservedBy(ph) == Some(s.nextId) && s.nextId < s'.nextId))
    && (OwnedBy(ph).Some? ==> OwnedBy(ph) == OwnedBy(Was(s.threads, t)) && !ph.value.Built?)
    && (forall o :: o in s.vms ==> s'.vms[o].running == s.vms[o].running)
    && (forall o :: RunningBy(ph, o) ==> RunningBy(Was(s.threads, t), o))
    && (forall o :: o in s.vms && s.vms[o].strong == 0 ==> s'.vms[o].strong == 0)
    && (ph.Some? && ph.value.Reaping? ==>
      ph.value.obj in s.vms && s'.vms[ph.value.obj].strong == 0 && s.vms[ph.value.obj].strong != 0)
  }

  lemma QuietStep(s: State, s': State, t: Tid, ph: Option<Phase>)
    requires Inv(s) && QuietOk(s, s', t, ph)
    ensures Inv(s')
  {
    QuietAlive(s, s', t, ph);
    QuietList(s, s', t, ph);
    QuietIds(s, s', t, ph);
    QuietOwners(s, s', t, ph);
    QuietRun(s, s', t, ph);
    QuietReap(s, s', t, ph);
    QuietCounts(s, s', t, ph);
  }

  // Creating

  lemma RootAllocDelta(s: State, t: Tid)
    requires t !in s.threads && |s.list| < MAX_VMS
    ensures QuietOk(s, AfterRootAlloc(s, t), t, Some(RootHasId(s.nextId)))
  {}

  lemma RootAllocKeeps(s: State, t: Tid)
    requires Inv(s) && t !in s.threads
    ensures Inv(AfterRootAlloc(s, t))
  {
    if |s.list| < MAX_VMS {
      RootAllocDelta(s, t);
      QuietStep(s, AfterRootAlloc(s, t), t, Some(RootHasId(s.nextId)));
    }
  }

  /** A thread that holds nothing just leaves. */
  lemma DoneDelta(s: State, t: Tid)
    requires HeldBy(Was(s.threads, t)) == None
    ensures QuietOk(s, Done(s, t), t, None)
  {}

  lemma RootBuildKeeps(s: State, t: Tid, ok: bool, o: Obj)
    requires Inv(s) && t in s.threads && s.threads[t].RootHasId? && o !in s.vms
    ensures Inv(AfterRootBuild(s, t, ok, o))
  {
    if ok {
      BuiltKeeps(s, t, Vm(s.threads[t].id, None, 1, 0, false), o);
    } else {
      DoneDelta(s, t);
      QuietStep(s, Done(s, t), t, None);
    }
  }

  /** An address no VM lives at has no references. */
  lemma Unreferenced(s: State, o: Obj)
    requires Alive(s) && o !in s.vms
    ensures Holders(s.threads, o) == {} && InFlight(s.threads, o) == {} && Kids(s.vms, o) == {} && !InList(s.list, o)
    ensures o !in s.fds
    ensures forall t :: t in s.threads ==> Names(s.threads[t]) != Some(o)
  {
    forall t | t in s.threads ensures Names(s.threads[t]) != Some(o) {}
  }

  /** Thread `t` puts a new VM at `o`, with the id it reserved; a forked VM's parent is the one `t` was
      forking. */
  ghost predicate Builds(s: State, t: Tid, vm: Vm, o: Obj) {
    && t in s.threads && o !in s.vms
    && Reserves(s.threads[t]) == Some(vm.id) && vm.parent == Forks(s.threads[t])
    && vm.strong == 1 && vm.children == 0 && !vm.running
  }

  ghost function WithVm(s: State, t: Tid, vm: Vm, o: Obj): State { Go(s.(vms := s.vms[o := vm]), t, Built(o)) }

  lemma BuiltAlive(s: State, t: Tid, vm: Vm, o: Obj)
    requires Alive(s) && Builds(s, t, vm, o)
    ensures Alive(WithVm(s, t, vm, o)) 
  {}

  lemma BuiltList(s: State, t: Tid, vm: Vm, o: Obj)
    requires ListOk(s) && Builds(s, t, vm, o)
    ensures ListOk(WithVm(s, t, vm, o))
  {}

  lemma BuiltIds(s: State, t: Tid, vm: Vm, o: Obj)
    requires IdsOk(s) && Builds(s, t, vm, o)
    ensures IdsOk(WithVm(s, t, vm, o))
  {}

  lemma BuiltOwners(s: State, t: Tid, vm: Vm, o: Obj)
    requires Alive(s) && OwnersOk(s) && Builds(s, t, vm, o)
    ensures OwnersOk(WithVm(s, t, vm, o))
  {
    Unreferenced(s, o);
  }

  lemma BuiltReap(s: State, t: Tid, vm: Vm, o: Obj)
    requires Alive(s) && ReapOk(s) && Builds(s, t, vm, o)
    ensures ReapOk(WithVm(s, t, vm, o))
  {
    forall u, x | Destroys(WithVm(s, t, vm, o), u, x) ensures Destroys(s, u, x) {}
  }

  lemma BuiltRun(s: State, t: Tid, vm: Vm, o: Obj)
    requires Alive(s) && RunOk(s) && Builds(s, t, vm, o)
    ensures RunOk(WithVm(s, t, vm, o))
  {
    Unreferenced(s, o);
    forall u, x | RunsOn(WithVm(s, t, vm, o), u, x) ensures RunsOn(s, u, x) {}
  }

  /** A new file is referenced by its creating thread alone; a forked file takes over the thread's
      reference to the parent and its place among the forks in flight. */
  lemma BuiltCounts(s: State, t: Tid, vm: Vm, o: Obj)
    requires Alive(s) && Counts(s) && Builds(s, t, vm, o)
    ensures Counts(WithVm(s, t, vm, o))
  {
    var s' := WithVm(s, t, vm, o);
    Unreferenced(s, o);
    forall x | x in s'.vms ensures CountsOk(s', x) {
      HoldersGo(s.threads, t, Built(o), x);
      InFlightGo(s.threads, t, Built(o), x);
      KidsAdded(s.vms, o, vm, x);
      assert x != o ==> CountsOk(s, x);
    }
  }

  lemma BuiltKeeps(s: State, t: Tid, vm: Vm, o: Obj)
    requires Inv(s) && Builds(s, t, vm, o)
    ensures Inv(WithVm(s, t, vm, o))
  {
    BuiltAlive(s, t, vm, o);
    BuiltList(s, t, vm, o);
    BuiltIds(s, t, vm, o);
    BuiltOwners(s, t, vm, o);
    BuiltReap(s, t, vm, o);
    BuiltRun(s, t, vm, o);
    BuiltCounts(s, t, vm, o);
  }

  // Forking

  lemma {:induction false} FindSound(list: seq<(nat, Obj)>, id: nat)
    ensures Find(list, id).Some? ==> exists i :: 0 <= i < |list| && list[i] == (id, Find(list, id).value)
    decreases |list|
  {
    if list != [] && list[0].0 != id {
      FindSound(list[1..], id);
      if Find(list[1..], id).Some? {
        var i :| 0 <= i < |list| - 1 && list[1..][i] == (id, Find(list[1..], id).value);
        assert list[i + 1] == (id, Find(list, id).value);
      }
    } else if list != [] {
      assert list[0] == (id, Find(list, id).value);
    }
  }

  /** A referenced VM is not being destroyed. */
  lemma ListedIsReferenced(s: State, o: Obj)
    requires Counts(s) && o in s.vms && InList(s.list, o)
    ensures s.vms[o].strong > 0
  {
    assert CountsOk(s, o);
  }

  lemma ForkPhase1Delta(s: State, t: Tid, p: Obj)
    requires t !in s.threads && p in s.vms && s.vms[p].strong > 0
    ensures QuietOk(s, Go(AddStrong(AddChildren(s.(nextId := s.nextId + 1), p, 1), p, 1), t, Forking(p, s.nextId)), t,
      Some(Forking(p, s.nextId)))
  {}

  lemma IdOnlyDelta(s: State, t: Tid)
    requires t !in s.threads
    ensures QuietOk(s, s.(nextId := s.nextId + 1), t, None)
  {
    assert s.threads - {t} == s.threads;
  }

  lemma ForkFoundKeeps(s: State, t: Tid, p: Obj)
    requires Inv(s) && t !in s.threads && p in s.vms && InList(s.list, p)
    ensures Inv(Go(AddStrong(AddChildren(s.(nextId := s.nextId + 1), p, 1), p, 1), t, Forking(p, s.nextId)))
  {
    ListedIsReferenced(s, p);
    ForkPhase1Delta(s, t, p);
    QuietStep(s, Go(AddStrong(AddChildren(s.(nextId := s.nextId + 1), p, 1), p, 1), t, Forking(p, s.nextId)), t,
      Some(Forking(p, s.nextId)));
  }

  lemma ForkMissedKeeps(s: State, t: Tid)
    requires Inv(s) && t !in s.threads
    ensures Inv(s.(nextId := s.nextId + 1))
  {
    IdOnlyDelta(s, t);
    QuietStep(s, s.(nextId := s.nextId + 1), t, None);
  }

  lemma FoundIsListed(s: State, id: nat)
    requires Alive(s) && Find(s.list, id).Some?
    ensures Find(s.list, id).value in s.vms && InList(s.list, Find(s.list, id).value)
  {
    FindSound(s.list, id);
  }

  lemma ForkPhase1Keeps(s: State, t: Tid, parentId: nat, s': State)
    requires Inv(s) && t !in s.threads && s' == AfterForkPhase1(s, t, parentId)
    ensures Inv(s')
  {
    if |s.list| >= MAX_VMS {
      assert s' == s;
    } else if Find(s.list, parentId).Some? {
      var p := Find(s.list, parentId).value;
      FoundIsListed(s, parentId);
      ForkFoundKeeps(s, t, p);
      assert s' == Go(AddStrong(AddChildren(s.(nextId := s.nextId + 1), p, 1), p, 1), t, Forking(p, s.nextId));
    } else {
      ForkMissedKeeps(s, t);
      assert s' == s.(nextId := s.nextId + 1);
    }
  }

  lemma HeldIsReferenced(s: State, t: Tid, o: Obj)
    requires Counts(s) && o in s.vms && t in s.threads && Holds(s.threads[t]) == Some(o)
    ensures s.vms[o].strong > 0
  {
    assert CountsOk(s, o);
    assert t in Holders(s.threads, o);
  }

  lemma AbandonDelta(s: State, t: Tid, p: Obj)
    requires t in s.threads && Forks(s.threads[t]) == Some(p) && p in s.vms
    ensures QuietOk(s, AbandonFork(s, t, p), t, Some(DropRef(p)))
  {}

  lemma AbandonKeeps(s: State, t: Tid, p: Obj)
    requires Inv(s) && t in s.threads && Forks(s.threads[t]) == Some(p)
    ensures Inv(AbandonFork(s, t, p))
  {
    HeldIsReferenced(s, t, p);
    AbandonDelta(s, t, p);
    QuietStep(s, AbandonFork(s, t, p), t, Some(DropRef(p)));
  }

  lemma ForkedDelta(s: State, t: Tid)
    requires t in s.threads && s.threads[t].Forking? && s.threads[t].from in s.vms
    ensures QuietOk(s, AfterForkPhase2(s, t, true), t, Some(Forked(s.threads[t].from, s.threads[t].id)))
  {}

  lemma ForkPhase2Keeps(s: State, t: Tid, ok: bool)
    requires Inv(s) && t in s.threads && s.threads[t].Forking?
    ensures Inv(AfterForkPhase2(s, t, ok))
  {
    var ph := s.threads[t];
    if ok {
      ForkedDelta(s, t);
      QuietStep(s, AfterForkPhase2(s, t, ok), t, Some(Forked(ph.from, ph.id)));
    } else {
      AbandonKeeps(s, t, ph.from);
    }
  }

  lemma ForkWrapKeeps(s: State, t: Tid, ok: bool, o: Obj)
    requires Inv(s) && t in s.threads && s.threads[t].Forked? && o !in s.vms
    ensures Inv(AfterForkWrap(s, t, ok, o))
  {
    var ph := s.threads[t];
    if ok {
      BuiltKeeps(s, t, Vm(ph.id, Some(ph.from), 1, 0, false), o);
    } else {
      AbandonKeeps(s, t, ph.from);
    }
  }

  // Visibility by id

  ghost function Added(s: State, t: Tid, o: Obj): State
    requires o in s.vms
  {
    Go(AddStrong(s.(list := s.list + [(s.vms[o].id, o)]), o, 1), t, Listed(o))
  }

  ghost predicate Adds(s: State, t: Tid, o: Obj) { t in s.threads && s.threads[t] == Built(o) && o in s.vms }

  lemma AddedList(s: State, t: Tid, o: Obj)
    requires ListOk(s) && OwnersOk(s) && Adds(s, t, o)
    ensures ListOk(Added(s, t, o))
  {
    assert !InList(s.list, o);
  }

  lemma AddedAlive(s: State, t: Tid, o: Obj)
    requires Alive(s) && Adds(s, t, o)
    ensures Alive(Added(s, t, o))
  {}

  lemma AddedIds(s: State, t: Tid, o: Obj)
    requires IdsOk(s) && Adds(s, t, o)
    ensures IdsOk(Added(s, t, o))
  {}

  lemma InListAdded(list: seq<(nat, Obj)>, id: nat, o: Obj, x: Obj)
    ensures InList(list + [(id, o)], x) <==> InList(list, x) || x == o
  {
    var list' := list + [(id, o)];
    if InList(list, x) {
      var i :| 0 <= i < |list| && list[i].1 == x;
      assert list'[i].1 == x;
    }
    assert list'[|list|].1 == o;
  }

  lemma AddedOwners(s: State, t: Tid, o: Obj)
    requires OwnersOk(s) && Adds(s, t, o)
    ensures OwnersOk(Added(s, t, o))
  {
    var s' := Added(s, t, o);
    forall u | u in s'.threads && s'.threads[u].Built? ensures !InList(s'.list, s'.threads[u].obj) {
      InListAdded(s.list, s.vms[o].id, o, s'.threads[u].obj);
      assert Owns(s.threads[t]) == Some(o) && Owns(s.threads[u]) == Some(s'.threads[u].obj);
    }
  }

  lemma AddedReap(s: State, t: Tid, o: Obj)
    requires ReapOk(s) && Counts(s) && Adds(s, t, o)
    ensures ReapOk(Added(s, t, o))
  {
    HeldIsReferenced(s, t, o);
    forall u, x | Destroys(Added(s, t, o), u, x) ensures Destroys(s, u, x) {}
  }

  lemma AddedRun(s: State, t: Tid, o: Obj)
    requires RunOk(s) && Adds(s, t, o)
    ensures RunOk(Added(s, t, o))
  {
    forall u, x | RunsOn(Added(s, t, o), u, x) ensures RunsOn(s, u, x) {}
  }

  lemma AddedCounts(s: State, t: Tid, o: Obj)
    requires Counts(s) && OwnersOk(s) && Adds(s, t, o)
    ensures Counts(Added(s, t, o))
  {
    assert !InList(s.list, o);
    forall x | x in s.vms ensures CountsOk(Added(s, t, o), x) {
      AddedCountsAt(s, t, o, x);
    }
  }

  lemma AddedCountsAt(s: State, t: Tid, o: Obj, x: Obj)
    requires Adds(s, t, o) && !InList(s.list, o) && x in s.vms && CountsOk(s, x)
    ensures CountsOk(Added(s, t, o), x)
  {
    HoldersGo(s.threads, t, Listed(o), x);
    InFlightGo(s.threads, t, Listed(o), x);
    KidsUpdated(s.vms, o, Added(s, t, o).vms[o], x);
    InListAdded(s.list, s.vms[o].id, o, x);
  }

  lemma RegisterKeeps(s: State, t: Tid, s': State)
    requires Inv(s) && t in s.threads && s.threads[t].Built? && s' == AfterRegister(s, t)
    ensures Inv(s')
  {
    var o := s.threads[t].obj;
    assert Names(s.threads[t]) == Some(o);
    AddedAlive(s, t, o);
    AddedList(s, t, o);
    AddedIds(s, t, o);
    AddedOwners(s, t, o);
    AddedReap(s, t, o);
    AddedRun(s, t, o);
    AddedCounts(s, t, o);
    assert s' == Added(s, t, o);
  }

  // Descriptors

  ghost predicate Opens(s: State, t: Tid, o: Obj) { t in s.threads && s.threads[t] == Listed(o) }

  ghost function Opened(s: State, t: Tid, o: Obj): State { Done(s.(fds := s.fds + {o}), t) }

  lemma OpenedShape(s: State, t: Tid, o: Obj)
    requires Alive(s) && ListOk(s) && IdsOk(s) && Opens(s, t, o)
    ensures Alive(Opened(s, t, o)) && ListOk(Opened(s, t, o)) && IdsOk(Opened(s, t, o))
  {
    assert Names(s.threads[t]) == Some(o);
  }

  lemma OpenedOwners(s: State, t: Tid, o: Obj)
    requires OwnersOk(s) && Opens(s, t, o)
    ensures OwnersOk(Opened(s, t, o))
  {
    assert Owns(s.threads[t]) == Some(o);
  }

  lemma OpenedRest(s: State, t: Tid, o: Obj)
    requires ReapOk(s) && RunOk(s) && Opens(s, t, o)
    ensures ReapOk(Opened(s, t, o)) && RunOk(Opened(s, t, o))
  {
    forall u, x | Destroys(Opened(s, t, o), u, x) ensures Destroys(s, u, x) {}
    forall u, x | RunsOn(Opened(s, t, o), u, x) ensures RunsOn(s, u, x) {}
  }

  lemma OpenedCounts(s: State, t: Tid, o: Obj)
    requires Counts(s) && OwnersOk(s) && Opens(s, t, o)
    ensures Counts(Opened(s, t, o))
  {
    var s' := Opened(s, t, o);
    assert Owns(s.threads[t]) == Some(o);
    forall x | x in s'.vms ensures CountsOk(s', x) {
      assert CountsOk(s, x);
      HoldersDone(s.threads, t, x);
      InFlightDone(s.threads, t, x);
    }
  }

  lemma FdFailedDelta(s: State, t: Tid)
    requires t in s.threads && s.threads[t].Listed? && s.threads[t].obj in s.vms
    ensures QuietOk(s, AfterGetFd(s, t, false), t, Some(Unlisting(s.threads[t].obj)))
  {}

  lemma GetFdKeeps(s: State, t: Tid, ok: bool, s': State)
    requires Inv(s) && t in s.threads && s.threads[t].Listed? && s' == AfterGetFd(s, t, ok)
    ensures Inv(s')
  {
    var o := s.threads[t].obj;
    if ok {
      OpenedShape(s, t, o);
      OpenedOwners(s, t, o);
      OpenedRest(s, t, o);
      OpenedCounts(s, t, o);
    } else {
      assert Names(s.threads[t]) == Some(o);
      FdFailedDelta(s, t);
      QuietStep(s, s', t, Some(Unlisting(o)));
    }
  }

  ghost predicate Closes(s: State, t: Tid, o: Obj) {
    t !in s.threads && o in s.fds && forall u :: u in s.threads ==> !InRun(s.threads[u], o)
  }

  lemma ClosedAlive(s: State, t: Tid, o: Obj)
    requires Alive(s) && ListOk(s) && Closes(s, t, o)
    ensures Alive(AfterClose(s, t, o)) && ListOk(AfterClose(s, t, o))
  {}

  lemma ClosedIds(s: State, t: Tid, o: Obj)
    requires IdsOk(s) && Closes(s, t, o)
    ensures IdsOk(AfterClose(s, t, o))
  {}

  lemma ClosedOwners(s: State, t: Tid, o: Obj)
    requires OwnersOk(s) && Closes(s, t, o)
    ensures OwnersOk(AfterClose(s, t, o))
  {}

  lemma ClosedRest(s: State, t: Tid, o: Obj)
    requires ReapOk(s) && RunOk(s) && Closes(s, t, o)
    ensures ReapOk(AfterClose(s, t, o)) && RunOk(AfterClose(s, t, o))
  {
    forall u, x | Destroys(AfterClose(s, t, o), u, x) ensures Destroys(s, u, x) {}
    forall u, x | RunsOn(AfterClose(s, t, o), u, x) ensures RunsOn(s, u, x) && x != o {}
  }

  lemma ClosedCounts(s: State, t: Tid, o: Obj)
    requires Counts(s) && Closes(s, t, o)
    ensures Counts(AfterClose(s, t, o))
  {
    var s' := AfterClose(s, t, o);
    forall x | x in s'.vms ensures CountsOk(s', x) {
      assert CountsOk(s, x);
      HoldersGo(s.threads, t, Unlisting(o), x);
      InFlightGo(s.threads, t, Unlisting(o), x);
    }
  }

  lemma CloseKeeps(s: State, t: Tid, o: Obj)
    requires Inv(s) && Closes(s, t, o)
    ensures Inv(AfterClose(s, t, o))
  {
    ClosedAlive(s, t, o);
    ClosedIds(s, t, o);
    ClosedOwners(s, t, o);
    ClosedRest(s, t, o);
    ClosedCounts(s, t, o);
  }

  // Leaving the list

  ghost predicate DistinctObjs(list: seq<(nat, Obj)>) {
    forall i, j :: 0 <= i < j < |list| ==> list[i].1 != list[j].1
  }

  lemma {:induction false} WithoutElems(list: seq<(nat, Obj)>, o: Obj)
    ensures forall e :: e in Without(list, o) <==> e in list && e.1 != o
    decreases |list|
  {
    if list != [] {
      WithoutElems(list[1..], o);
      assert list == [list[0]] + list[1..];
    }
  }

  lemma {:induction false} WithoutDistinct(list: seq<(nat, Obj)>, o: Obj)
    requires DistinctObjs(list)
    ensures DistinctObjs(Without(list, o))
    decreases |list|
  {
    if list != [] {
      WithoutDistinct(list[1..], o);
      WithoutElems(list[1..], o);
      var rest := Without(list[1..], o);
      forall i | 0 <= i < |rest| ensures rest[i].1 != list[0].1 {
        assert rest[i] in list[1..];
      }
    }
  }

  lemma InListTail(list: seq<(nat, Obj)>, o: Obj)
    requires list != []
    ensures InList(list, o) <==> list[0].1 == o || InList(list[1..], o)
  {
    if i :| 0 <= i < |list| && list[i].1 == o {
      assert i > 0 ==> list[1..][i - 1].1 == o;
    }
    if i :| 0 <= i < |list[1..]| && list[1..][i].1 == o {
      assert list[i + 1].1 == o;
    }
  }

  lemma {:induction false} WithoutSize(list: seq<(nat, Obj)>, o: Obj)
    requires DistinctObjs(list)
    ensures |Without(list, o)| == |list| - One(InList(list, o))
    decreases |list|
  {
    if list != [] {
      WithoutSize(list[1..], o);
      InListTail(list, o);
      assert list[0].1 == o ==> !InList(list[1..], o);
    }
  }

  lemma InListElems(list: seq<(nat, Obj)>, x: Obj)
    ensures InList(list, x) <==> exists e :: e in list && e.1 == x
  {
    if e :| e in list && e.1 == x {
      var i :| 0 <= i < |list| && list[i] == e;
    }
  }

  lemma InListWithout(list: seq<(nat, Obj)>, o: Obj, x: Obj)
    ensures InList(Without(list, o), x) <==> InList(list, x) && x != o
  {
    WithoutElems(list, o);
    InListElems(list, x);
    InListElems(Without(list, o), x);
  }

  ghost predicate Removes(s: State, t: Tid, o: Obj) { t in s.threads && s.threads[t] == Unlisting(o) && o in s.vms }

  ghost function Removed(s: State, t: Tid, o: Obj): State {
    Go(AddStrong(s.(list := Without(s.list, o)), o, |Without(s.list, o)| - |s.list|), t, DropRef(o))
  }

  lemma RemovedList(s: State, t: Tid, o: Obj)
    requires ListOk(s) && Removes(s, t, o)
    ensures ListOk(Removed(s, t, o)) && forall i :: 0 <= i < |Without(s.list, o)| ==> Without(s.list, o)[i].1 in s.vms
  {
    var list' := Without(s.list, o);
    WithoutDistinct(s.list, o);
    WithoutElems(s.list, o);
    forall i | 0 <= i < |list'| ensures list'[i].1 in s.vms && list'[i].0 == s.vms[list'[i].1].id {
      assert list'[i] in s.list;
    }
  }

  lemma RemovedAlive(s: State, t: Tid, o: Obj)
    requires Alive(s) && ListOk(s) && Removes(s, t, o)
    ensures Alive(Removed(s, t, o))
  {
    RemovedList(s, t, o);
  }

  lemma RemovedIds(s: State, t: Tid, o: Obj)
    requires IdsOk(s) && Removes(s, t, o)
    ensures IdsOk(Removed(s, t, o))
  {}

  lemma RemovedOwners(s: State, t: Tid, o: Obj)
    requires OwnersOk(s) && Removes(s, t, o)
    ensures OwnersOk(Removed(s, t, o))
  {
    var s' := Removed(s, t, o);
    forall u | u in s'.threads && s'.threads[u].Built? ensures !InList(s'.list, s'.threads[u].obj) {
      InListWithout(s.list, o, s'.threads[u].obj);
      assert u in s.threads && s.threads[u] == s'.threads[u];
    }
  }

  lemma RemovedReap(s: State, t: Tid, o: Obj)
    requires ReapOk(s) && Counts(s) && Removes(s, t, o)
    ensures ReapOk(Removed(s, t, o))
  {
    HeldIsReferenced(s, t, o);
    forall u, x | Destroys(Removed(s, t, o), u, x) ensures Destroys(s, u, x) && x != o {
      assert Destroys(s, u, x);
    }
  }

  lemma RemovedRun(s: State, t: Tid, o: Obj)
    requires RunOk(s) && Removes(s, t, o)
    ensures RunOk(Removed(s, t, o))
  {
    forall u, x | RunsOn(Removed(s, t, o), u, x) ensures RunsOn(s, u, x) {}
  }

  lemma RemovedCounts(s: State, t: Tid, o: Obj)
    requires Counts(s) && ListOk(s) && Removes(s, t, o)
    ensures Counts(Removed(s, t, o))
  {
    var s' := Removed(s, t, o);
    WithoutSize(s.list, o);
    forall x | x in s'.vms ensures CountsOk(s', x) {
      assert CountsOk(s, x);
      HoldersGo(s.threads, t, DropRef(o), x);
      InFlightGo(s.threads, t, DropRef(o), x);
      KidsUpdated(s.vms, o, s'.vms[o], x);
      InListWithout(s.list, o, x);
    }
  }

  lemma RemovedKeeps(s: State, t: Tid, o: Obj)
    requires Inv(s) && Removes(s, t, o)
    ensures Inv(Removed(s, t, o))
  {
    RemovedAlive(s, t, o);
    RemovedList(s, t, o);
    RemovedIds(s, t, o);
    RemovedOwners(s, t, o);
    RemovedReap(s, t, o);
    RemovedRun(s, t, o);
    RemovedCounts(s, t, o);
  }

  lemma UnlistKeeps(s: State, t: Tid, s': State)
    requires Inv(s) && t in s.threads && s.threads[t].Unlisting? && s' == AfterUnlist(s, t)
    ensures Inv(s')
  {
    assert Names(s.threads[t]) == Some(s.threads[t].obj);
    UnlistIsRemoved(s, t);
    RemovedKeeps(s, t, s.threads[t].obj);
  }

  lemma UnlistIsRemoved(s: State, t: Tid)
    requires t in s.threads && s.threads[t].Unlisting?
    ensures AfterUnlist(s, t) == Removed(s, t, s.threads[t].obj)
  {}

  // Dropping references

  lemma ReleaseDelta(s: State, t: Tid, o: Obj)
    requires t in s.threads && s.threads[t] == DropRef(o) && o in s.vms && s.vms[o].strong > 0
    ensures QuietOk(s, AfterRelease(s, t), t, if s.vms[o].strong == 1 then Some(Reaping(o)) else None)
  {}

  lemma ReleaseKeeps(s: State, t: Tid, s': State)
    requires Inv(s) && t in s.threads && s.threads[t].DropRef? && s' == AfterRelease(s, t)
    ensures Inv(s')
  {
    var o := s.threads[t].obj;
    assert Names(s.threads[t]) == Some(o);
    HeldIsReferenced(s, t, o);
    ReleaseDelta(s, t, o);
    QuietStep(s, s', t, if s.vms[o].strong == 1 then Some(Reaping(o)) else None);
  }

  /** At count zero nothing refers to the VM any more. */
  lemma NothingLeft(s: State, o: Obj)
    requires Counts(s) && o in s.vms && s.vms[o].strong == 0
    ensures Holders(s.threads, o) == {} && Kids(s.vms, o) == {} && !InList(s.list, o) && o !in s.fds
    ensures forall t :: t in s.threads ==> Holds(s.threads[t]) != Some(o)
    ensures forall c :: c in s.vms ==> s.vms[c].parent != Some(o)
  {
    assert CountsOk(s, o);
    forall t | t in s.threads ensures Holds(s.threads[t]) != Some(o) {
      assert t in Holders(s.threads, o) <==> Holds(s.threads[t]) == Some(o);
    }
    forall c | c in s.vms ensures s.vms[c].parent != Some(o) {
      assert c in Kids(s.vms, o) <==> s.vms[c].parent == Some(o);
    }
  }

  /** The thread after destroying `o`: it holds the reference the forked file owned, if any. */
  ghost function AfterDeath(vm: Vm): Option<Phase> { if vm.parent.Some? then Some(DropRef(vm.parent.value)) else None }

  ghost predicate Dies(s: State, s': State, t: Tid, o: Obj) {
    && Destroys(s, t, o) && o in s.vms
    && s'.list == s.list && s'.fds == s.fds && s'.nextId == s.nextId
    && s'.threads == Moved(s.threads, t, AfterDeath(s.vms[o]))
    && SameVms(s.vms - {o}, s'.vms)
    && forall x :: x in s'.vms ==>
      && s'.vms[x].strong == s.vms[x].strong && s'.vms[x].running == s.vms[x].running
      && s'.vms[x].children == s.vms[x].children - One(s.vms[o].parent == Some(x))
  }

  lemma ReapDelta(s: State, t: Tid, o: Obj)
    requires Destroys(s, t, o) && o in s.vms && s.vms[o].parent != Some(o)
    ensures Dies(s, AfterReap(s, t), t, o)
  {}

  lemma DeadAlive(s: State, s': State, t: Tid, o: Obj)
    requires Alive(s) && Counts(s) && ReapOk(s) && RunOk(s) && Dies(s, s', t, o)
    ensures Alive(s')
  {
    NothingLeft(s, o);
    forall u | u in s'.threads && Names(s'.threads[u]).Some? ensures Names(s'.threads[u]).value in s'.vms {
      DeadNamed(s, s', t, o, u);
    }
    forall i | 0 <= i < |s'.list| ensures s'.list[i].1 in s'.vms {
      assert s.list[i].1 != o;
    }
  }

  lemma DeadNamed(s: State, s': State, t: Tid, o: Obj, u: Tid)
    requires Alive(s) && Counts(s) && ReapOk(s) && RunOk(s) && Dies(s, s', t, o)
    requires u in s'.threads && Names(s'.threads[u]).Some?
    ensures Names(s'.threads[u]).value in s'.vms
  {
    NothingLeft(s, o);
    var x := Names(s'.threads[u]).value;
    if u != t {
      assert u in s.threads && s.threads[u] == s'.threads[u];
      assert x == o ==> Destroys(s, u, o) || RunsOn(s, u, o);
    }
  }

  lemma DeadList(s: State, s': State, t: Tid, o: Obj)
    requires ListOk(s) && Counts(s) && ReapOk(s) && Dies(s, s', t, o)
    ensures ListOk(s')
  {
    NothingLeft(s, o);
    forall i | 0 <= i < |s.list| ensures s.list[i].1 != o {}
  }

  lemma DeadIds(s: State, s': State, t: Tid, o: Obj)
    requires IdsOk(s) && Dies(s, s', t, o)
    ensures IdsOk(s')
  {
    DeadVmIds(s, s', t, o);
    DeadReservedIds(s, s', t, o);
  }

  lemma DeadVmIds(s: State, s': State, t: Tid, o: Obj)
    requires VmIds(s) && Dies(s, s', t, o)
    ensures VmIds(s')
  {}

  lemma DeadReservedIds(s: State, s': State, t: Tid, o: Obj)
    requires ReservedIds(s) && Dies(s, s', t, o)
    ensures ReservedIds(s')
  {
    assert forall u :: u in s'.threads && Reserves(s'.threads[u]).Some? ==>
      u in s.threads && s.threads[u] == s'.threads[u];
  }

  lemma DeadOwners(s: State, s': State, t: Tid, o: Obj)
    requires OwnersOk(s) && Dies(s, s', t, o)
    ensures OwnersOk(s')
  {}

  lemma DeadReapRun(s: State, s': State, t: Tid, o: Obj)
    requires ReapOk(s) && RunOk(s) && Counts(s) && Dies(s, s', t, o)
    ensures ReapOk(s') && RunOk(s')
  {
    NothingLeft(s, o);
    forall u, x | Destroys(s', u, x) ensures Destroys(s, u, x) && x != o {
      assert u != t && Destroys(s, u, x);
    }
    forall u, x | RunsOn(s', u, x) ensures RunsOn(s, u, x) && x != o {
      assert u != t && RunsOn(s, u, x);
    }
  }

  lemma DeadCounts(s: State, s': State, t: Tid, o: Obj)
    requires Counts(s) && Dies(s, s', t, o)
    ensures Counts(s')
  {
    forall x | x in s'.vms ensures CountsOk(s', x) {
      DeadCountsAt(s, s', t, o, x);
    }
  }

  lemma DeadCountsAt(s: State, s': State, t: Tid, o: Obj, x: Obj)
    requires Dies(s, s', t, o) && x in s'.vms && x in s.vms && CountsOk(s, x)
    ensures CountsOk(s', x)
  {
    HoldersMoved(s.threads, t, AfterDeath(s.vms[o]), x);
    InFlightMoved(s.threads, t, AfterDeath(s.vms[o]), x);
    KidsRemoved(s.vms, o, x);
    SameKids(s.vms - {o}, s'.vms, x);
  }

  lemma ReapKeeps(s: State, t: Tid, s': State)
    requires Inv(s) && t in s.threads && s.threads[t].Reaping? && s' == AfterReap(s, t)
    ensures Inv(s')
  {
    var o := s.threads[t].obj;
    assert Destroys(s, t, o);
    NothingLeft(s, o);
    ReapDelta(s, t, o);
    DeadAlive(s, s', t, o);
    DeadList(s, s', t, o);
    DeadIds(s, s', t, o);
    DeadOwners(s, s', t, o);
    DeadReapRun(s, s', t, o);
    DeadCounts(s, s', t, o);
  }

  // RUN

  /** A step that only moves a RUN thread and sets or clears the flag of the VM it runs. */
  ghost predicate RunMoves(s: State, s': State, t: Tid, o: Obj, ph: Option<Phase>) {
    && Quiet(s, s', t, ph) && s'.nextId == s.nextId && o in s.vms && o in s.fds
    && (Was(s.threads, t) == None || RunsOn(s, t, o))
    && (ph == None || RunningBy(ph, o))
    && (Was(s.threads, t) == None ==> !s.vms[o].running)
    && (s'.vms[o].running <==> ph.Some?)
    && forall x :: x in s.vms ==>
      && s'.vms[x].strong == s.vms[x].strong && s'.vms[x].children == s.vms[x].children
      && (x != o ==> s'.vms[x].running == s.vms[x].running)
  }

  lemma RunMoveRun(s: State, s': State, t: Tid, o: Obj, ph: Option<Phase>)
    requires RunOk(s) && RunMoves(s, s', t, o, ph)
    ensures RunOk(s')
  {
    forall u, x | RunsOn(s', u, x) ensures if u == t then x == o && ph.Some? else RunsOn(s, u, x) && x != o {
      if u != t {
        assert RunsOn(s, u, x);
      }
    }
  }

  lemma RunMoveReap(s: State, s': State, t: Tid, o: Obj, ph: Option<Phase>)
    requires ReapOk(s) && RunMoves(s, s', t, o, ph)
    ensures ReapOk(s')
  {
    forall u, x | Destroys(s', u, x) ensures Destroys(s, u, x) {}
  }

  lemma RunMoveDelta(s: State, s': State, t: Tid, o: Obj, ph: Option<Phase>)
    requires RunMoves(s, s', t, o, ph)
    ensures CountersMove(s, s', t, ph) && ReservedBy(ph) == None && OwnedBy(ph) == None
    ensures NamedBy(ph).Some? ==> NamedBy(ph).value == o
  {}

  lemma RunMoveKeeps(s: State, s': State, t: Tid, o: Obj, ph: Option<Phase>)
    requires Inv(s) && RunMoves(s, s', t, o, ph)
    ensures Inv(s')
  {
    RunMoveDelta(s, s', t, o, ph);
    QuietAlive(s, s', t, ph);
    QuietList(s, s', t, ph);
    QuietIds(s, s', t, ph);
    QuietOwners(s, s', t, ph);
    RunMoveRun(s, s', t, o, ph);
    RunMoveReap(s, s', t, o, ph);
    QuietCounts(s, s', t, ph);
  }

  lemma RunEnterDelta(s: State, t: Tid, o: Obj)
    requires t !in s.threads && o in s.fds && o in s.vms && !s.vms[o].running
    ensures RunMoves(s, AfterRunEnter(s, t, o), t, o, Some(RunCheck(o)))
  {}

  lemma RunEnterKeeps(s: State, t: Tid, o: Obj, s': State)
    requires Inv(s) && t !in s.threads && o in s.fds && s' == AfterRunEnter(s, t, o)
    ensures Inv(s')
  {
    if o in s.vms && !s.vms[o].running {
      RunEnterDelta(s, t, o);
      RunMoveKeeps(s, s', t, o, Some(RunCheck(o)));
    }
  }

  lemma RunTestDelta(s: State, t: Tid, o: Obj)
    requires t in s.threads && s.threads[t] == RunCheck(o) && o in s.fds && o in s.vms && s.vms[o].running
    ensures RunMoves(s, AfterRunTest(s, t), t, o, if s.vms[o].children == 0 then Some(Running(o)) else None)
  {
    assert RunsOn(s, t, o);
  }

  lemma RunTestKeeps(s: State, t: Tid, s': State)
    requires Inv(s) && t in s.threads && s.threads[t].RunCheck? && s' == AfterRunTest(s, t)
    ensures Inv(s')
  {
    var o := s.threads[t].obj;
    assert RunsOn(s, t, o);
    RunTestDelta(s, t, o);
    RunMoveKeeps(s, s', t, o, if s.vms[o].children == 0 then Some(Running(o)) else None);
  }

  lemma RunExitDelta(s: State, t: Tid, o: Obj)
    requires t in s.threads && s.threads[t] == Running(o) && o in s.fds && o in s.vms
    ensures RunMoves(s, AfterRunExit(s, t), t, o, None)
  {
    assert RunsOn(s, t, o);
  }

  lemma RunExitKeeps(s: State, t: Tid, s': State)
    requires Inv(s) && t in s.threads && s.threads[t].Running? && s' == AfterRunExit(s, t)
    ensures Inv(s')
  {
    var o := s.threads[t].obj;
    assert RunsOn(s, t, o);
    RunExitDelta(s, t, o);
    RunMoveKeeps(s, s', t, o, None);
  }
}
