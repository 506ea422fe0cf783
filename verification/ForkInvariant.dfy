/** What every interleaving keeps: reference counts equal the references that exist, child counts
    equal the live children plus the forks in flight, every parent of a live VM is live, and ids are
    never shared. */
module ForkInvariant {
  import opened ForkProtocol
  import opened Options

  function One(b: bool): nat { if b then 1 else 0 }

  /** The references to `o` that exist. */
  function Refs(s: State, o: Obj): nat {
    |Holders(s.threads, o)| + |Kids(s.vms, o)| + One(InList(s.list, o)) + One(o in s.fds)
  }

  /** The live children of `o` and the forks of it in flight. */
  function Offspring(s: State, o: Obj): nat { |Kids(s.vms, o)| + |InFlight(s.threads, o)| }

  ghost predicate CountsOk(s: State, o: Obj)
    requires o in s.vms
  {
    s.vms[o].strong == Refs(s, o) && s.vms[o].children == Offspring(s, o)
  }

  ghost predicate Counts(s: State) { forall o :: o in s.vms ==> CountsOk(s, o) }

  /** The VM a thread's phase refers to, whether or not it holds a reference. */
  function Names(ph: Phase): Option<Obj> {
    match ph
    case RootHasId(_) => None
    case Forking(p, _) => Some(p)
    case Forked(p, _) => Some(p)
    case _ => Some(ph.obj)
  }

  /** Everything referred to is allocated. */
  ghost predicate Alive(s: State) {
    && (forall t :: t in s.threads && Names(s.threads[t]).Some? ==> Names(s.threads[t]).value in s.vms)
    && (forall c :: c in s.vms && s.vms[c].parent.Some? ==> s.vms[c].parent.value in s.vms)
    && s.fds <= s.vms.Keys
    && (forall i :: 0 <= i < |s.list| ==> s.list[i].1 in s.vms)
  }

  ghost predicate ListOk(s: State) {
    && (forall i :: 0 <= i < |s.list| ==> s.list[i].1 in s.vms && s.list[i].0 == s.vms[s.list[i].1].id)
    && forall i, j :: 0 <= i < j < |s.list| ==> s.list[i].1 != s.list[j].1
  }

  /** VM ids come from the counter and are distinct. */
  ghost predicate VmIds(s: State) {
    && (forall o :: o in s.vms ==> s.vms[o].id < s.nextId)
    && (forall o, o' :: o in s.vms && o' in s.vms && s.vms[o].id == s.vms[o'].id ==> o == o')
  }

  /** An id a thread has reserved comes from the counter; no VM and no other thread has it. */
  ghost predicate ReservedIds(s: State) {
    && (forall t :: t in s.threads && Reserves(s.threads[t]).Some? ==> Reserves(s.threads[t]).value < s.nextId)
    && (forall t, o :: t in s.threads && o in s.vms ==> Reserves(s.threads[t]) != Some(s.vms[o].id))
    && forall t, u :: t in s.threads && u in s.threads && Reserves(s.threads[t]).Some? ==>
        Reserves(s.threads[t]) == Reserves(s.threads[u]) ==> t == u
  }

  ghost predicate IdsOk(s: State) { VmIds(s) && ReservedIds(s) }

  /** The raw pointer of a VM file, before and after its descriptor owns it. */
  function Owns(ph: Phase): Option<Obj> {
    match ph
    case Built(o) => Some(o)
    case Listed(o) => Some(o)
    case Unlisting(o) => Some(o)
    case _ => None
  }

  /** The raw pointer has one owner at a time. */
  ghost predicate OwnersOk(s: State) {
    && (forall t, u ::
      t in s.threads && u in s.threads && Owns(s.threads[t]).Some? && Owns(s.threads[t]) == Owns(s.threads[u]) ==>
        t == u)
    && (forall t :: t in s.threads && Owns(s.threads[t]).Some? ==> Owns(s.threads[t]).value !in s.fds)
    && (forall t :: t in s.threads && s.threads[t].Built? ==> !InList(s.list, s.threads[t].obj))
  }

  ghost predicate Destroys(s: State, t: Tid, o: Obj) { t in s.threads && s.threads[t] == Reaping(o) }

  /** A destructor runs only at count zero, and only the thread that got there runs it. */
  ghost predicate ReapOk(s: State) {
    && (forall t, o :: Destroys(s, t, o) ==> o in s.vms && s.vms[o].strong == 0)
    && (forall t, u, o :: Destroys(s, t, o) && Destroys(s, u, o) ==> t == u)
  }

  ghost predicate RunsOn(s: State, t: Tid, o: Obj) { t in s.threads && InRun(s.threads[t], o) }

  /** A RUN in progress owns the running flag and its descriptor is open. */
  ghost predicate RunOk(s: State) {
    && (forall t, o :: RunsOn(s, t, o) ==> o in s.fds && o in s.vms && s.vms[o].running)
    && (forall t, u, o :: RunsOn(s, t, o) && RunsOn(s, u, o) ==> t == u)
  }

  ghost predicate Shape(s: State) { Alive(s) && ListOk(s) && IdsOk(s) && OwnersOk(s) && ReapOk(s) && RunOk(s) }

  ghost predicate Inv(s: State) { Shape(s) && Counts(s) }

  // Counting lemmas

  lemma HoldersGo(th: map<Tid, Phase>, t: Tid, ph: Phase, o: Obj)
    ensures |Holders(th[t := ph], o)| ==
      |Holders(th, o)| - One(t in th && Holds(th[t]) == Some(o)) + One(Holds(ph) == Some(o))
  {
    var a, b := Holders(th, o), Holders(th[t := ph], o);
    assert b == if Holds(ph) == Some(o) then a - {t} + {t} else a - {t};
  }

  lemma HoldersDone(th: map<Tid, Phase>, t: Tid, o: Obj)
    ensures |Holders(th - {t}, o)| == |Holders(th, o)| - One(t in th && Holds(th[t]) == Some(o))
  {
    assert Holders(th - {t}, o) == Holders(th, o) - {t};
  }

  lemma InFlightGo(th: map<Tid, Phase>, t: Tid, ph: Phase, o: Obj)
    ensures |InFlight(th[t := ph], o)| ==
      |InFlight(th, o)| - One(t in th && Forks(th[t]) == Some(o)) + One(Forks(ph) == Some(o))
  {
    var a, b := InFlight(th, o), InFlight(th[t := ph], o);
    assert b == if Forks(ph) == Some(o) then a - {t} + {t} else a - {t};
  }

  lemma InFlightDone(th: map<Tid, Phase>, t: Tid, o: Obj)
    ensures |InFlight(th - {t}, o)| == |InFlight(th, o)| - One(t in th && Forks(th[t]) == Some(o))
  {
    assert InFlight(th - {t}, o) == InFlight(th, o) - {t};
  }

  lemma KidsAdded(vms: map<Obj, Vm>, c: Obj, vm: Vm, o: Obj)
    requires c !in vms
    ensures |Kids(vms[c := vm], o)| == |Kids(vms, o)| + One(vm.parent == Some(o))
  {
    assert Kids(vms[c := vm], o) == Kids(vms, o) + if vm.parent == Some(o) then {c} else {};
  }

  lemma KidsRemoved(vms: map<Obj, Vm>, c: Obj, o: Obj)
    requires c in vms
    ensures |Kids(vms - {c}, o)| == |Kids(vms, o)| - One(vms[c].parent == Some(o))
  {
    assert Kids(vms - {c}, o) == Kids(vms, o) - {c};
  }

  /** Changing other fields of a VM moves no child. */
  lemma KidsUpdated(vms: map<Obj, Vm>, x: Obj, vm: Vm, o: Obj)
    requires x in vms && vm.parent == vms[x].parent
    ensures Kids(vms[x := vm], o) == Kids(vms, o)
  {}
}
