/** The fork protocol and guest memory together: what threads do to VMs and what that does to pages.

    The protocol decides when memory may be cloned, copied, written and freed; here it is shown that it
    decides so that every memory step is one that copy-on-write allows, so its promises hold for every
    interleaving in which no fork starts on an executing VM. */
module ForkMemory {
  import FP = ForkProtocol
  import FI = ForkInvariant
  import FS = ForkSteps
  import FR = ForkResults
  import CM = CowMemory
  import CR = CowResults
  import opened Options

  datatype World = World(fork: FP.State, mem: CM.Mem)

  const Init := World(FP.Init, CM.Empty)

  datatype Step =
    | Proto(step: FP.Step)                                                     // without memory effect, or freeing
    | BuildRoot(t: FP.Tid, obj: FP.Obj, size: nat, backing: map<CM.Page, CM.Frame>, init: map<CM.Frame, CM.Bytes>)
    | CloneSpace(t: FP.Tid)                                                    // ForkPhase2 succeeding
    | PreCow(t: FP.Tid, page: CM.Page, frame: CM.Frame)                        // I/O page of a VM being forked
    | Fault(t: FP.Tid, page: CM.Page, frame: CM.Frame)                         // write fault inside RUN
    | MmapCow(obj: FP.Obj, page: CM.Page, frame: CM.Frame)                     // mapping a feedback buffer
    | Protect(t: FP.Tid, page: CM.Page)
    | GuestWrite(t: FP.Tid, page: CM.Page, bytes: CM.Bytes)
    | HostWrite(t: FP.Tid, page: CM.Page, bytes: CM.Bytes)                     // write_guest_memory inside RUN
    | MapWrite(obj: FP.Obj, page: CM.Page, bytes: CM.Bytes)                    // user space, through its mapping

  /** The protocol step taken, if any. */
  function ForkStep(step: Step): Option<FP.Step> {
    match step
    case Proto(s) => Some(s)
    case BuildRoot(t, o, _, _, _) => Some(FP.RootBuild(t, true, o))
    case CloneSpace(t) => Some(FP.ForkPhase2(t, true))
    case _ => None
  }

  /** Thread `t` is past its RUN check. */
  predicate Runs(s: FP.State, t: FP.Tid) { t in s.threads && s.threads[t].Running? && s.threads[t].obj in s.vms }

  /** The id of the VM thread `t` runs. */
  function RunId(s: FP.State, t: FP.Tid): nat
    requires Runs(s, t)
  {
    s.vms[s.threads[t].obj].id
  }

  /** Who may take which memory step, as the protocol sees it. */
  ghost predicate Allowed(s: FP.State, step: Step) {
    match step
    case Proto(p) => !(p.RootBuild? && p.ok) && !(p.ForkPhase2? && p.ok)
    case BuildRoot(_, _, _, _, _) => true
    case CloneSpace(t) => t in s.threads && s.threads[t].Forking? && s.threads[t].from in s.vms
    case PreCow(t, _, _) => t in s.threads && s.threads[t].Forked?
    case MmapCow(o, _, _) => o in s.fds && o in s.vms
    case Fault(t, _, _) => Runs(s, t)
    case Protect(t, _) => Runs(s, t)
    case GuestWrite(t, _, _) => Runs(s, t)
    case HostWrite(t, _, _) => Runs(s, t)
    case MapWrite(o, _, _) => o in s.fds && o in s.vms && s.vms[o].children == 0
  }

  /** The memory step taken, if any. */
  ghost function MemStep(s: FP.State, step: Step): Option<CM.Step>
    requires Allowed(s, step) && (ForkStep(step).Some? ==> FP.Enabled(s, ForkStep(step).value))
  {
    match step
    case Proto(p) => ProtoMem(s, p)
    case BuildRoot(t, o, size, backing, init) => Some(CM.NewRoot(s.threads[t].id, size, backing, init))
    case CloneSpace(t) => Some(CM.ForkVm(s.threads[t].id, s.vms[s.threads[t].from].id))
    case PreCow(t, p, f) => Some(CM.Cow(s.threads[t].id, p, f))
    case MmapCow(o, p, f) => Some(CM.Cow(s.vms[o].id, p, f))
    case Fault(t, p, f) => Some(CM.Cow(RunId(s, t), p, f))
    case Protect(t, p) => Some(CM.Protect(RunId(s, t), p))
    case GuestWrite(t, p, b) => Some(CM.GuestWrite(RunId(s, t), p, b))
    case HostWrite(t, p, b) => Some(CM.HostWrite(RunId(s, t), p, b))
    case MapWrite(o, p, b) => Some(CM.HostWrite(s.vms[o].id, p, b))
  }

  /** Destroying a VM, or a forked VM that never got its file, frees its pages. */
  ghost function ProtoMem(s: FP.State, p: FP.Step): Option<CM.Step>
    requires FP.Enabled(s, p)
  {
    if p.ForkWrap? && !p.ok then Some(CM.Drop(s.threads[p.t].id))
    else if p.Reap? && s.threads[p.t].obj in s.vms then Some(CM.Drop(s.vms[s.threads[p.t].obj].id))
    else None
  }

  /** What the allocator and the EPT decide: new frames are new, a copy is of a page the parent has and
      the VM does not, a guest write goes to a page mapped writable. */
  ghost predicate EnvOk(m: CM.Mem, c: CM.Step) {
    match c
    case NewRoot(id, size, backing, init) =>
      && (forall p: CM.Page :: p in backing <==> p < CM.PagesFor(size))
      && (forall p, q :: p in backing && q in backing && backing[p] == backing[q] ==> p == q)
      && (forall p :: p in backing ==> backing[p] !in m.data)
      && init.Keys == backing.Values
    case Cow(id, p, f) =>
      && f !in m.data
      && (id in m.spaces ==>
        m.spaces[id].Fork? && p !in m.spaces[id].own && CM.ReadPage(m.spaces, m.spaces[id].parent, p).Some?)
    case Protect(id, p) => id in m.spaces ==> p in m.spaces[id].ept
    case GuestWrite(id, p, _) => id in m.spaces ==> p in m.spaces[id].ept && m.spaces[id].ept[p].writable
    case HostWrite(id, p, _) => id in m.spaces ==> p in m.spaces[id].own
    case _ => true
  }

  ghost predicate Enabled(w: World, step: Step) {
    && Allowed(w.fork, step)
    && (ForkStep(step).Some? ==>
          FP.Enabled(w.fork, ForkStep(step).value) && !FR.ForksExecuting(w.fork, ForkStep(step).value))
    && (MemStep(w.fork, step).Some? ==> EnvOk(w.mem, MemStep(w.fork, step).value))
  }

  /** A memory step that copy-on-write would not allow is left undone: the theorem below is that there
      is none. */
  ghost function Apply(w: World, step: Step): World
    requires Enabled(w, step)
  {
    World(
      if ForkStep(step).Some? then FP.Apply(w.fork, ForkStep(step).value) else w.fork,
      if MemStep(w.fork, step).Some? && CM.Enabled(w.mem, MemStep(w.fork, step).value)
      then CM.Apply(w.mem, MemStep(w.fork, step).value) else w.mem)
  }

  ghost predicate RunsFrom(w: World, steps: seq<Step>)
    decreases |steps|
  {
    steps == [] || (Enabled(w, steps[0]) && RunsFrom(Apply(w, steps[0]), steps[1..]))
  }

  ghost function After(w: World, steps: seq<Step>): World
    requires RunsFrom(w, steps)
    decreases |steps|
  {
    if steps == [] then w else After(Apply(w, steps[0]), steps[1..])
  }

  // How the two states correspond

  /** The VM that carries `id`, finished or still in its creating thread, and its parent's id. */
  ghost predicate VmHas(s: FP.State, o: FP.Obj, id: nat, parent: Option<nat>) {
    && o in s.vms && s.vms[o].id == id
    && (s.vms[o].parent.Some? ==> s.vms[o].parent.value in s.vms)
    && parent == if s.vms[o].parent.Some? then Some(s.vms[s.vms[o].parent.value].id) else None
  }

  ghost predicate ThreadHas(s: FP.State, t: FP.Tid, id: nat, parent: Option<nat>) {
    && t in s.threads && s.threads[t].Forked? && s.threads[t].id == id
    && s.threads[t].from in s.vms && parent == Some(s.vms[s.threads[t].from].id)
  }

  ghost predicate Carried(s: FP.State, id: nat, parent: Option<nat>) {
    (exists o :: VmHas(s, o, id, parent)) || (exists t :: ThreadHas(s, t, id, parent))
  }

  function ParentOf(sp: CM.Space): Option<nat> { if sp.Fork? then Some(sp.parent) else None }

  /** A space exists exactly for the VMs that exist, and its chain is theirs. */
  ghost predicate Linked(w: World) {
    forall id, parent :: (id in w.mem.spaces && ParentOf(w.mem.spaces[id]) == parent) <==> Carried(w.fork, id, parent)
  }

  ghost predicate Good(w: World) {
    FR.Reachable(w.fork) && FR.Undisturbed(w.fork) && CR.Reachable(w.mem) && Linked(w)
  }

  lemma Basics(s: FP.State)
    requires FR.Reachable(s)
    ensures FI.Alive(s) && FI.IdsOk(s)
  {
    FR.ReachableIsFull(s);
  }

  lemma SpaceOfVm(w: World, o: FP.Obj)
    requires Linked(w) && FI.Alive(w.fork) && o in w.fork.vms
    ensures w.fork.vms[o].id in w.mem.spaces
    ensures VmHas(w.fork, o, w.fork.vms[o].id, ParentOf(w.mem.spaces[w.fork.vms[o].id]))
  {
    var vm := w.fork.vms[o];
    var parent := if vm.parent.Some? then Some(w.fork.vms[vm.parent.value].id) else None;
    assert VmHas(w.fork, o, vm.id, parent);
    assert Carried(w.fork, vm.id, parent);
  }

  lemma SpaceOfThread(w: World, t: FP.Tid)
    requires Linked(w) && FI.Alive(w.fork) && t in w.fork.threads && w.fork.threads[t].Forked?
    ensures w.fork.threads[t].id in w.mem.spaces
    ensures ThreadHas(w.fork, t, w.fork.threads[t].id, ParentOf(w.mem.spaces[w.fork.threads[t].id]))
  {
    assert FI.Names(w.fork.threads[t]) == Some(w.fork.threads[t].from);
    var parent := Some(w.fork.vms[w.fork.threads[t].from].id);
    assert ThreadHas(w.fork, t, w.fork.threads[t].id, parent);
    assert Carried(w.fork, w.fork.threads[t].id, parent);
  }

  /** An id a thread reserved before its VM exists has no space yet. */
  lemma NoSpaceYet(w: World, t: FP.Tid)
    requires Linked(w) && FI.IdsOk(w.fork) && t in w.fork.threads
    requires (w.fork.threads[t].RootHasId? || w.fork.threads[t].Forking?)
    ensures w.fork.threads[t].id !in w.mem.spaces
  {
    var id := w.fork.threads[t].id;
    assert FP.Reserves(w.fork.threads[t]) == Some(id);
    forall parent, u ensures !ThreadHas(w.fork, u, id, parent) {
      assert u in w.fork.threads && w.fork.threads[u].Forked? ==>
        FP.Reserves(w.fork.threads[u]) == Some(w.fork.threads[u].id);
    }
    assert id in w.mem.spaces ==> Carried(w.fork, id, ParentOf(w.mem.spaces[id]));
  }

  // Childlessness

  /** A VM without children and without forks in flight has a space without children. */
  lemma ChildlessSpace(w: World, o: FP.Obj)
    requires Linked(w) && FI.IdsOk(w.fork) && o in w.fork.vms
    requires FP.Kids(w.fork.vms, o) == {} && FP.InFlight(w.fork.threads, o) == {}
    ensures CM.Childless(w.mem.spaces, w.fork.vms[o].id)
  {
    var id := w.fork.vms[o].id;
    forall c | c in w.mem.spaces && w.mem.spaces[c].Fork? ensures w.mem.spaces[c].parent != id {
      assert Carried(w.fork, c, Some(w.mem.spaces[c].parent));
      forall x ensures !VmHas(w.fork, x, c, Some(id)) {
        assert x !in FP.Kids(w.fork.vms, o);
      }
      forall t ensures !ThreadHas(w.fork, t, c, Some(id)) {
        assert t !in FP.InFlight(w.fork.threads, o);
      }
    }
  }

  lemma RunIsChildless(w: World, t: FP.Tid)
    requires Good(w) && Runs(w.fork, t)
    ensures CM.Childless(w.mem.spaces, RunId(w.fork, t))
  {
    var o := w.fork.threads[t].obj;
    Basics(w.fork);
    FR.CountsAreExact(w.fork, o);
    ChildlessSpace(w, o);
  }

  /** A VM whose counter is zero, running or not. */
  lemma MappedIsChildless(w: World, o: FP.Obj)
    requires Good(w) && o in w.fork.vms && w.fork.vms[o].children == 0
    ensures CM.Childless(w.mem.spaces, w.fork.vms[o].id)
  {
    Basics(w.fork);
    FR.CountsAreExact(w.fork, o);
    ChildlessSpace(w, o);
  }

  lemma ReapIsChildless(w: World, t: FP.Tid)
    requires Good(w) && t in w.fork.threads && w.fork.threads[t].Reaping? && w.fork.threads[t].obj in w.fork.vms
    ensures CM.Childless(w.mem.spaces, w.fork.vms[w.fork.threads[t].obj].id)
  {
    var o := w.fork.threads[t].obj;
    Basics(w.fork);
    assert FI.Destroys(w.fork, t, o);
    FR.DestroyedAtZero(w.fork, t, o);
    FR.CountsAreExact(w.fork, o);
    assert FP.InFlight(w.fork.threads, o) <= FP.Holders(w.fork.threads, o);
    ChildlessSpace(w, o);
  }

  /** A forked VM that has no file yet cannot have been forked. */
  lemma UnwrappedIsChildless(w: World, t: FP.Tid)
    requires Linked(w) && FI.IdsOk(w.fork) && t in w.fork.threads && w.fork.threads[t].Forked?
    ensures CM.Childless(w.mem.spaces, w.fork.threads[t].id)
  {
    var id := w.fork.threads[t].id;
    assert FP.Reserves(w.fork.threads[t]) == Some(id);
    forall c | c in w.mem.spaces && w.mem.spaces[c].Fork? ensures w.mem.spaces[c].parent != id {
      assert Carried(w.fork, c, Some(w.mem.spaces[c].parent));
    }
  }

  // Every memory step the protocol lets through is one copy-on-write allows

  lemma CopyEnabled(m: CM.Mem, c: CM.Step)
    requires CM.Inv(m) && c.Cow? && c.id in m.spaces && EnvOk(m, c)
    ensures CM.Enabled(m, c)
  {
    var a := CM.ReadOwner(m.spaces, m.spaces[c.id].parent, c.page);
    assert CM.Owns(m.spaces, a, c.page, CM.ReadPage(m.spaces, m.spaces[c.id].parent, c.page).value);
  }

  lemma CloneEnabled(w: World, t: FP.Tid)
    requires Good(w) && Enabled(w, CloneSpace(t))
    ensures CM.Enabled(w.mem, MemStep(w.fork, CloneSpace(t)).value)
  {
    var ph := w.fork.threads[t];
    Basics(w.fork);
    FR.ForkIsYounger(w.fork, t);
    NoSpaceYet(w, t);
    SpaceOfVm(w, ph.from);
  }

  lemma MemStepEnabled(w: World, step: Step)
    requires Good(w) && Enabled(w, step) && MemStep(w.fork, step).Some?
    ensures CM.Enabled(w.mem, MemStep(w.fork, step).value)
  {
    Basics(w.fork);
    CR.ReachableInv(w.mem);
    match step
    case Proto(p) =>
      if p.Reap? {
        ReapIsChildless(w, p.t);
        SpaceOfVm(w, w.fork.threads[p.t].obj);
      } else {
        UnwrappedIsChildless(w, p.t);
        SpaceOfThread(w, p.t);
      }
    case BuildRoot(t, _, _, _, _) => NoSpaceYet(w, t);
    case CloneSpace(t) => CloneEnabled(w, t);
    case PreCow(t, _, _) =>
      SpaceOfThread(w, t);
      CopyEnabled(w.mem, MemStep(w.fork, step).value);
    case MmapCow(o, _, _) =>
      SpaceOfVm(w, o);
      CopyEnabled(w.mem, MemStep(w.fork, step).value);
    case Fault(t, _, _) =>
      SpaceOfVm(w, w.fork.threads[t].obj);
      CopyEnabled(w.mem, MemStep(w.fork, step).value);
    case Protect(t, _) => SpaceOfVm(w, w.fork.threads[t].obj);
    case GuestWrite(t, _, _) =>
      SpaceOfVm(w, w.fork.threads[t].obj);
      RunIsChildless(w, t);
    case HostWrite(t, _, _) =>
      SpaceOfVm(w, w.fork.threads[t].obj);
      RunIsChildless(w, t);
    case MapWrite(o, _, _) =>
      SpaceOfVm(w, o);
      MappedIsChildless(w, o);
  }

  // The correspondence is kept

  ghost predicate SameForked(s: FP.State, s': FP.State) {
    forall t :: (t in s'.threads && s'.threads[t].Forked?) || (t in s.threads && s.threads[t].Forked?) ==>
      t in s.threads && t in s'.threads && s'.threads[t] == s.threads[t]
  }

  lemma SameCarriers(s: FP.State, s': FP.State, id: nat, parent: Option<nat>)
    requires FS.SameVms(s.vms, s'.vms) && SameForked(s, s')
    ensures Carried(s', id, parent) <==> Carried(s, id, parent)
  {
    assert forall o :: VmHas(s', o, id, parent) <==> VmHas(s, o, id, parent);
    assert forall t :: ThreadHas(s', t, id, parent) <==> ThreadHas(s, t, id, parent);
  }

  predicate Plain(p: FP.Step) { !(p.RootBuild? && p.ok) && !(p.ForkPhase2? && p.ok) && !p.ForkWrap? && !p.Reap? }

  lemma PlainCreate(s: FP.State, p: FP.Step, s': FP.State)
    requires FP.Enabled(s, p) && Plain(p) && s' == FP.Apply(s, p)
    requires p.RootAlloc? || p.RootBuild? || p.ForkPhase1? || p.ForkPhase2? || p.Register? || p.GetFd?
    ensures FS.SameVms(s.vms, s'.vms) && SameForked(s, s')
  {}

  lemma PlainUse(s: FP.State, p: FP.Step, s': FP.State)
    requires FP.Enabled(s, p) && Plain(p) && s' == FP.Apply(s, p)
    requires p.Close? || p.Unlist? || p.Release? || p.RunEnter? || p.RunTest? || p.RunExit?
    ensures FS.SameVms(s.vms, s'.vms) && SameForked(s, s')
  {}

  lemma PlainCarriers(s: FP.State, p: FP.Step, s': FP.State)
    requires FP.Enabled(s, p) && Plain(p) && s' == FP.Apply(s, p)
    ensures FS.SameVms(s.vms, s'.vms) && SameForked(s, s')
  {
    if p.RootAlloc? || p.RootBuild? || p.ForkPhase1? || p.ForkPhase2? || p.Register? || p.GetFd? {
      PlainCreate(s, p, s');
    } else {
      PlainUse(s, p, s');
    }
  }

  lemma RootCarriers(s: FP.State, t: FP.Tid, o: FP.Obj, id: nat, parent: Option<nat>)
    requires FI.Alive(s) && FP.Enabled(s, FP.RootBuild(t, true, o))
    ensures Carried(FP.AfterRootBuild(s, t, true, o), id, parent) <==>
      Carried(s, id, parent) || (id == s.threads[t].id && parent == None)
  {
    var s' := FP.AfterRootBuild(s, t, true, o);
    assert forall x :: x != o ==> (VmHas(s', x, id, parent) <==> VmHas(s, x, id, parent));
    assert VmHas(s', o, id, parent) <==> id == s.threads[t].id && parent == None;
    assert forall u :: ThreadHas(s', u, id, parent) <==> ThreadHas(s, u, id, parent);
  }

  lemma CloneCarriers(s: FP.State, t: FP.Tid, id: nat, parent: Option<nat>)
    requires FP.Enabled(s, FP.ForkPhase2(t, true)) && s.threads[t].from in s.vms
    ensures Carried(FP.AfterForkPhase2(s, t, true), id, parent) <==>
      Carried(s, id, parent) || (id == s.threads[t].id && parent == Some(s.vms[s.threads[t].from].id))
  {
    var s' := FP.AfterForkPhase2(s, t, true);
    assert forall x :: VmHas(s', x, id, parent) <==> VmHas(s, x, id, parent);
    assert forall u :: u != t ==> (ThreadHas(s', u, id, parent) <==> ThreadHas(s, u, id, parent));
    assert ThreadHas(s', t, id, parent) <==> id == s.threads[t].id && parent == Some(s.vms[s.threads[t].from].id);
  }

  /** Wrapping moves the VM from its thread to its file. */
  lemma WrapCarriers(s: FP.State, t: FP.Tid, o: FP.Obj, id: nat, parent: Option<nat>)
    requires FI.Alive(s) && FP.Enabled(s, FP.ForkWrap(t, true, o)) && s.threads[t].from in s.vms
    ensures Carried(FP.AfterForkWrap(s, t, true, o), id, parent) <==> Carried(s, id, parent)
  {
    var s' := FP.AfterForkWrap(s, t, true, o);
    assert forall x :: x != o ==> (VmHas(s', x, id, parent) <==> VmHas(s, x, id, parent));
    assert VmHas(s', o, id, parent) <==> ThreadHas(s, t, id, parent);
    assert !VmHas(s, o, id, parent);
    assert forall u :: u != t ==> (ThreadHas(s', u, id, parent) <==> ThreadHas(s, u, id, parent));
    assert !ThreadHas(s', t, id, parent);
  }

  lemma UnwrapCarriers(s: FP.State, t: FP.Tid, o: FP.Obj, id: nat, parent: Option<nat>)
    requires FI.IdsOk(s) && FP.Enabled(s, FP.ForkWrap(t, false, o)) && s.threads[t].from in s.vms
    ensures Carried(FP.AfterForkWrap(s, t, false, o), id, parent) <==> Carried(s, id, parent) && id != s.threads[t].id
  {
    var s' := FP.AfterForkWrap(s, t, false, o);
    assert FP.Reserves(s.threads[t]) == Some(s.threads[t].id);
    assert forall x :: VmHas(s', x, id, parent) <==> VmHas(s, x, id, parent);
    assert forall x :: VmHas(s, x, id, parent) ==> id != s.threads[t].id;
    forall u | u != t ensures ThreadHas(s', u, id, parent) <==> ThreadHas(s, u, id, parent) && id != s.threads[t].id {
      assert u in s.threads && s.threads[u].Forked? ==> FP.Reserves(s.threads[u]) == Some(s.threads[u].id);
    }
  }

  ghost predicate DiesAlone(s: FP.State, s': FP.State, t: FP.Tid, o: FP.Obj) {
    && FS.Dies(s, s', t, o)
    && (forall c :: c in s.vms ==> s.vms[c].parent != Some(o))
    && (forall u :: u in s.threads ==> FP.Holds(s.threads[u]) != Some(o))
  }

  lemma ReapVmHas(s: FP.State, s': FP.State, t: FP.Tid, o: FP.Obj, x: FP.Obj, id: nat, parent: Option<nat>)
    requires FI.VmIds(s) && DiesAlone(s, s', t, o)
    ensures VmHas(s', x, id, parent) <==> VmHas(s, x, id, parent) && id != s.vms[o].id
  {
    assert x in s'.vms <==> x in s.vms && x != o;
  }

  lemma ReapThreadHas(s: FP.State, s': FP.State, t: FP.Tid, o: FP.Obj, u: FP.Tid, id: nat, parent: Option<nat>)
    requires FI.ReservedIds(s) && DiesAlone(s, s', t, o)
    ensures ThreadHas(s', u, id, parent) <==> ThreadHas(s, u, id, parent) && id != s.vms[o].id
  {
    assert u in s.threads && s.threads[u].Forked? ==>
      FP.Reserves(s.threads[u]) == Some(s.threads[u].id) && FP.Holds(s.threads[u]) == Some(s.threads[u].from);
  }

  lemma ReapCarriers(s: FP.State, s': FP.State, t: FP.Tid, o: FP.Obj, id: nat, parent: Option<nat>)
    requires FI.IdsOk(s) && DiesAlone(s, s', t, o)
    ensures Carried(s', id, parent) <==> Carried(s, id, parent) && id != s.vms[o].id
  {
    forall x ensures VmHas(s', x, id, parent) <==> VmHas(s, x, id, parent) && id != s.vms[o].id {
      ReapVmHas(s, s', t, o, x, id, parent);
    }
    forall u ensures ThreadHas(s', u, id, parent) <==> ThreadHas(s, u, id, parent) && id != s.vms[o].id {
      ReapThreadHas(s, s', t, o, u, id, parent);
    }
  }

  lemma ReapDiesAlone(s: FP.State, t: FP.Tid)
    requires FR.Reachable(s) && t in s.threads && s.threads[t].Reaping?
    ensures s.threads[t].obj in s.vms && DiesAlone(s, FP.AfterReap(s, t), t, s.threads[t].obj)
  {
    var o := s.threads[t].obj;
    FR.ReachableIsFull(s);
    assert FI.Destroys(s, t, o);
    FS.NothingLeft(s, o);
    FS.ReapDelta(s, t, o);
  }

  lemma DeadLinked(w: World, w': World, t: FP.Tid, o: FP.Obj)
    requires Linked(w) && FI.IdsOk(w.fork) && DiesAlone(w.fork, w'.fork, t, o)
    requires w'.mem.spaces == w.mem.spaces - {w.fork.vms[o].id}
    ensures Linked(w')
  {
    forall id, parent
      ensures (id in w'.mem.spaces && ParentOf(w'.mem.spaces[id]) == parent) <==> Carried(w'.fork, id, parent)
    {
      ReapCarriers(w.fork, w'.fork, t, o, id, parent);
    }
  }

  lemma ReapLinked(w: World, w': World, t: FP.Tid)
    requires Good(w) && Enabled(w, Proto(FP.Reap(t))) && w' == Apply(w, Proto(FP.Reap(t)))
    ensures Linked(w')
  {
    ReapDiesAlone(w.fork, t);
    MemStepEnabled(w, Proto(FP.Reap(t)));
    Basics(w.fork);
    DeadLinked(w, w', t, w.fork.threads[t].obj);
  }

  lemma WrapLinked(w: World, w': World, t: FP.Tid, ok: bool, o: FP.Obj)
    requires Good(w) && Enabled(w, Proto(FP.ForkWrap(t, ok, o))) && w' == Apply(w, Proto(FP.ForkWrap(t, ok, o)))
    ensures Linked(w')
  {
    Basics(w.fork);
    assert FI.Names(w.fork.threads[t]) == Some(w.fork.threads[t].from);
    if !ok { MemStepEnabled(w, Proto(FP.ForkWrap(t, ok, o))); }
    forall id, parent
      ensures (id in w'.mem.spaces && ParentOf(w'.mem.spaces[id]) == parent) <==> Carried(w'.fork, id, parent)
    {
      if ok { WrapCarriers(w.fork, t, o, id, parent); } else { UnwrapCarriers(w.fork, t, o, id, parent); }
    }
  }

  lemma PlainLinked(w: World, w': World, p: FP.Step)
    requires Linked(w) && Enabled(w, Proto(p)) && Plain(p) && w' == Apply(w, Proto(p))
    ensures Linked(w')
  {
    PlainCarriers(w.fork, p, w'.fork);
    forall id, parent
      ensures (id in w'.mem.spaces && ParentOf(w'.mem.spaces[id]) == parent) <==> Carried(w'.fork, id, parent)
    {
      SameCarriers(w.fork, w'.fork, id, parent);
    }
  }

  lemma BuildLinked(w: World, w': World, step: Step)
    requires Good(w) && step.BuildRoot? && Enabled(w, step) && w' == Apply(w, step)
    ensures Linked(w')
  {
    Basics(w.fork);
    MemStepEnabled(w, step);
    NoSpaceYet(w, step.t);
    forall id, parent
      ensures (id in w'.mem.spaces && ParentOf(w'.mem.spaces[id]) == parent) <==> Carried(w'.fork, id, parent)
    {
      RootCarriers(w.fork, step.t, step.obj, id, parent);
    }
  }

  lemma CloneLinked(w: World, w': World, step: Step)
    requires Good(w) && step.CloneSpace? && Enabled(w, step) && w' == Apply(w, step)
    ensures Linked(w')
  {
    Basics(w.fork);
    CloneEnabled(w, step.t);
    NoSpaceYet(w, step.t);
    forall id, parent
      ensures (id in w'.mem.spaces && ParentOf(w'.mem.spaces[id]) == parent) <==> Carried(w'.fork, id, parent)
    {
      CloneCarriers(w.fork, step.t, id, parent);
    }
  }

  lemma TouchLinked(w: World, w': World, step: Step)
    requires Linked(w) && ForkStep(step).None? && Enabled(w, step) && w' == Apply(w, step)
    ensures Linked(w')
  {
    forall id
      ensures (id in w'.mem.spaces <==> id in w.mem.spaces)
      ensures (id in w.mem.spaces ==> ParentOf(w'.mem.spaces[id]) == ParentOf(w.mem.spaces[id])) {}
  }

  lemma StepKeepsGood(w: World, step: Step, w': World)
    requires Good(w) && Enabled(w, step) && w' == Apply(w, step)
    ensures Good(w')
  {
    if MemStep(w.fork, step).Some? {
      MemStepEnabled(w, step);
      CR.ReachableStep(w.mem, MemStep(w.fork, step).value);
    }
    if ForkStep(step).Some? {
      FR.ReachableStep(w.fork, ForkStep(step).value, w'.fork);
      FR.ForkDisturbsExactly(w.fork, ForkStep(step).value, w'.fork);
    }
    StepLinked(w, step, w');
  }

  lemma StepLinked(w: World, step: Step, w': World)
    requires Good(w) && Enabled(w, step) && w' == Apply(w, step)
    ensures Linked(w')
  {
    match step
    case Proto(p) =>
      if p.Reap? { ReapLinked(w, w', p.t); }
      else if p.ForkWrap? { WrapLinked(w, w', p.t, p.ok, p.obj); }
      else { PlainLinked(w, w', p); }
    case BuildRoot(_, _, _, _, _) => BuildLinked(w, w', step);
    case CloneSpace(_) => CloneLinked(w, w', step);
    case _ => TouchLinked(w, w', step);
  }

  lemma {:induction false} RunKeepsGood(w: World, steps: seq<Step>)
    requires Good(w) && RunsFrom(w, steps)
    ensures Good(After(w, steps))
    decreases |steps|
  {
    if steps != [] {
      StepKeepsGood(w, steps[0], Apply(w, steps[0]));
      RunKeepsGood(Apply(w, steps[0]), steps[1..]);
    }
  }

  lemma InitIsGood()
    ensures Good(Init)
  {
    FR.ReachableInit();
    CR.ReachableEmpty();
    assert forall o, id, parent :: !VmHas(FP.Init, o, id, parent);
    assert forall t, id, parent :: !ThreadHas(FP.Init, t, id, parent);
  }

  // Results

  /** In every interleaving in which no fork starts on an executing VM, the protocol never lets a memory
      step through that copy-on-write forbids: no write by a VM with children or forks in flight, no
      freeing of memory a fork still reads, no space reused. So memory is always in a state
      copy-on-write can reach, and the spaces are exactly those of the VMs that exist. */
  lemma ProtocolProtectsMemory(steps: seq<Step>)
    requires RunsFrom(Init, steps)
    ensures var w := After(Init, steps);
      && CR.Reachable(w.mem) && Linked(w)
      && forall step :: Enabled(w, step) && MemStep(w.fork, step).Some? ==>
        CM.Enabled(w.mem, MemStep(w.fork, step).value)
  {
    InitIsGood();
    RunKeepsGood(Init, steps);
    var w := After(Init, steps);
    forall step | Enabled(w, step) && MemStep(w.fork, step).Some? ensures CM.Enabled(w.mem, MemStep(w.fork, step).value)
    {
      MemStepEnabled(w, step);
    }
  }

  /** The memory chain of a VM is its chain of live ancestors. */
  lemma {:induction false} ChainIsAncestry(w: World, a: nat, o: FP.Obj) returns (n: nat, oa: FP.Obj)
    requires Good(w) && o in w.fork.vms && CM.UpTo(w.mem.spaces, a, w.fork.vms[o].id)
    ensures FR.Ancestor(w.fork, o, n) == Some(oa) && oa in w.fork.vms && w.fork.vms[oa].id == a
    decreases w.fork.vms[o].id
  {
    Basics(w.fork);
    var id := w.fork.vms[o].id;
    if a == id {
      n, oa := 0, o;
    } else {
      SpaceOfVm(w, o);
      FR.ParentIsLive(w.fork, o);
      n, oa := ChainIsAncestry(w, a, w.fork.vms[o].parent.value);
      n := n + 1;
    }
  }

  /** Whatever order descriptors are closed in, every host page a live VM's EPT points to belongs to the
      VM itself or to a live ancestor. */
  lemma EptFramesAreLive(steps: seq<Step>, o: FP.Obj, p: CM.Page) returns (n: nat, oa: FP.Obj)
    requires RunsFrom(Init, steps) && o in After(Init, steps).fork.vms
    requires CM.Maps(After(Init, steps).mem.spaces, After(Init, steps).fork.vms[o].id, p)
    ensures var w := After(Init, steps); var id := w.fork.vms[o].id;
      && FR.Ancestor(w.fork, o, n) == Some(oa) && oa in w.fork.vms
      && CM.Owns(w.mem.spaces, w.fork.vms[oa].id, p, w.mem.spaces[id].ept[p].frame)
      && w.mem.spaces[id].ept[p].frame in w.mem.data
  {
    InitIsGood();
    RunKeepsGood(Init, steps);
    var w := After(Init, steps);
    var a := CR.EptFramesAreOwned(w.mem, w.fork.vms[o].id, p);
    n, oa := ChainIsAncestry(w, a, o);
  }

  /** A root VM with one page of memory can be built: id 1 at address 5. */
  lemma RootIsBuilt(b: CM.Bytes)
    ensures var steps := [Proto(FP.RootAlloc(0)), BuildRoot(0, 5, CM.PAGE_SIZE, map[0 := 7], map[7 := b])];
      && RunsFrom(Init, steps) && After(Init, steps).mem == CR.OneRoot(1, CM.PAGE_SIZE, b)
      && 5 in After(Init, steps).fork.vms && After(Init, steps).fork.vms[5].id == 1
  {
    var s1, s2 := Proto(FP.RootAlloc(0)), BuildRoot(0, 5, CM.PAGE_SIZE, map[0 := 7], map[7 := b]);
    CR.OnePageIsBuilt(1, CM.PAGE_SIZE, b);
    var w1 := Apply(Init, s1);
    assert w1 == World(FP.AfterRootAlloc(FP.Init, 0), CM.Empty);
    assert MemStep(w1.fork, s2) == Some(CR.OnePage(1, CM.PAGE_SIZE, b));
    TwoSteps(Init, s1, s2);
  }

  lemma TwoSteps(w: World, s1: Step, s2: Step)
    requires Enabled(w, s1) && Enabled(Apply(w, s1), s2)
    ensures RunsFrom(w, [s1, s2]) && After(w, [s1, s2]) == Apply(Apply(w, s1), s2)
  {
    assert [s1, s2][1..] == [s2] && [s2][1..] == [];
    var w1 := Apply(w, s1);
    assert RunsFrom(Apply(w1, s2), []) && RunsFrom(w1, [s2]);
    assert After(w1, [s2]) == After(Apply(w1, s2), []);
  }
}
