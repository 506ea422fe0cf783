/** Creating, forking, running and closing VMs from many threads: crates/bedrock/bedrock_main.rs,
    vm_file/fd.rs, vm_file/core.rs, vm_file/forked.rs and crates/bedrock-vmx/src/handler.rs.

    A step is what a thread does between two points where another thread can observe it: one critical
    section under the handler lock, one atomic operation, or one private action. A run is any
    interleaving of steps. */
module ForkProtocol {
  import opened Options

  /** Address of a VM file allocation. */
  type Obj = nat

  type Tid = nat

  const MAX_VMS := 1024

  /** A VM file under its `Arc`: `strong` is the reference count, `parent` the forked file's owned
      parent reference, `children` and `running` the atomics other threads read. */
  datatype Vm = Vm(id: nat, parent: Option<Obj>, strong: int, children: int, running: bool)

  /** Where a thread is inside a system call. */
  datatype Phase =
    | RootHasId(id: nat)                 // CREATE_ROOT_VM, id allocated
    | Forking(from: Obj, id: nat)        // CREATE_FORKED_VM, parent retained and counted, lock released
    | Forked(from: Obj, id: nat)         // the ForkedVm value exists, not yet in a file
    | Built(obj: Obj)                    // the file exists, not yet visible by id
    | Listed(obj: Obj)                   // visible by id, no descriptor yet
    | Unlisting(obj: Obj)                // descriptor failed or was closed; about to leave the list
    | DropRef(obj: Obj)                  // about to drop the reference it holds
    | Reaping(obj: Obj)                  // dropped the last reference; about to run the destructor
    | RunCheck(obj: Obj)                 // RUN, running flag taken
    | Running(obj: Obj)                  // RUN, past the child check

  datatype State = State(
    vms: map<Obj, Vm>,
    list: seq<(nat, Obj)>,               // the handler's vm_list: id and reference
    nextId: nat,
    fds: set<Obj>,                       // files with an open descriptor
    threads: map<Tid, Phase>)

  datatype Step =
    | RootAlloc(t: Tid)
    | RootBuild(t: Tid, ok: bool, obj: Obj)
    | ForkPhase1(t: Tid, parentId: nat)
    | ForkPhase2(t: Tid, ok: bool)
    | ForkWrap(t: Tid, ok: bool, obj: Obj)
    | Register(t: Tid)
    | GetFd(t: Tid, ok: bool)
    | Close(t: Tid, obj: Obj)
    | Unlist(t: Tid)
    | Release(t: Tid)
    | Reap(t: Tid)
    | RunEnter(t: Tid, obj: Obj)
    | RunTest(t: Tid)
    | RunExit(t: Tid)

  const Init := State(map[], [], 1, {}, map[])

  // The handler

  /** `find_vm_by_id`: the first entry with that id. */
  function Find(list: seq<(nat, Obj)>, id: nat): Option<Obj> {
    if list == [] then None
    else if list[0].0 == id then Some(list[0].1)
    else Find(list[1..], id)
  }

  /** `remove_vm`: every entry with that pointer goes. */
  function Without(list: seq<(nat, Obj)>, o: Obj): seq<(nat, Obj)> {
    if list == [] then []
    else if list[0].1 == o then Without(list[1..], o)
    else [list[0]] + Without(list[1..], o)
  }

  // Field updates

  function AddStrong(s: State, o: Obj, n: int): State {
    if o in s.vms then s.(vms := s.vms[o := s.vms[o].(strong := s.vms[o].strong + n)]) else s
  }

  function AddChildren(s: State, o: Obj, n: int): State {
    if o in s.vms then s.(vms := s.vms[o := s.vms[o].(children := s.vms[o].children + n)]) else s
  }

  function SetRunning(s: State, o: Obj, b: bool): State {
    if o in s.vms then s.(vms := s.vms[o := s.vms[o].(running := b)]) else s
  }

  function Go(s: State, t: Tid, ph: Phase): State { s.(threads := s.threads[t := ph]) }

  function Done(s: State, t: Tid): State { s.(threads := s.threads - {t}) }

  /** A RUN on `o` is between taking the flag and clearing it; it keeps the descriptor's file alive. */
  predicate InRun(ph: Phase, o: Obj) { (ph.RunCheck? || ph.Running?) && ph.obj == o }

  predicate Enabled(s: State, step: Step) {
    match step
    case RootAlloc(t) => t !in s.threads
    case RootBuild(t, ok, o) => t in s.threads && s.threads[t].RootHasId? && o !in s.vms
    case ForkPhase1(t, _) => t !in s.threads
    case ForkPhase2(t, _) => t in s.threads && s.threads[t].Forking?
    case ForkWrap(t, ok, o) => t in s.threads && s.threads[t].Forked? && o !in s.vms
    case Register(t) => t in s.threads && s.threads[t].Built?
    case GetFd(t, _) => t in s.threads && s.threads[t].Listed?
    case Close(t, o) => t !in s.threads && o in s.fds && forall u :: u in s.threads ==> !InRun(s.threads[u], o)
    case Unlist(t) => t in s.threads && s.threads[t].Unlisting?
    case Release(t) => t in s.threads && s.threads[t].DropRef?
    case Reap(t) => t in s.threads && s.threads[t].Reaping?
    case RunEnter(t, o) => t !in s.threads && o in s.fds
    case RunTest(t) => t in s.threads && s.threads[t].RunCheck?
    case RunExit(t) => t in s.threads && s.threads[t].Running?
  }

  /** `alloc_vm_id` for a root VM. */
  function AfterRootAlloc(s: State, t: Tid): State {
    if |s.list| >= MAX_VMS then s else Go(s.(nextId := s.nextId + 1), t, RootHasId(s.nextId))
  }

  /** Building the VM and its file; either can fail. */
  function AfterRootBuild(s: State, t: Tid, ok: bool, o: Obj): State
    requires t in s.threads && s.threads[t].RootHasId?
  {
    if ok then Go(s.(vms := s.vms[o := Vm(s.threads[t].id, None, 1, 0, false)]), t, Built(o)) else Done(s, t)
  }

  /** Phase 1 of a fork, under the lock: allocate an id, find the parent, count the child, retain the
      parent. A missing parent still uses up the id. */
  function AfterForkPhase1(s: State, t: Tid, parentId: nat): State {
    if |s.list| >= MAX_VMS then s
    else
      var s1 := s.(nextId := s.nextId + 1);
      match Find(s.list, parentId)
      case None => s1
      case Some(p) => Go(AddStrong(AddChildren(s1, p, 1), p, 1), t, Forking(p, s.nextId))
  }

  /** Undoing a fork that produced no VM: uncount the child, then drop the parent reference. */
  function AbandonFork(s: State, t: Tid, p: Obj): State { Go(AddChildren(s, p, -1), t, DropRef(p)) }

  /** Phase 2, outside the lock: clone the page table and state; can fail. */
  function AfterForkPhase2(s: State, t: Tid, ok: bool): State
    requires t in s.threads && s.threads[t].Forking?
  {
    var ph := s.threads[t];
    if ok then Go(s, t, Forked(ph.from, ph.id)) else AbandonFork(s, t, ph.from)
  }

  /** Wrapping the forked VM in its file, which takes over the parent reference; the allocation can
      fail, and then dropping the VM and the reference has the same effect as abandoning the fork. */
  function AfterForkWrap(s: State, t: Tid, ok: bool, o: Obj): State
    requires t in s.threads && s.threads[t].Forked?
  {
    var ph := s.threads[t];
    if ok then Go(s.(vms := s.vms[o := Vm(ph.id, Some(ph.from), 1, 0, false)]), t, Built(o))
    else AbandonFork(s, t, ph.from)
  }

  /** Clone a reference for the handler and list it. */
  function AfterRegister(s: State, t: Tid): State
    requires t in s.threads && s.threads[t].Built?
  {
    var o := s.threads[t].obj;
    if o in s.vms then Go(AddStrong(s.(list := s.list + [(s.vms[o].id, o)]), o, 1), t, Listed(o)) else s
  }

  /** The descriptor takes over the thread's reference, or creation failed. */
  function AfterGetFd(s: State, t: Tid, ok: bool): State
    requires t in s.threads && s.threads[t].Listed?
  {
    var o := s.threads[t].obj;
    if ok then Done(s.(fds := s.fds + {o}), t) else Go(s, t, Unlisting(o))
  }

  /** The release callback starts: the descriptor's reference passes to the closing thread. */
  function AfterClose(s: State, t: Tid, o: Obj): State { Go(s.(fds := s.fds - {o}), t, Unlisting(o)) }

  /** `remove_vm` drops the handler's reference. */
  function AfterUnlist(s: State, t: Tid): State
    requires t in s.threads && s.threads[t].Unlisting?
  {
    var o := s.threads[t].obj;
    var list' := Without(s.list, o);
    Go(AddStrong(s.(list := list'), o, |list'| - |s.list|), t, DropRef(o))
  }

  function AfterRelease(s: State, t: Tid): State
    requires t in s.threads && s.threads[t].DropRef?
  {
    var o := s.threads[t].obj;
    var s1 := AddStrong(s, o, -1);
    if o in s1.vms && s1.vms[o].strong == 0 then Go(s1, t, Reaping(o)) else Done(s1, t)
  }

  /** The destructor: a forked VM uncounts itself at its parent, and its file then drops the parent
      reference it owned. */
  function AfterReap(s: State, t: Tid): State
    requires t in s.threads && s.threads[t].Reaping?
  {
    var o := s.threads[t].obj;
    if o !in s.vms then Done(s, t)
    else
      match s.vms[o].parent
      case None => Done(s.(vms := s.vms - {o}), t)
      case Some(p) => Go(AddChildren(s.(vms := s.vms - {o}), p, -1), t, DropRef(p))
  }

  /** RUN: take the running flag or fail with EBUSY. */
  function AfterRunEnter(s: State, t: Tid, o: Obj): State {
    if o in s.vms && !s.vms[o].running then Go(SetRunning(s, o, true), t, RunCheck(o)) else s
  }

  /** RUN: a VM with children is not run. */
  function AfterRunTest(s: State, t: Tid): State
    requires t in s.threads && s.threads[t].RunCheck?
  {
    var o := s.threads[t].obj;
    if o in s.vms && s.vms[o].children == 0 then Go(s, t, Running(o)) else Done(SetRunning(s, o, false), t)
  }

  function AfterRunExit(s: State, t: Tid): State
    requires t in s.threads && s.threads[t].Running?
  {
    Done(SetRunning(s, s.threads[t].obj, false), t)
  }

  function Apply(s: State, step: Step): State
    requires Enabled(s, step)
  {
    match step
    case RootAlloc(t) => AfterRootAlloc(s, t)
    case RootBuild(t, ok, o) => AfterRootBuild(s, t, ok, o)
    case ForkPhase1(t, parentId) => AfterForkPhase1(s, t, parentId)
    case ForkPhase2(t, ok) => AfterForkPhase2(s, t, ok)
    case ForkWrap(t, ok, o) => AfterForkWrap(s, t, ok, o)
    case Register(t) => AfterRegister(s, t)
    case GetFd(t, ok) => AfterGetFd(s, t, ok)
    case Close(t, o) => AfterClose(s, t, o)
    case Unlist(t) => AfterUnlist(s, t)
    case Release(t) => AfterRelease(s, t)
    case Reap(t) => AfterReap(s, t)
    case RunEnter(t, o) => AfterRunEnter(s, t, o)
    case RunTest(t) => AfterRunTest(s, t)
    case RunExit(t) => AfterRunExit(s, t)
  }

  // What refers to a VM

  /** The reference a thread holds, if any. */
  function Holds(ph: Phase): Option<Obj> {
    match ph
    case Forking(p, _) => Some(p)
    case Forked(p, _) => Some(p)
    case Built(o) => Some(o)
    case Listed(o) => Some(o)
    case Unlisting(o) => Some(o)
    case DropRef(o) => Some(o)
    case _ => None
  }

  /** The parent of the fork a thread has in flight, if any. */
  function Forks(ph: Phase): Option<Obj> {
    match ph
    case Forking(p, _) => Some(p)
    case Forked(p, _) => Some(p)
    case _ => None
  }

  /** An id a thread holds that no VM carries yet. */
  function Reserves(ph: Phase): Option<nat> {
    match ph
    case RootHasId(id) => Some(id)
    case Forking(_, id) => Some(id)
    case Forked(_, id) => Some(id)
    case _ => None
  }

  /** Threads holding a reference to `o`. */
  function Holders(th: map<Tid, Phase>, o: Obj): set<Tid> { set t | t in th && Holds(th[t]) == Some(o) }

  /** Threads with a fork of `o` in flight. */
  function InFlight(th: map<Tid, Phase>, o: Obj): set<Tid> { set t | t in th && Forks(th[t]) == Some(o) }

  /** Live forked children of `o`. */
  function Kids(vms: map<Obj, Vm>, o: Obj): set<Obj> { set c | c in vms && vms[c].parent == Some(o) }

  predicate InList(list: seq<(nat, Obj)>, o: Obj) { exists i :: 0 <= i < |list| && list[i].1 == o }

  // Runs

  /** A run: each step enabled where it is taken. */
  ghost predicate Runs(s: State, steps: seq<Step>)
    decreases |steps|
  {
    steps == [] || (Enabled(s, steps[0]) && Runs(Apply(s, steps[0]), steps[1..]))
  }

  function After(s: State, steps: seq<Step>): State
    requires Runs(s, steps)
    decreases |steps|
  {
    if steps == [] then s else After(Apply(s, steps[0]), steps[1..])
  }
}
