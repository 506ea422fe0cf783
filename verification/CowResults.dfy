/** What copy-on-write forking promises, over every run. */
module CowResults {
  import opened CowMemory
  import opened Options

  ghost predicate Reachable(m: Mem) { exists steps :: Runs(Empty, steps) && After(Empty, steps) == m }

  lemma StepKeepsInv(m: Mem, step: Step)
    requires Inv(m) && Enabled(m, step)
    ensures Inv(Apply(m, step))
  {
    match step
    case NewRoot(_, _, _, _) => RootKeeps(m, step);
    case ForkVm(_, _) => ForkKeeps(m, step);
    case Cow(_, _, _) => CowKeeps(m, step);
    case Protect(_, _) => ProtectKeeps(m, step);
    case GuestWrite(_, _, _) => WriteKeeps(m, step);
    case HostWrite(_, _, _) => WriteKeeps(m, step);
    case Drop(_) => DropKeeps(m, step);
  }

  lemma {:induction false} RunKeepsInv(m: Mem, steps: seq<Step>)
    requires Inv(m) && Runs(m, steps)
    ensures Inv(After(m, steps))
    decreases |steps|
  {
    if steps != [] {
      StepKeepsInv(m, steps[0]);
      RunKeepsInv(Apply(m, steps[0]), steps[1..]);
    }
  }

  lemma ReachableInv(m: Mem)
    requires Reachable(m)
    ensures Inv(m)
  {
    var steps :| Runs(Empty, steps) && After(Empty, steps) == m;
    assert Inv(Empty);
    RunKeepsInv(Empty, steps);
  }

  lemma ReachableEmpty()
    ensures Reachable(Empty)
  {
    var none: seq<Step> := [];
    assert Runs(Empty, none) && After(Empty, none) == Empty;
  }

  lemma ReachableStep(m: Mem, step: Step)
    requires Reachable(m) && Enabled(m, step)
    ensures Reachable(Apply(m, step))
  {
    var steps :| Runs(Empty, steps) && After(Empty, steps) == m;
    RunAppend(Empty, steps, step);
    assert After(Empty, steps + [step]) == Apply(m, step);
  }

  lemma {:induction false} RunAppend(m: Mem, steps: seq<Step>, step: Step)
    requires Runs(m, steps) && Enabled(After(m, steps), step)
    ensures Runs(m, steps + [step]) && After(m, steps + [step]) == Apply(After(m, steps), step)
    decreases |steps|
  {
    if steps == [] {
      assert Runs(Apply(m, step), []);
      assert [step][1..] == [];
    } else {
      RunAppend(Apply(m, steps[0]), steps[1..], step);
      assert (steps + [step])[1..] == steps[1..] + [step];
    }
  }

  // The fast route agrees with the slow one

  /** `memory_size`: the size of the root at the end of the chain. */
  function MemorySize(sp: Spaces, x: Id): nat
    decreases x
  {
    if x !in sp then 0
    else match sp[x]
      case Root(size, _, _) => size
      case Fork(parent, _, _) => if parent < x then MemorySize(sp, parent) else 0
  }

  /** The slow rule answers exactly for the pages wholly inside the root's memory. */
  lemma {:induction false} ReadPageDefined(sp: Spaces, x: Id, p: Page)
    requires Shape(sp) && x in sp
    ensures ReadPage(sp, x, p).Some? <==> (p + 1) * PAGE_SIZE <= MemorySize(sp, x)
    decreases x
  {
    match sp[x]
    case Root(size, _, _) => assert (p + 1) * PAGE_SIZE <= size ==> p < PagesFor(size);
    case Fork(parent, _, _) => ReadPageDefined(sp, parent, p);
  }

  /** Main result: in every reachable state, on every page a VM maps, it reads through its EPT the bytes the
      rule "own copy-on-write page, else ask the parent" gives exactly when the page lies wholly inside
      memory; for a partial last page the rule gives nothing. */
  lemma EptReadsAgree(m: Mem, x: Id, p: Page)
    requires Reachable(m) && Maps(m.spaces, x, p)
    ensures View(m, x, p).Some?
    ensures View(m, x, p) == SlowView(m, x, p) <==> (p + 1) * PAGE_SIZE <= MemorySize(m.spaces, x)
    ensures SlowView(m, x, p).None? <==> (p + 1) * PAGE_SIZE > MemorySize(m.spaces, x)
  {
    var _ := EptFramesAreOwned(m, x, p);
    ReachableInv(m);
    ReadPageDefined(m.spaces, x, p);
    if (p + 1) * PAGE_SIZE <= MemorySize(m.spaces, x) {
      assert AgreesAt(m, x, p);
      var a := ReadOwner(m.spaces, x, p);
      assert Owns(m.spaces, a, p, ReadPage(m.spaces, x, p).value);
    }
  }

  /** A root with one page, `size` bytes of which are memory. */
  function OnePage(id: Id, size: nat, b: Bytes): Step { NewRoot(id, size, map[0 := 7], map[7 := b]) }

  function OneRoot(id: Id, size: nat, b: Bytes): Mem {
    Mem(map[id := Root(size, map[0 := Access(7, true)], map[0 := 7])], map[7 := b])
  }

  lemma OnePageIsBuilt(id: Id, size: nat, b: Bytes)
    requires 0 < size <= PAGE_SIZE
    ensures Enabled(Empty, OnePage(id, size, b)) && Apply(Empty, OnePage(id, size, b)) == OneRoot(id, size, b)
  {
    var backing: map<Page, Frame>, init: map<Frame, Bytes> := map[0 := 7], map[7 := b];
    var step := NewRoot(id, size, backing, init);
    assert PagesFor(size) == 1;
    assert 7 in init.Keys && backing[0] == 7;
    assert init.Keys == {7};
    forall f | f in backing.Values ensures f == 7 { var p :| p in backing && backing[p] == f; }
    assert backing.Values == {7};
    assert forall p: Page :: p in backing <==> p < PagesFor(size);
    assert Enabled(Empty, step);
    assert RootSpace(size, backing) == Root(size, map[0 := Access(7, true)], backing);
    assert Apply(Empty, step).data == map[7 := b];
  }

  lemma FirstStep(step: Step)
    requires Enabled(Empty, step)
    ensures Runs(Empty, [step]) && After(Empty, [step]) == Apply(Empty, step)
  {
    assert Runs(Empty, []) && After(Empty, []) == Empty;
    RunAppend(Empty, [], step);
    assert [] + [step] == [step];
  }

  /** A root with one byte of memory maps its first page, and the rule does not answer for it. */
  lemma PartialPageIsMapped(b: Bytes)
    ensures Runs(Empty, [OnePage(0, 1, b)])
    ensures var m := After(Empty, [OnePage(0, 1, b)]); View(m, 0, 0) == Some(b) && SlowView(m, 0, 0) == None
  {
    OnePageIsBuilt(0, 1, b);
    FirstStep(OnePage(0, 1, b));
  }

  /** A fork of a root with one whole page, a write fault in the fork, and a write. */
  lemma ForkSteps(m1: Mem, b: Bytes, c: Bytes)
    requires m1 == OneRoot(0, PAGE_SIZE, b)
    ensures Enabled(m1, ForkVm(1, 0))
    ensures var m2 := Apply(m1, ForkVm(1, 0));
      && m2 == m1.(spaces := m1.spaces[1 := Fork(0, map[0 := Access(7, false)], map[])]) && Enabled(m2, Cow(1, 0, 8))
      && var m3 := Apply(m2, Cow(1, 0, 8));
        && m3 == Mem(m1.spaces[1 := Fork(0, map[0 := Access(8, true)], map[0 := 8])], m1.data[8 := b]) &&
          Enabled(m3, GuestWrite(1, 0, c))
        && Apply(m3, GuestWrite(1, 0, c)) == m3.(data := m3.data[8 := c])
  {
    var m2 := m1.(spaces := m1.spaces[1 := Fork(0, map[0 := Access(7, false)], map[])]);
    assert ReadOnly(m1.spaces[0].ept) == map[0 := Access(7, false)];
    assert Apply(m1, ForkVm(1, 0)) == m2;
    assert ReadPage(m2.spaces, 0, 0) == Some(7);
    assert Enabled(m2, Cow(1, 0, 8));
    var m3 := Mem(m1.spaces[1 := Fork(0, map[0 := Access(8, true)], map[0 := 8])], m1.data[8 := b]);
    var own: map<Page, Frame> := map[];
    assert m2.spaces[1].ept[0 := Access(8, true)] == map[0 := Access(8, true)] && own[0 := 8] == map[0 := 8];
    assert m2.spaces[1 := WithCow(m2.spaces[1], 0, 8)] == m3.spaces;
    assert Apply(m2, Cow(1, 0, 8)) == m3;
  }

  /** Then the fork sees what it wrote and the root what it had, by either route. */
  lemma ForkWritesItsOwnCopy(b: Bytes, c: Bytes)
    ensures var steps := [OnePage(0, PAGE_SIZE, b), ForkVm(1, 0), Cow(1, 0, 8), GuestWrite(1, 0, c)];
      && Runs(Empty, steps)
      && var m := After(Empty, steps);
        View(m, 0, 0) == SlowView(m, 0, 0) == Some(b) && View(m, 1, 0) == SlowView(m, 1, 0) == Some(c)
  {
    var s1, s2, s3, s4 := OnePage(0, PAGE_SIZE, b), ForkVm(1, 0), Cow(1, 0, 8), GuestWrite(1, 0, c);
    OnePageIsBuilt(0, PAGE_SIZE, b);
    FirstStep(s1);
    ForkSteps(OneRoot(0, PAGE_SIZE, b), b, c);
    RunAppend(Empty, [s1], s2);
    RunAppend(Empty, [s1] + [s2], s3);
    RunAppend(Empty, [s1] + [s2] + [s3], s4);
    assert [s1] + [s2] + [s3] + [s4] == [s1, s2, s3, s4];
  }

  /** Every frame an EPT points to is the page of that number of the VM itself or of a live ancestor,
      and its bytes exist. */
  lemma EptFramesAreOwned(m: Mem, x: Id, p: Page) returns (a: Id)
    requires Reachable(m) && Maps(m.spaces, x, p)
    ensures a in m.spaces && UpTo(m.spaces, a, x)
    ensures Owns(m.spaces, a, p, m.spaces[x].ept[p].frame) && m.spaces[x].ept[p].frame in m.data
  {
    ReachableInv(m);
    assert BackedAt(m.spaces, x, p);
    a :| UpTo(m.spaces, a, x) && Owns(m.spaces, a, p, m.spaces[x].ept[p].frame);
  }

  /** Two VMs that map one frame map it at one page, one owner is above both, and only that owner may
      write it. */
  lemma SharedFrames(m: Mem, x: Id, p: Page, y: Id, q: Page) returns (a: Id)
    requires Reachable(m) && Maps(m.spaces, x, p) && Maps(m.spaces, y, q)
    requires m.spaces[x].ept[p].frame == m.spaces[y].ept[q].frame
    ensures p == q && UpTo(m.spaces, a, x) && UpTo(m.spaces, a, y)
    ensures (m.spaces[x].ept[p].writable ==> x == a) && (m.spaces[y].ept[q].writable ==> y == a)
  {
    ReachableInv(m);
    var f := m.spaces[x].ept[p].frame;
    a := EptFramesAreOwned(m, x, p);
    var b := EptFramesAreOwned(m, y, q);
    assert a == b && p == q;
    WriterOwns(m, x, p);
    WriterOwns(m, y, q);
  }

  lemma WriterOwns(m: Mem, x: Id, p: Page)
    requires Inv(m) && Maps(m.spaces, x, p)
    ensures m.spaces[x].ept[p].writable ==> Owns(m.spaces, x, p, m.spaces[x].ept[p].frame)
  {}

  // Isolation

  predicate Writes(step: Step, x: Id, p: Page) { IsWrite(step) && step.id == x && step.page == p }

  /** One step of anyone else, or of this VM elsewhere, leaves both views alone. */
  lemma StepKeepsView(m: Mem, step: Step, x: Id, p: Page)
    requires Inv(m) && Enabled(m, step) && x in m.spaces && step != Drop(x) && !Writes(step, x, p)
    ensures x in Apply(m, step).spaces && SameViews(m, Apply(m, step), x, p)
  {
    match step
    case NewRoot(_, _, _, _) =>
      forall f | f in m.data ensures f in Apply(m, step).data && Apply(m, step).data[f] == m.data[f] {
        RootBytes(m, step, f);
      }
      ViewsExtend(m, Apply(m, step), x, p);
    case ForkVm(_, _) => ForkViews(m, step, x, p);
    case Cow(_, _, _) => CowIsInvisible(m, step, x, p);
    case Protect(_, _) => ProtectIsInvisible(m, step, x, p);
    case GuestWrite(_, _, _) => WriteIsLocal(m, step, x, p);
    case HostWrite(_, _, _) => WriteIsLocal(m, step, x, p);
    case Drop(_) => DropViews(m, step, x, p);
  }

  /** A run in which `x` stays and nobody writes page `p` of `x`. */
  ghost predicate LeavesAlone(steps: seq<Step>, x: Id, p: Page) {
    forall i :: 0 <= i < |steps| ==> steps[i] != Drop(x) && !Writes(steps[i], x, p)
  }

  /** Forks, copies, mappings, closes and writes of every other VM, and of this VM's other pages, never
      change what a VM reads in a page: only its own writes to that page do. */
  lemma {:induction false} OnlyOwnWritesShow(m: Mem, steps: seq<Step>, x: Id, p: Page)
    requires Reachable(m) && x in m.spaces && Runs(m, steps) && LeavesAlone(steps, x, p)
    ensures x in After(m, steps).spaces
    ensures View(After(m, steps), x, p) == View(m, x, p) && SlowView(After(m, steps), x, p) == SlowView(m, x, p)
  {
    ReachableInv(m);
    OnlyOwnWritesShowFrom(m, steps, x, p);
  }

  lemma {:induction false} OnlyOwnWritesShowFrom(m: Mem, steps: seq<Step>, x: Id, p: Page)
    requires Inv(m) && x in m.spaces && Runs(m, steps) && LeavesAlone(steps, x, p)
    ensures x in After(m, steps).spaces && SameViews(m, After(m, steps), x, p)
    decreases |steps|
  {
    if steps != [] {
      StepKeepsView(m, steps[0], x, p);
      StepKeepsInv(m, steps[0]);
      assert forall i :: 0 <= i < |steps| - 1 ==> steps[1..][i] == steps[i + 1];
      OnlyOwnWritesShowFrom(Apply(m, steps[0]), steps[1..], x, p);
    }
  }

  /** A fork is a snapshot: until it writes the page itself, a fork reads what its parent had at the
      moment of the fork, whatever anyone does meanwhile. */
  lemma ForkIsSnapshot(m: Mem, id: Id, from: Id, steps: seq<Step>, p: Page)
    requires Reachable(m) && Enabled(m, ForkVm(id, from))
    requires Runs(Apply(m, ForkVm(id, from)), steps) && LeavesAlone(steps, id, p)
    ensures View(After(Apply(m, ForkVm(id, from)), steps), id, p) == View(m, from, p)
    ensures SlowView(After(Apply(m, ForkVm(id, from)), steps), id, p) == SlowView(m, from, p)
  {
    var m' := Apply(m, ForkVm(id, from));
    ReachableInv(m);
    ForkViews(m, ForkVm(id, from), id, p);
    StepKeepsInv(m, ForkVm(id, from));
    OnlyOwnWritesShowFrom(m', steps, id, p);
  }

  // Mappings handed to user space

  lemma StepKeepsOwn(m: Mem, step: Step, x: Id, p: Page)
    requires Enabled(m, step) && x in m.spaces && step != Drop(x) && p in m.spaces[x].own
    ensures x in Apply(m, step).spaces && p in Apply(m, step).spaces[x].own
    ensures Apply(m, step).spaces[x].own[p] == m.spaces[x].own[p]
    ensures p in Apply(m, step).spaces[x].ept <==> p in m.spaces[x].ept
  {}

  /** Once a page is the VM's own, a mapping of its frame never goes stale: in every later state in
      which the VM lives, guest, slow rule and mapping read the same frame. */
  lemma {:induction false} MappingNeverGoesStale(m: Mem, steps: seq<Step>, x: Id, p: Page)
    requires Inv(m) && x in m.spaces && p in m.spaces[x].own && p in m.spaces[x].ept
    requires Runs(m, steps) && forall i :: 0 <= i < |steps| ==> steps[i] != Drop(x)
    ensures var m' := After(m, steps); var f := m.spaces[x].own[p];
      && x in m'.spaces && p in m'.spaces[x].ept && m'.spaces[x].ept[p].frame == f && f in m'.data
      && View(m', x, p) == Some(m'.data[f])
      && (m'.spaces[x].Fork? ==> ReadPage(m'.spaces, x, p) == Some(f))
    decreases |steps|
  {
    if steps == [] {
      assert Maps(m.spaces, x, p) && Owns(m.spaces, x, p, m.spaces[x].own[p]);
    } else {
      StepKeepsOwn(m, steps[0], x, p);
      StepKeepsInv(m, steps[0]);
      assert forall i :: 0 <= i < |steps| - 1 ==> steps[1..][i] == steps[i + 1];
      MappingNeverGoesStale(Apply(m, steps[0]), steps[1..], x, p);
    }
  }
}
