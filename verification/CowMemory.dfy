/** Guest memory of a family of forked VMs: crates/bedrock-vmx/src/vm/root.rs, vm/forked.rs, cow.rs and
    the mmap path of crates/bedrock/vm_file/forked.rs.

    A VM is named by its id. Its EPT is the page map that the page table computes; its own pages are
    the root's backing memory or the fork's copy-on-write map. */
module CowMemory {
  import opened Options

  type Id = nat

  /** Guest page number. */
  type Page = nat

  type Frame = nat

  type Bytes = seq<bv8>

  const PAGE_SIZE := 4096

  datatype Access = Access(frame: Frame, writable: bool)

  datatype Space =
    | Root(size: nat, ept: map<Page, Access>, own: map<Page, Frame>)
    | Fork(parent: Id, ept: map<Page, Access>, own: map<Page, Frame>)

  type Spaces = map<Id, Space>

  datatype Mem = Mem(spaces: Spaces, data: map<Frame, Bytes>)

  const Empty := Mem(map[], map[])

  /** The LAPIC and IOAPIC pages, left out of every root EPT so that accesses trap. */
  predicate IsMmio(p: Page) { p == 0xFEE00 || p == 0xFEC00 }

  /** Pages backing `size` bytes, the last one possibly partial. */
  function PagesFor(size: nat): nat { (size + PAGE_SIZE - 1) / PAGE_SIZE }

  /** `read_page`, the slow rule: the VM's own page, else ask the parent. A root answers only for pages
      wholly inside its memory. */
  function ReadPage(sp: Spaces, x: Id, p: Page): Option<Frame>
    decreases x
  {
    if x !in sp then None
    else match sp[x]
      case Root(size, _, own) => if (p + 1) * PAGE_SIZE <= size && p in own then Some(own[p]) else None
      case Fork(parent, _, own) =>
        if p in own then Some(own[p])
        else if parent < x then ReadPage(sp, parent, p)
        else None
  }

  /** What the VM reads through its EPT. */
  function View(m: Mem, x: Id, p: Page): Option<Bytes> {
    if x in m.spaces && p in m.spaces[x].ept &&
      m.spaces[x].ept[p].frame in m.data then Some(m.data[m.spaces[x].ept[p].frame]) else None
  }

  /** What the slow rule reads. */
  function SlowView(m: Mem, x: Id, p: Page): Option<Bytes> {
    match ReadPage(m.spaces, x, p)
    case None => None
    case Some(f) => if f in m.data then Some(m.data[f]) else None
  }

  predicate Childless(sp: Spaces, x: Id) { forall c :: c in sp && sp[c].Fork? ==> sp[c].parent != x }

  // Steps

  datatype Step =
    | NewRoot(id: Id, size: nat, backing: map<Page, Frame>, init: map<Frame, Bytes>)
    | ForkVm(id: Id, from: Id)
    | Cow(id: Id, page: Page, frame: Frame)              // write fault, mmap of a feedback buffer, I/O page
    | Protect(id: Id, page: Page)                        // PEBS remap of a page to read-execute
    | GuestWrite(id: Id, page: Page, bytes: Bytes)       // through the EPT
    | HostWrite(id: Id, page: Page, bytes: Bytes)        // write_guest_memory
    | Drop(id: Id)

  ghost predicate Enabled(m: Mem, step: Step) {
    match step
    case NewRoot(id, size, backing, init) =>
      && id !in m.spaces
      && (forall p: Page :: p in backing <==> p < PagesFor(size))
      && (forall p, q :: p in backing && q in backing && backing[p] == backing[q] ==> p == q)
      && (forall p :: p in backing ==> backing[p] !in m.data)
      && init.Keys == backing.Values
    case ForkVm(id, from) => id !in m.spaces && from in m.spaces && from < id
    case Cow(id, p, f) =>
      && id in m.spaces && m.spaces[id].Fork? && p !in m.spaces[id].own && f !in m.data
      && ReadPage(m.spaces, m.spaces[id].parent, p).Some? && ReadPage(m.spaces, m.spaces[id].parent, p).value in m.data
    case Protect(id, p) => id in m.spaces && p in m.spaces[id].ept
    case GuestWrite(id, p, _) =>
      id in m.spaces && p in m.spaces[id].ept && m.spaces[id].ept[p].writable && Childless(m.spaces, id)
    case HostWrite(id, p, _) => id in m.spaces && p in m.spaces[id].own && Childless(m.spaces, id)
    case Drop(id) => id in m.spaces && Childless(m.spaces, id)
  }

  function RootSpace(size: nat, backing: map<Page, Frame>): Space {
    Root(size, map p | p in backing && !IsMmio(p) :: Access(backing[p], true), backing)
  }

  /** `clone_for_fork`: the same pages, none writable. */
  function ReadOnly(ept: map<Page, Access>): map<Page, Access> { map p | p in ept :: Access(ept[p].frame, false) }

  /** The copy goes into the CoW map; the remap fails, and changes nothing, for a page the EPT does not
      map. */
  function WithCow(s: Space, p: Page, f: Frame): Space {
    s.(own := s.own[p := f], ept := if p in s.ept then s.ept[p := Access(f, true)] else s.ept)
  }

  function WithProtected(s: Space, p: Page): Space
    requires p in s.ept
  {
    s.(ept := s.ept[p := s.ept[p].(writable := false)])
  }

  function Apply(m: Mem, step: Step): Mem
    requires Enabled(m, step)
  {
    match step
    case NewRoot(id, size, backing, init) => Mem(m.spaces[id := RootSpace(size, backing)], m.data + init)
    case ForkVm(id, from) => m.(spaces := m.spaces[id := Fork(from, ReadOnly(m.spaces[from].ept), map[])])
    case Cow(id, p, f) =>
      Mem(m.spaces[id := WithCow(m.spaces[id], p, f)],
        m.data[f := m.data[ReadPage(m.spaces, m.spaces[id].parent, p).value]])
    case Protect(id, p) => m.(spaces := m.spaces[id := WithProtected(m.spaces[id], p)])
    case GuestWrite(id, p, b) => m.(data := m.data[m.spaces[id].ept[p].frame := b])
    case HostWrite(id, p, b) => m.(data := m.data[m.spaces[id].own[p] := b])
    case Drop(id) => Mem(m.spaces - {id}, m.data - m.spaces[id].own.Values)
  }

  ghost predicate Runs(m: Mem, steps: seq<Step>)
    decreases |steps|
  {
    steps == [] || (Enabled(m, steps[0]) && Runs(Apply(m, steps[0]), steps[1..]))
  }

  function After(m: Mem, steps: seq<Step>): Mem
    requires Runs(m, steps)
    decreases |steps|
  {
    if steps == [] then m else After(Apply(m, steps[0]), steps[1..])
  }

  // What every run keeps

  ghost predicate Linked(sp: Spaces) {
    forall c :: c in sp && sp[c].Fork? ==> sp[c].parent in sp && sp[c].parent < c
  }

  predicate Owns(sp: Spaces, a: Id, p: Page, f: Frame) { a in sp && p in sp[a].own && sp[a].own[p] == f }

  /** A frame is one VM's copy of one page. */
  ghost predicate Exclusive(sp: Spaces) {
    forall a, p, b, q, f :: Owns(sp, a, p, f) && Owns(sp, b, q, f) ==> a == b && p == q
  }

  ghost predicate Held(m: Mem) { forall a, p, f :: Owns(m.spaces, a, p, f) ==> f in m.data }

  /** `a` is `x` or one of its ancestors. */
  predicate UpTo(sp: Spaces, a: Id, x: Id)
    decreases x
  {
    x in sp && (a == x || (sp[x].Fork? && sp[x].parent < x && UpTo(sp, a, sp[x].parent)))
  }

  predicate Maps(sp: Spaces, x: Id, p: Page) { x in sp && p in sp[x].ept }

  /** The frame `x` maps at `p` is the page `p` of `x` or of an ancestor. */
  ghost predicate BackedAt(sp: Spaces, x: Id, p: Page)
    requires Maps(sp, x, p)
  {
    exists a :: UpTo(sp, a, x) && Owns(sp, a, p, sp[x].ept[p].frame)
  }

  ghost predicate Backed(sp: Spaces) { forall x, p :: Maps(sp, x, p) ==> BackedAt(sp, x, p) }

  ghost predicate OwnFirst(sp: Spaces) {
    forall x, p :: Maps(sp, x, p) && p in sp[x].own ==> sp[x].ept[p].frame == sp[x].own[p]
  }

  ghost predicate WritableOwned(sp: Spaces) {
    forall x, p :: Maps(sp, x, p) && sp[x].ept[p].writable ==> p in sp[x].own
  }

  ghost predicate RootsWhole(sp: Spaces) {
    forall x, p: Page :: x in sp && sp[x].Root? ==> (p in sp[x].own <==> p < PagesFor(sp[x].size))
  }

  ghost predicate CopiesReadable(sp: Spaces) {
    forall x, p :: x in sp && sp[x].Fork? && p in sp[x].own ==> ReadPage(sp, sp[x].parent, p).Some?
  }

  ghost predicate AgreesAt(m: Mem, x: Id, p: Page) {
    ReadPage(m.spaces, x, p).Some? ==> View(m, x, p) == SlowView(m, x, p)
  }

  ghost predicate Agrees(m: Mem) { forall x, p :: Maps(m.spaces, x, p) ==> AgreesAt(m, x, p) }

  ghost predicate Shape(sp: Spaces) {
    Linked(sp) && Exclusive(sp) && Backed(sp) && OwnFirst(sp) && WritableOwned(sp) && RootsWhole(sp) &&
      CopiesReadable(sp)
  }

  ghost predicate Inv(m: Mem) { Shape(m.spaces) && Held(m) && Agrees(m) }

  // Chains

  /** The slow rule answers with a page of the VM or of an ancestor. */
  lemma {:induction false} ReadOwner(sp: Spaces, x: Id, p: Page) returns (a: Id)
    requires ReadPage(sp, x, p).Some?
    ensures UpTo(sp, a, x) && Owns(sp, a, p, ReadPage(sp, x, p).value)
    decreases x
  {
    a := x;
    if sp[x].Fork? && p !in sp[x].own {
      a := ReadOwner(sp, sp[x].parent, p);
    }
  }

  /** A VM without children is in no other VM's chain. */
  lemma {:induction false} ChildlessIsAlone(sp: Spaces, o: Id, x: Id)
    requires Childless(sp, o) && UpTo(sp, o, x)
    ensures x == o
    decreases x
  {
    if x != o { ChildlessIsAlone(sp, o, sp[x].parent); }
  }

  /** `sp'` has every VM of `sp`, with the same links and own pages. */
  ghost predicate Extends(sp: Spaces, sp': Spaces) {
    forall x :: x in sp ==> x in sp' && sp'[x].own == sp[x].own && SameLinks(sp[x], sp'[x])
  }

  predicate SameLinks(s: Space, s': Space) {
    (s.Root? && s'.Root? && s.size == s'.size) || (s.Fork? && s'.Fork? && s.parent == s'.parent)
  }

  lemma {:induction false} ReadExtends(sp: Spaces, sp': Spaces, x: Id, p: Page)
    requires Linked(sp) && Extends(sp, sp') && x in sp
    ensures ReadPage(sp', x, p) == ReadPage(sp, x, p)
    decreases x
  {
    if sp[x].Fork? { ReadExtends(sp, sp', sp[x].parent, p); }
  }

  lemma {:induction false} UpToExtends(sp: Spaces, sp': Spaces, a: Id, x: Id)
    requires Linked(sp) && Extends(sp, sp') && x in sp
    ensures UpTo(sp', a, x) <==> UpTo(sp, a, x)
    decreases x
  {
    if sp[x].Fork? { UpToExtends(sp, sp', a, sp[x].parent); }
  }

  /** A mapping that was backed stays backed. */
  lemma BackedExtends(sp: Spaces, sp': Spaces, x: Id, p: Page)
    requires Linked(sp) && Extends(sp, sp') && Maps(sp, x, p) && Maps(sp', x, p) && BackedAt(sp, x, p)
    requires sp'[x].ept[p].frame == sp[x].ept[p].frame
    ensures BackedAt(sp', x, p)
  {
    var a :| UpTo(sp, a, x) && Owns(sp, a, p, sp[x].ept[p].frame);
    UpToExtends(sp, sp', a, x);
    UpToMember(sp, a, x);
    assert Owns(sp', a, p, sp'[x].ept[p].frame);
  }

  lemma {:induction false} UpToMember(sp: Spaces, a: Id, x: Id)
    requires UpTo(sp, a, x)
    ensures a in sp
    decreases x
  {
    if a != x { UpToMember(sp, a, sp[x].parent); }
  }

  // A new root

  ghost predicate RootStep(m: Mem, step: Step) { step.NewRoot? && Enabled(m, step) }

  lemma RootOwns(m: Mem, step: Step, a: Id, p: Page, f: Frame)
    requires RootStep(m, step) && Held(m) && Owns(Apply(m, step).spaces, a, p, f)
    ensures if a == step.id then p in step.backing && f == step.backing[p] &&
      f !in m.data else Owns(m.spaces, a, p, f) && f in m.data
  {
    if a != step.id { assert Owns(m.spaces, a, p, f); }
  }

  lemma RootExclusive(m: Mem, step: Step)
    requires RootStep(m, step) && Held(m) && Exclusive(m.spaces)
    ensures Exclusive(Apply(m, step).spaces)
  {
    var sp' := Apply(m, step).spaces;
    forall a, p, b, q, f | Owns(sp', a, p, f) && Owns(sp', b, q, f) ensures a == b && p == q {
      RootOwns(m, step, a, p, f);
      RootOwns(m, step, b, q, f);
    }
  }

  lemma RootHeld(m: Mem, step: Step)
    requires RootStep(m, step) && Held(m)
    ensures Held(Apply(m, step))
  {
    forall a, p, f | Owns(Apply(m, step).spaces, a, p, f) ensures f in Apply(m, step).data {
      RootOwns(m, step, a, p, f);
      assert a == step.id ==> f in step.backing.Values;
    }
  }

  lemma RootBacked(m: Mem, step: Step)
    requires RootStep(m, step) && Linked(m.spaces) && Backed(m.spaces)
    ensures Backed(Apply(m, step).spaces)
  {
    var sp' := Apply(m, step).spaces;
    forall x, p | Maps(sp', x, p) ensures BackedAt(sp', x, p) {
      if x == step.id {
        assert UpTo(sp', x, x) && Owns(sp', x, p, sp'[x].ept[p].frame);
      } else {
        assert Maps(m.spaces, x, p);
        BackedExtends(m.spaces, sp', x, p);
      }
    }
  }

  lemma RootCopies(m: Mem, step: Step)
    requires RootStep(m, step) && Linked(m.spaces) && CopiesReadable(m.spaces)
    ensures CopiesReadable(Apply(m, step).spaces)
  {
    var sp' := Apply(m, step).spaces;
    forall x, p | x in sp' && sp'[x].Fork? && p in sp'[x].own ensures ReadPage(sp', sp'[x].parent, p).Some? {
      ReadExtends(m.spaces, sp', sp'[x].parent, p);
    }
  }

  lemma RootShape(m: Mem, step: Step)
    requires RootStep(m, step) && Shape(m.spaces) && Held(m)
    ensures Shape(Apply(m, step).spaces)
  {
    RootExclusive(m, step);
    RootBacked(m, step);
    RootCopies(m, step);
  }

  /** Frames known before keep their bytes. */
  lemma RootBytes(m: Mem, step: Step, f: Frame)
    requires RootStep(m, step) && f in m.data
    ensures f in Apply(m, step).data && Apply(m, step).data[f] == m.data[f]
  {
    assert forall p :: p in step.backing ==> step.backing[p] != f;
  }

  // A step that leaves links, own pages and bytes alone, or adds a VM

  /** Views of a VM whose EPT frames, chain and bytes did not change. */
  ghost predicate SameViews(m: Mem, m': Mem, x: Id, p: Page) {
    View(m', x, p) == View(m, x, p) && SlowView(m', x, p) == SlowView(m, x, p)
  }

  lemma ViewsExtend(m: Mem, m': Mem, x: Id, p: Page)
    requires Linked(m.spaces) && Held(m) && Backed(m.spaces) && Extends(m.spaces, m'.spaces) && x in m.spaces
    requires forall f :: f in m.data ==> f in m'.data && m'.data[f] == m.data[f]
    requires Maps(m'.spaces, x, p) <==> Maps(m.spaces, x, p)
    requires Maps(m.spaces, x, p) ==> m'.spaces[x].ept[p].frame == m.spaces[x].ept[p].frame
    ensures SameViews(m, m', x, p) && ReadPage(m'.spaces, x, p) == ReadPage(m.spaces, x, p)
  {
    ReadExtends(m.spaces, m'.spaces, x, p);
    if ReadPage(m.spaces, x, p).Some? {
      var a := ReadOwner(m.spaces, x, p);
      assert Owns(m.spaces, a, p, ReadPage(m.spaces, x, p).value);
    }
    if Maps(m.spaces, x, p) {
      assert BackedAt(m.spaces, x, p);
      var a :| UpTo(m.spaces, a, x) && Owns(m.spaces, a, p, m.spaces[x].ept[p].frame);
    }
  }

  lemma RootAgrees(m: Mem, step: Step)
    requires RootStep(m, step) && Inv(m)
    ensures Agrees(Apply(m, step))
  {
    var m' := Apply(m, step);
    forall f | f in m.data ensures f in m'.data && m'.data[f] == m.data[f] { RootBytes(m, step, f); }
    forall x, p | Maps(m'.spaces, x, p) ensures AgreesAt(m', x, p) {
      if x != step.id {
        assert Maps(m.spaces, x, p) && AgreesAt(m, x, p);
        ViewsExtend(m, m', x, p);
      }
    }
  }

  lemma RootKeeps(m: Mem, step: Step)
    requires RootStep(m, step) && Inv(m)
    ensures Inv(Apply(m, step))
  {
    RootShape(m, step);
    RootHeld(m, step);
    RootAgrees(m, step);
  }

  // A fork

  ghost predicate ForkStep(m: Mem, step: Step) { step.ForkVm? && Enabled(m, step) }

  lemma ForkOwns(m: Mem, step: Step, a: Id, p: Page, f: Frame)
    requires ForkStep(m, step)
    ensures Owns(Apply(m, step).spaces, a, p, f) <==> Owns(m.spaces, a, p, f)
  {}

  lemma ForkBacked(m: Mem, step: Step)
    requires ForkStep(m, step) && Linked(m.spaces) && Backed(m.spaces)
    ensures Backed(Apply(m, step).spaces)
  {
    var sp' := Apply(m, step).spaces;
    forall x, p | Maps(sp', x, p) ensures BackedAt(sp', x, p) {
      if x == step.id {
        assert Maps(m.spaces, step.from, p);
        BackedExtends(m.spaces, sp', step.from, p);
        var a :| UpTo(sp', a, step.from) && Owns(sp', a, p, sp'[step.from].ept[p].frame);
        assert UpTo(sp', a, x) && Owns(sp', a, p, sp'[x].ept[p].frame);
      } else {
        assert Maps(m.spaces, x, p);
        BackedExtends(m.spaces, sp', x, p);
      }
    }
  }

  lemma ForkCopies(m: Mem, step: Step)
    requires ForkStep(m, step) && Linked(m.spaces) && CopiesReadable(m.spaces)
    ensures CopiesReadable(Apply(m, step).spaces)
  {
    var sp' := Apply(m, step).spaces;
    forall x, p | x in sp' && sp'[x].Fork? && p in sp'[x].own ensures ReadPage(sp', sp'[x].parent, p).Some? {
      ReadExtends(m.spaces, sp', sp'[x].parent, p);
    }
  }

  lemma ForkShape(m: Mem, step: Step)
    requires ForkStep(m, step) && Shape(m.spaces)
    ensures Shape(Apply(m, step).spaces)
  {
    var sp' := Apply(m, step).spaces;
    forall a, p, b, q, f | Owns(sp', a, p, f) && Owns(sp', b, q, f) ensures a == b && p == q {
      ForkOwns(m, step, a, p, f);
      ForkOwns(m, step, b, q, f);
    }
    ForkBacked(m, step);
    ForkCopies(m, step);
  }

  /** A fork sees, by either route, exactly what its parent sees; nobody else's view moves. */
  lemma ForkViews(m: Mem, step: Step, x: Id, p: Page)
    requires ForkStep(m, step) && Inv(m)
    ensures x != step.id ==> SameViews(m, Apply(m, step), x, p)
    ensures View(Apply(m, step), step.id, p) == View(m, step.from, p)
    ensures SlowView(Apply(m, step), step.id, p) == SlowView(m, step.from, p)
    ensures ReadPage(Apply(m, step).spaces, step.id, p) == ReadPage(m.spaces, step.from, p)
  {
    var m' := Apply(m, step);
    if x in m.spaces { ViewsExtend(m, m', x, p); }
    ViewsExtend(m, m', step.from, p);
    assert ReadPage(m'.spaces, step.id, p) == ReadPage(m'.spaces, step.from, p);
  }

  lemma ForkKeeps(m: Mem, step: Step)
    requires ForkStep(m, step) && Inv(m)
    ensures Inv(Apply(m, step))
  {
    var m' := Apply(m, step);
    ForkShape(m, step);
    forall a, p, f | Owns(m'.spaces, a, p, f) ensures f in m'.data { ForkOwns(m, step, a, p, f); }
    forall x, p | Maps(m'.spaces, x, p) ensures AgreesAt(m', x, p) {
      ForkViews(m, step, x, p);
      if x == step.id {
        assert Maps(m.spaces, step.from, p) && AgreesAt(m, step.from, p);
      } else {
        assert Maps(m.spaces, x, p) && AgreesAt(m, x, p);
        ViewsExtend(m, m', x, p);
      }
    }
  }

  // A copy

  ghost predicate CowStep(m: Mem, step: Step) { step.Cow? && Enabled(m, step) }

  lemma CowOwns(m: Mem, step: Step, a: Id, p: Page, f: Frame)
    requires CowStep(m, step)
    ensures Owns(Apply(m, step).spaces, a, p, f) <==>
      if a == step.id && p == step.page then f == step.frame else Owns(m.spaces, a, p, f)
  {}

  lemma {:induction false} CowUpTo(m: Mem, step: Step, a: Id, x: Id)
    requires CowStep(m, step)
    ensures UpTo(Apply(m, step).spaces, a, x) <==> UpTo(m.spaces, a, x)
    decreases x
  {
    if x in m.spaces && m.spaces[x].Fork? && m.spaces[x].parent < x { CowUpTo(m, step, a, m.spaces[x].parent); }
  }

  /** The slow rule gives the same frame, or the copy where it gave the frame the copy was made from. */
  lemma {:induction false} CowReads(m: Mem, step: Step, x: Id, p: Page)
    requires CowStep(m, step) && Linked(m.spaces)
    ensures var r, r' := ReadPage(m.spaces, x, p), ReadPage(Apply(m, step).spaces, x, p);
      r' == r || (p == step.page && r' == Some(step.frame) && r == ReadPage(m.spaces, m.spaces[step.id].parent, p))
    decreases x
  {
    if x in m.spaces && m.spaces[x].Fork? { CowReads(m, step, m.spaces[x].parent, p); }
  }

  lemma CowExclusive(m: Mem, step: Step)
    requires CowStep(m, step) && Held(m) && Exclusive(m.spaces)
    ensures Exclusive(Apply(m, step).spaces)
  {
    var sp' := Apply(m, step).spaces;
    forall a, p, b, q, f | Owns(sp', a, p, f) && Owns(sp', b, q, f) ensures a == b && p == q {
      CowOwns(m, step, a, p, f);
      CowOwns(m, step, b, q, f);
    }
  }

  lemma CowBacked(m: Mem, step: Step)
    requires CowStep(m, step) && Backed(m.spaces)
    ensures Backed(Apply(m, step).spaces)
  {
    var sp' := Apply(m, step).spaces;
    forall x, p | Maps(sp', x, p) ensures BackedAt(sp', x, p) {
      assert Maps(m.spaces, x, p) && BackedAt(m.spaces, x, p);
      if x == step.id && p == step.page {
        assert UpTo(sp', x, x) && Owns(sp', x, p, sp'[x].ept[p].frame);
      } else {
        var a :| UpTo(m.spaces, a, x) && Owns(m.spaces, a, p, m.spaces[x].ept[p].frame);
        CowUpTo(m, step, a, x);
        CowOwns(m, step, a, p, m.spaces[x].ept[p].frame);
        assert UpTo(sp', a, x) && Owns(sp', a, p, sp'[x].ept[p].frame);
      }
    }
  }

  lemma CowCopies(m: Mem, step: Step)
    requires CowStep(m, step) && Linked(m.spaces) && CopiesReadable(m.spaces)
    ensures CopiesReadable(Apply(m, step).spaces)
  {
    var sp' := Apply(m, step).spaces;
    forall x, p | x in sp' && sp'[x].Fork? && p in sp'[x].own ensures ReadPage(sp', sp'[x].parent, p).Some? {
      CowReads(m, step, sp'[x].parent, p);
    }
  }

  lemma CowShape(m: Mem, step: Step)
    requires CowStep(m, step) && Shape(m.spaces) && Held(m)
    ensures Shape(Apply(m, step).spaces)
  {
    CowExclusive(m, step);
    CowBacked(m, step);
    CowCopies(m, step);
  }

  /** A copy changes no VM's view of any page, by either route: not the copying VM's, and not its
      descendants', whose chain now ends at the copy. */
  lemma CowIsInvisible(m: Mem, step: Step, x: Id, p: Page)
    requires CowStep(m, step) && Inv(m)
    ensures SameViews(m, Apply(m, step), x, p)
  {
    var m' := Apply(m, step);
    CowReads(m, step, x, p);
    if ReadPage(m.spaces, x, p).Some? {
      var a := ReadOwner(m.spaces, x, p);
      assert Owns(m.spaces, a, p, ReadPage(m.spaces, x, p).value);
    }
    if Maps(m.spaces, x, p) {
      assert BackedAt(m.spaces, x, p);
      var a :| UpTo(m.spaces, a, x) && Owns(m.spaces, a, p, m.spaces[x].ept[p].frame);
      if x == step.id && p == step.page {
        assert AgreesAt(m, x, p);
      }
    }
  }

  lemma CowKeeps(m: Mem, step: Step)
    requires CowStep(m, step) && Inv(m)
    ensures Inv(Apply(m, step))
  {
    var m' := Apply(m, step);
    CowShape(m, step);
    forall a, p, f | Owns(m'.spaces, a, p, f) ensures f in m'.data { CowOwns(m, step, a, p, f); }
    forall x, p | Maps(m'.spaces, x, p) ensures AgreesAt(m', x, p) {
      assert Maps(m.spaces, x, p) && AgreesAt(m, x, p);
      CowIsInvisible(m, step, x, p);
      CowReads(m, step, x, p);
    }
  }

  // Taking write permission away

  ghost predicate ProtectStep(m: Mem, step: Step) { step.Protect? && Enabled(m, step) }

  lemma ProtectIsInvisible(m: Mem, step: Step, x: Id, p: Page)
    requires ProtectStep(m, step) && Inv(m)
    ensures SameViews(m, Apply(m, step), x, p) && ReadPage(Apply(m, step).spaces, x, p) == ReadPage(m.spaces, x, p)
  {
    if x in m.spaces { ViewsExtend(m, Apply(m, step), x, p); }
  }

  lemma ProtectBacked(m: Mem, step: Step)
    requires ProtectStep(m, step) && Linked(m.spaces) && Backed(m.spaces)
    ensures Backed(Apply(m, step).spaces)
  {
    var sp' := Apply(m, step).spaces;
    forall x, p | Maps(sp', x, p) ensures BackedAt(sp', x, p) {
      assert Maps(m.spaces, x, p);
      BackedExtends(m.spaces, sp', x, p);
    }
  }

  lemma ProtectCopies(m: Mem, step: Step)
    requires ProtectStep(m, step) && Linked(m.spaces) && CopiesReadable(m.spaces)
    ensures CopiesReadable(Apply(m, step).spaces)
  {
    var sp' := Apply(m, step).spaces;
    forall x, p | x in sp' && sp'[x].Fork? && p in sp'[x].own ensures ReadPage(sp', sp'[x].parent, p).Some? {
      ReadExtends(m.spaces, sp', sp'[x].parent, p);
    }
  }

  lemma ProtectRest(m: Mem, step: Step)
    requires ProtectStep(m, step) && Linked(m.spaces) && Exclusive(m.spaces) && RootsWhole(m.spaces)
    ensures Linked(Apply(m, step).spaces) && Exclusive(Apply(m, step).spaces) && RootsWhole(Apply(m, step).spaces)
  {
    assert forall a, p, f :: Owns(Apply(m, step).spaces, a, p, f) <==> Owns(m.spaces, a, p, f);
  }

  lemma ProtectOwn(m: Mem, step: Step)
    requires ProtectStep(m, step) && OwnFirst(m.spaces) && WritableOwned(m.spaces)
    ensures OwnFirst(Apply(m, step).spaces) && WritableOwned(Apply(m, step).spaces)
  {
    assert forall x, p :: Maps(Apply(m, step).spaces, x, p) ==> Maps(m.spaces, x, p);
  }

  lemma ProtectShape(m: Mem, step: Step)
    requires ProtectStep(m, step) && Shape(m.spaces)
    ensures Shape(Apply(m, step).spaces)
  {
    ProtectBacked(m, step);
    ProtectCopies(m, step);
    ProtectRest(m, step);
    ProtectOwn(m, step);
  }

  lemma ProtectKeeps(m: Mem, step: Step)
    requires ProtectStep(m, step) && Inv(m)
    ensures Inv(Apply(m, step))
  {
    var m' := Apply(m, step);
    ProtectShape(m, step);
    assert forall a, p, f :: Owns(m'.spaces, a, p, f) <==> Owns(m.spaces, a, p, f);
    forall x, p | Maps(m'.spaces, x, p) ensures AgreesAt(m', x, p) {
      assert Maps(m.spaces, x, p) && AgreesAt(m, x, p);
      ProtectIsInvisible(m, step, x, p);
    }
  }

  // A write

  predicate IsWrite(step: Step) { step.GuestWrite? || step.HostWrite? }

  ghost predicate WriteStep(m: Mem, step: Step) { IsWrite(step) && Enabled(m, step) }

  /** Either kind of write lands in the VM's own page. */
  lemma WriteLandsInOwn(m: Mem, step: Step)
    requires WriteStep(m, step) && Shape(m.spaces)
    ensures step.page in m.spaces[step.id].own
    ensures Apply(m, step) == m.(data := m.data[m.spaces[step.id].own[step.page] := step.bytes])
  {
    if step.GuestWrite? { assert Maps(m.spaces, step.id, step.page); }
  }

  /** A write changes no other page of its VM and no page of any other VM, by either route; on its own
      page the EPT shows the bytes written. */
  lemma WriteIsLocal(m: Mem, step: Step, x: Id, p: Page)
    requires WriteStep(m, step) && Inv(m)
    ensures !(x == step.id && p == step.page) ==> SameViews(m, Apply(m, step), x, p)
    ensures Maps(m.spaces, step.id, step.page) ==> View(Apply(m, step), step.id, step.page) == Some(step.bytes)
    ensures ReadPage(m.spaces, step.id, step.page).Some? ==>
      SlowView(Apply(m, step), step.id, step.page) == Some(step.bytes)
  {
    WriteLandsInOwn(m, step);
    var g := m.spaces[step.id].own[step.page];
    assert Owns(m.spaces, step.id, step.page, g);
    if Maps(m.spaces, x, p) && m.spaces[x].ept[p].frame == g {
      assert BackedAt(m.spaces, x, p);
      var a :| UpTo(m.spaces, a, x) && Owns(m.spaces, a, p, g);
      ChildlessIsAlone(m.spaces, step.id, x);
    }
    if ReadPage(m.spaces, x, p) == Some(g) {
      var a := ReadOwner(m.spaces, x, p);
      ChildlessIsAlone(m.spaces, step.id, x);
    }
    if Maps(m.spaces, step.id, step.page) {
      assert m.spaces[step.id].ept[step.page].frame == g;
    }
  }

  lemma WriteKeeps(m: Mem, step: Step)
    requires WriteStep(m, step) && Inv(m)
    ensures Inv(Apply(m, step))
  {
    var m' := Apply(m, step);
    WriteLandsInOwn(m, step);
    assert m'.spaces == m.spaces;
    forall x, p | Maps(m'.spaces, x, p) ensures AgreesAt(m', x, p) {
      assert AgreesAt(m, x, p);
      WriteIsLocal(m, step, x, p);
    }
  }

  // Dropping a VM

  ghost predicate DropStep(m: Mem, step: Step) { step.Drop? && Enabled(m, step) }

  lemma DropLinked(m: Mem, step: Step)
    requires DropStep(m, step) && Linked(m.spaces)
    ensures Linked(Apply(m, step).spaces) && Extends(Apply(m, step).spaces, m.spaces)
  {}

  /** No survivor maps or reads a frame that goes. */
  lemma SurvivorFrame(m: Mem, step: Step, a: Id, x: Id, p: Page, f: Frame)
    requires DropStep(m, step) && Inv(m) && x != step.id && UpTo(m.spaces, a, x) && Owns(m.spaces, a, p, f)
    ensures f in Apply(m, step).data && Apply(m, step).data[f] == m.data[f] && Owns(Apply(m, step).spaces, a, p, f)
  {
    if a == step.id {
      ChildlessIsAlone(m.spaces, a, x);
      assert false;
    }
    forall q | q in m.spaces[step.id].own ensures m.spaces[step.id].own[q] != f {
      assert Owns(m.spaces, step.id, q, m.spaces[step.id].own[q]);
    }
  }

  lemma DropViews(m: Mem, step: Step, x: Id, p: Page)
    requires DropStep(m, step) && Inv(m) && x != step.id
    ensures SameViews(m, Apply(m, step), x, p) && ReadPage(Apply(m, step).spaces, x, p) == ReadPage(m.spaces, x, p)
  {
    var m' := Apply(m, step);
    DropLinked(m, step);
    if x in m'.spaces { ReadExtends(m'.spaces, m.spaces, x, p); }
    if ReadPage(m.spaces, x, p).Some? {
      var a := ReadOwner(m.spaces, x, p);
      SurvivorFrame(m, step, a, x, p, ReadPage(m.spaces, x, p).value);
    }
    if Maps(m.spaces, x, p) {
      assert BackedAt(m.spaces, x, p);
      var a :| UpTo(m.spaces, a, x) && Owns(m.spaces, a, p, m.spaces[x].ept[p].frame);
      SurvivorFrame(m, step, a, x, p, m.spaces[x].ept[p].frame);
    }
  }

  lemma DropBacked(m: Mem, step: Step)
    requires DropStep(m, step) && Inv(m)
    ensures Backed(Apply(m, step).spaces)
  {
    var sp' := Apply(m, step).spaces;
    DropLinked(m, step);
    forall x, p | Maps(sp', x, p) ensures BackedAt(sp', x, p) {
      assert Maps(m.spaces, x, p) && BackedAt(m.spaces, x, p);
      var a :| UpTo(m.spaces, a, x) && Owns(m.spaces, a, p, m.spaces[x].ept[p].frame);
      SurvivorFrame(m, step, a, x, p, m.spaces[x].ept[p].frame);
      UpToExtends(sp', m.spaces, a, x);
      assert UpTo(sp', a, x) && Owns(sp', a, p, sp'[x].ept[p].frame);
    }
  }

  lemma DropCopies(m: Mem, step: Step)
    requires DropStep(m, step) && Linked(m.spaces) && CopiesReadable(m.spaces)
    ensures CopiesReadable(Apply(m, step).spaces)
  {
    var sp' := Apply(m, step).spaces;
    DropLinked(m, step);
    forall x, p | x in sp' && sp'[x].Fork? && p in sp'[x].own ensures ReadPage(sp', sp'[x].parent, p).Some? {
      ReadExtends(sp', m.spaces, sp'[x].parent, p);
    }
  }

  lemma DropHeld(m: Mem, step: Step)
    requires DropStep(m, step) && Held(m) && Exclusive(m.spaces)
    ensures Held(Apply(m, step)) && Exclusive(Apply(m, step).spaces)
  {
    var m' := Apply(m, step);
    forall a, p, f | Owns(m'.spaces, a, p, f) ensures f in m'.data && Owns(m.spaces, a, p, f) {
      assert Owns(m.spaces, a, p, f);
      forall q | q in m.spaces[step.id].own ensures m.spaces[step.id].own[q] != f {
        assert Owns(m.spaces, step.id, q, m.spaces[step.id].own[q]);
      }
    }
  }

  lemma DropKeeps(m: Mem, step: Step)
    requires DropStep(m, step) && Inv(m)
    ensures Inv(Apply(m, step))
  {
    var m' := Apply(m, step);
    DropLinked(m, step);
    DropHeld(m, step);
    DropBacked(m, step);
    DropCopies(m, step);
    assert forall x, p :: Maps(m'.spaces, x, p) ==> Maps(m.spaces, x, p);
    forall x, p | Maps(m'.spaces, x, p) ensures AgreesAt(m', x, p) {
      assert AgreesAt(m, x, p);
      DropViews(m, step, x, p);
    }
  }
}
