/** `clone_for_fork`: the clone maps every page the source maps, to the same host frame, read-execute
    only, and nothing else; it shares no frame with the source and has as many; the source is left as
    it was, whether or not the clone succeeds. */
module EptClone {
  import opened EptTable
  import opened EptTree
  import opened EptMap
  import opened Counting
  import opened Options

  /** The clone in progress: where each new frame hangs and which source frame it copies. */
  datatype Copy<F(==)> = Copy(root: F, ns: Nodes<F>, of: map<F, F>)

  /** New frame `f` hangs in the clone as the frame it copies hangs in the source. */
  ghost predicate Mirrors<F>(mem: Memory<F>, sn: Nodes<F>, c: Copy<F>, f: F)
    requires f in c.ns
  {
    && f in c.of && c.of[f] in sn && f !in sn && f in mem && |mem[f]| == 512
    && sn[c.of[f]].level == c.ns[f].level > 0
    && (f != c.root ==>
          && HangsFromParent(mem, c.ns, f) && c.ns[f].parent in c.of
          && sn[c.of[f]] == Node(c.ns[f].level, c.of[c.ns[f].parent], c.ns[f].index))
  }

  ghost predicate CopyOk<F(!new)>(mem: Memory<F>, sn: Nodes<F>, c: Copy<F>) {
    && c.root in c.ns && c.ns[c.root].level == 4
    && forall f :: f in c.ns ==> Mirrors(mem, sn, c, f)
  }

  /** Slot `j` of new frame `f` is a finished copy. */
  ghost predicate SlotDone<F>(mem: Memory<F>, c: Copy<F>, f: F, j: nat)
    requires f in c.ns && f in c.of
  {
    var e := Slot(mem, f, j);
    match Slot(mem, c.of[f], j)
    case Absent => e == Absent
    case Present(o, perms) =>
      if c.ns[f].level == 1 then e == Present(o, READ_EXECUTE)
      else
        && e.Present? && e.perms == perms && e.frame in c.of && c.of[e.frame] == o
        && e.frame in c.ns && c.ns[e.frame].level + 1 == c.ns[f].level && c.ns[e.frame].parent == f &&
          c.ns[e.frame].index == j
  }

  ghost predicate Done<F>(mem: Memory<F>, c: Copy<F>, f: F)
    requires f in c.ns && f in c.of
  {
    forall j: nat :: j < 512 ==> SlotDone(mem, c, f, j)
  }

  /** Everything that holds whenever the clone is between two steps. */
  ghost predicate Between<F(!new)>(ph: Phys<F>, frames: seq<F>, sroot: F, sn: Nodes<F>, c: Copy<F>) {
    && Tree(ph.mem, sroot, sn) && CopyOk(ph.mem, sn, c) && PoolOk(ph)
    && (forall f :: f in ph.free ==> f !in sn && f !in c.ns)
    && NoDup(frames) && (forall f :: f in frames <==> f in c.ns)
  }

  ghost predicate Extends<F>(c: Copy<F>, c': Copy<F>) {
    c'.root == c.root && forall f :: f in c.ns ==>
      f in c'.ns && c'.ns[f] == c.ns[f] && f in c.of && f in c'.of && c'.of[f] == c.of[f]
  }

  /** Only `d` and frames that were free have been written. */
  ghost predicate WroteOnly<F>(ph: Phys<F>, d: F, ph': Phys<F>) {
    && ph'.mem.Keys == ph.mem.Keys
    && (forall f :: f in ph.mem && f != d && f !in ph.free ==> ph'.mem[f] == ph.mem[f])
    && forall f :: f in ph'.free ==> f in ph.free
  }

  // Single steps

  lemma StepLeaf<F(!new)>(ph: Phys<F>, frames: seq<F>, sroot: F, sn: Nodes<F>, c: Copy<F>, d: F, i: nat, h: F)
    requires Between(ph, frames, sroot, sn, c) && d in c.ns && c.ns[d].level == 1 && i < 512
    ensures Between(Phys(Write(ph.mem, d, i, Present(h, READ_EXECUTE)), ph.free), frames, sroot, sn, c)
  {
    var mem' := Write(ph.mem, d, i, Present(h, READ_EXECUTE));
    assert Mirrors(ph.mem, sn, c, d);
    TreeReadsOnlyTree(ph.mem, mem', sroot, sn);
    forall f | f in c.ns ensures Mirrors(mem', sn, c, f) {
      assert Mirrors(ph.mem, sn, c, f);
    }
  }

  ghost function Linked<F>(c: Copy<F>, d: F, i: nat, n: F, o: F): Copy<F>
    requires d in c.ns && c.ns[d].level > 1
  {
    Copy(c.root, LinkedNodes(c.ns, d, i, n), c.of[n := o])
  }

  lemma LinkMirrors<F(!new)>(ph: Phys<F>, frames: seq<F>, sroot: F, sn: Nodes<F>, c: Copy<F>, d: F, i: nat, n: F, f: F)
    requires Between(ph, frames, sroot, sn, c) && d in c.ns && d in c.of && c.ns[d].level > 1 && i < 512
    requires Slot(ph.mem, c.of[d], i).Present? && Slot(ph.mem, d, i).Absent? && n in ph.free
    ensures var o := Slot(ph.mem, c.of[d], i); var c' := Linked(c, d, i, n, o.frame);
      f in c'.ns ==> Mirrors(LinkedMem(ph.mem, d, i, n, o.perms), sn, c', f)
  {
    assert Mirrors(ph.mem, sn, c, d);
    assert EntryHangs(ph.mem, sn, c.of[d], i);
    if f in c.ns {
      assert Mirrors(ph.mem, sn, c, f);
    }
  }

  lemma StepLink<F(!new)>(ph: Phys<F>, frames: seq<F>, sroot: F, sn: Nodes<F>, c: Copy<F>, d: F, i: nat)
    requires Between(ph, frames, sroot, sn, c) && d in c.ns && d in c.of && c.ns[d].level > 1 && i < 512
    requires Slot(ph.mem, c.of[d], i).Present? && Slot(ph.mem, d, i).Absent? && ph.free != []
    ensures var n, o := ph.free[0], Slot(ph.mem, c.of[d], i);
      Between(Phys(LinkedMem(ph.mem, d, i, n, o.perms), ph.free[1..]),
        frames + [n], sroot, sn, Linked(c, d, i, n, o.frame))
  {
    var n, o := ph.free[0], Slot(ph.mem, c.of[d], i);
    assert n in ph.free;
    var mem' := LinkedMem(ph.mem, d, i, n, o.perms);
    var c' := Linked(c, d, i, n, o.frame);
    assert Mirrors(ph.mem, sn, c, d);
    assert EntryHangs(ph.mem, sn, c.of[d], i);
    TreeReadsOnlyTree(ph.mem, mem', sroot, sn);
    forall f | f in c'.ns ensures Mirrors(mem', sn, c', f) {
      LinkMirrors(ph, frames, sroot, sn, c, d, i, n, f);
    }
  }

  // Whole tables

  /** A finished slot stays finished while its frame and its original are not written. */
  lemma DonePersists<F(!new)>(mem: Memory<F>, c: Copy<F>, mem': Memory<F>, c': Copy<F>, f: F, j: nat)
    requires f in c.ns && f in c.of && Extends(c, c') && SlotDone(mem, c, f, j)
    requires Slot(mem', f, j) == Slot(mem, f, j) && Slot(mem', c.of[f], j) == Slot(mem, c.of[f], j)
    ensures SlotDone(mem', c', f, j)
  {}

  /** Slots below `i` of `d` are finished and the rest untouched. */
  ghost predicate Partial<F>(mem: Memory<F>, c: Copy<F>, d: F, i: nat)
    requires d in c.ns && d in c.of
  {
    && (forall j: nat :: j < i ==> SlotDone(mem, c, d, j))
    && forall j: nat :: i <= j < 512 ==> Slot(mem, d, j) == Absent
  }

  /** The frames `c'` adds to `c` came from the free list and are finished. */
  ghost predicate NewDone<F>(c: Copy<F>, mem': Memory<F>, c': Copy<F>, free: seq<F>) {
    forall f :: f in c'.ns && f !in c.ns ==> f in c'.of && f in free && Done(mem', c', f)
  }

  /** What `CloneSlots` from slot `i` of `d` promises: the frames it added and `d` itself are finished. */
  ghost predicate Finished<F(!new)>(ph: Phys<F>, sroot: F, sn: Nodes<F>, c: Copy<F>, d: F, r: Cloned<F>, c': Copy<F>) {
    && Between(r.ph, r.frames, sroot, sn, c') && Extends(c, c') && WroteOnly(ph, d, r.ph)
    && NewDone(c, r.ph.mem, c', ph.free)
    && d in c'.ns && d in c'.of && Done(r.ph.mem, c', d)
  }

  ghost predicate NotCopied<F(!new)>(c: Copy<F>, x: F) {
    forall f :: f in c.ns && f in c.of ==> c.of[f] != x
  }

  /** A failed `CloneSlots`: the pool is empty and some source frame still has no copy. */
  ghost predicate Stuck<F(!new)>(sroot: F, sn: Nodes<F>, r: Cloned<F>, c': Copy<F>) {
    && Between(r.ph, r.frames, sroot, sn, c') && r.ph.free == []
    && exists x :: x in Attached(sn) && NotCopied(c', x)
  }

  /** A source table is not copied before the entry it hangs from is. */
  lemma UnlinkedNotCopied<F(!new)>(mem: Memory<F>, sroot: F, sn: Nodes<F>, c: Copy<F>, d: F, i: nat)
    requires Tree(mem, sroot, sn) && CopyOk(mem, sn, c)
    requires d in c.ns && d in c.of && c.ns[d].level > 1 && i < 512
    requires Slot(mem, c.of[d], i).Present? && Slot(mem, d, i).Absent?
    ensures Slot(mem, c.of[d], i).frame in Attached(sn) && NotCopied(c, Slot(mem, c.of[d], i).frame)
  {
    var x := Slot(mem, c.of[d], i).frame;
    assert Mirrors(mem, sn, c, d);
    assert EntryHangs(mem, sn, c.of[d], i);
    forall f | f in c.ns && f in c.of ensures c.of[f] != x {
      assert Mirrors(mem, sn, c, f);
      OnlyRootAtTop(mem, sroot, sn, c, f);
      OnlyRootAtTop(mem, sroot, sn, c, d);
      if c.of[f] == x {
        CopyInjective(mem, sroot, sn, c, c.ns[f].parent, d);
        assert false;
      }
    }
  }

  lemma {:induction false} CloneSlotsFinishes<F(!new)>(ph: Phys<F>, frames: seq<F>, sroot: F, sn: Nodes<F>, c: Copy<F>,
        d: F, level: nat, i: nat)
    returns (c': Copy<F>)
    requires Between(ph, frames, sroot, sn, c)
    requires d in c.ns && d in c.of && c.ns[d].level == level && 1 <= level <= 4 && i <= 512
    requires Partial(ph.mem, c, d, i)
    ensures CloneSlots(ph, frames, c.of[d], d, level, i).ok ==>
      Finished(ph, sroot, sn, c, d, CloneSlots(ph, frames, c.of[d], d, level, i), c')
    ensures !CloneSlots(ph, frames, c.of[d], d, level, i).ok ==>
      Stuck(sroot, sn, CloneSlots(ph, frames, c.of[d], d, level, i), c')
    decreases level, 512 - i
  {
    c' := c;
    assert Mirrors(ph.mem, sn, c, d);
    if i < 512 {
      match Slot(ph.mem, c.of[d], i)
      case Absent =>
        assert SlotDone(ph.mem, c, d, i);
        c' := CloneSlotsFinishes(ph, frames, sroot, sn, c, d, level, i + 1);
      case Present(o, perms) =>
        if level == 1 {
          c' := FinishAfterLeaf(ph, frames, sroot, sn, c, d, i);
        } else if ph.free != [] {
          c' := FinishAfterLink(ph, frames, sroot, sn, c, d, level, i);
        } else {
          UnlinkedNotCopied(ph.mem, sroot, sn, c, d, i);
        }
    }
  }

  // After a leaf

  lemma LeafAdvances<F(!new)>(mem: Memory<F>, c: Copy<F>, d: F, i: nat)
    requires d in c.ns && d in c.of && c.of[d] != d && c.ns[d].level == 1
    requires d in mem && |mem[d]| == 512 && i < 512
    requires Partial(mem, c, d, i) && Slot(mem, c.of[d], i).Present?
    ensures Partial(Write(mem, d, i, Present(Slot(mem, c.of[d], i).frame, READ_EXECUTE)), c, d, i + 1)
  {
    var mem' := Write(mem, d, i, Present(Slot(mem, c.of[d], i).frame, READ_EXECUTE));
    forall j: nat | j < i + 1 ensures SlotDone(mem', c, d, j) {
      assert j < i ==> SlotDone(mem, c, d, j);
    }
    forall j: nat | i + 1 <= j < 512 ensures Slot(mem', d, j) == Absent {
      assert Slot(mem, d, j) == Absent;
    }
  }

  lemma WroteSlotFirst<F(!new)>(ph: Phys<F>, sroot: F, sn: Nodes<F>, c: Copy<F>, d: F, i: nat, e: Entry<F>,
        r: Cloned<F>, c': Copy<F>)
    requires Finished(Phys(Write(ph.mem, d, i, e), ph.free), sroot, sn, c, d, r, c')
    ensures Finished(ph, sroot, sn, c, d, r, c')
  {
    assert WroteOnly(ph, d, r.ph);
  }

  lemma FinishAfterLeaf<F(!new)>(ph: Phys<F>, frames: seq<F>, sroot: F, sn: Nodes<F>, c: Copy<F>, d: F, i: nat)
    returns (c': Copy<F>)
    requires Between(ph, frames, sroot, sn, c)
    requires d in c.ns && d in c.of && c.ns[d].level == 1 && i < 512
    requires Partial(ph.mem, c, d, i) && Slot(ph.mem, c.of[d], i).Present?
    ensures CloneSlots(ph, frames, c.of[d], d, 1, i).ok ==>
      Finished(ph, sroot, sn, c, d, CloneSlots(ph, frames, c.of[d], d, 1, i), c')
    ensures !CloneSlots(ph, frames, c.of[d], d, 1, i).ok ==>
      Stuck(sroot, sn, CloneSlots(ph, frames, c.of[d], d, 1, i), c')
    decreases 1, 512 - i, 0
  {
    var e := Present(Slot(ph.mem, c.of[d], i).frame, READ_EXECUTE);
    var ph1 := Phys(Write(ph.mem, d, i, e), ph.free);
    assert Mirrors(ph.mem, sn, c, d);
    StepLeaf(ph, frames, sroot, sn, c, d, i, e.frame);
    LeafAdvances(ph.mem, c, d, i);
    c' := CloneSlotsFinishes(ph1, frames, sroot, sn, c, d, 1, i + 1);
    var r := CloneSlots(ph1, frames, c.of[d], d, 1, i + 1);
    if r.ok {
      WroteSlotFirst(ph, sroot, sn, c, d, i, e, r, c');
    }
  }

  // After a link

  lemma LinkAdvances<F(!new)>(mem: Memory<F>, c: Copy<F>, d: F, i: nat, mem': Memory<F>, c': Copy<F>)
    requires d in c.ns && d in c.of && d in c'.ns && d in c'.of && i < 512 && Extends(c, c')
    requires Partial(mem, c, d, i) && SlotDone(mem', c', d, i)
    requires forall j: nat :: j != i ==> Slot(mem', d, j) == Slot(mem, d, j)
    requires forall j: nat :: Slot(mem', c.of[d], j) == Slot(mem, c.of[d], j)
    ensures Partial(mem', c', d, i + 1)
  {
    forall j: nat | j < i + 1 ensures SlotDone(mem', c', d, j) {
      if j < i {
        DonePersists(mem, c, mem', c', d, j);
      }
    }
  }

  /** Memory after linking `n` under `d` and copying everything below it, seen from `d`. */
  lemma BelowLeavesParent<F(!new)>(ph: Phys<F>, d: F, s: F, i: nat, n: F, perms: Perms, ph': Phys<F>)
    requires d in ph.mem && |ph.mem[d]| == 512 && i < 512 && s in ph.mem && s != d && perms.Any()
    requires n in ph.mem && n != d && n != s && d !in ph.free && s !in ph.free
    requires WroteOnly(Phys(LinkedMem(ph.mem, d, i, n, perms), ph.free), n, ph')
    ensures forall j: nat :: j != i ==> Slot(ph'.mem, d, j) == Slot(ph.mem, d, j)
    ensures Slot(ph'.mem, d, i) == Present(n, perms)
    ensures forall j: nat :: Slot(ph'.mem, s, j) == Slot(ph.mem, s, j)
  {
    var mem2 := LinkedMem(ph.mem, d, i, n, perms);
    assert ph'.mem[d] == mem2[d] && ph'.mem[s] == mem2[s];
  }

  lemma PartialAfterBelow<F(!new)>(ph: Phys<F>, frames: seq<F>, sroot: F, sn: Nodes<F>, c: Copy<F>, d: F, i: nat,
        below: Cloned<F>, c3: Copy<F>)
    requires Between(ph, frames, sroot, sn, c)
    requires d in c.ns && d in c.of && c.ns[d].level > 1 && i < 512
    requires Partial(ph.mem, c, d, i) && Slot(ph.mem, c.of[d], i).Present? && ph.free != []
    requires var n, o := ph.free[0], Slot(ph.mem, c.of[d], i);
      && Extends(Linked(c, d, i, n, o.frame), c3)
      && WroteOnly(Phys(LinkedMem(ph.mem, d, i, n, o.perms), ph.free[1..]), n, below.ph)
    ensures d in c3.ns && d in c3.of && c3.of[d] == c.of[d] && c3.ns[d] == c.ns[d]
    ensures Partial(below.ph.mem, c3, d, i + 1)
  {
    var n, o := ph.free[0], Slot(ph.mem, c.of[d], i);
    assert n in ph.free;
    assert Mirrors(ph.mem, sn, c, d);
    BelowLeavesParent(Phys(ph.mem, ph.free[1..]), d, c.of[d], i, n, o.perms, below.ph);
    assert Extends(c, c3);
    assert n in Linked(c, d, i, n, o.frame).ns;
    LinkAdvances(ph.mem, c, d, i, below.ph.mem, c3);
  }

  lemma ExtendsTransitive<F(!new)>(c: Copy<F>, d: F, i: nat, n: F, o: F, c3: Copy<F>, c4: Copy<F>)
    requires d in c.ns && c.ns[d].level > 1 && n !in c.ns && (forall f :: f in c.ns ==> f in c.of)
    requires Extends(Linked(c, d, i, n, o), c3) && Extends(c3, c4)
    ensures Extends(c, c4)
  {}

  lemma WroteOnlyTwice<F(!new)>(ph: Phys<F>, d: F, i: nat, perms: Perms, ph3: Phys<F>, ph4: Phys<F>)
    requires ph.free != [] && PoolOk(ph) && d in ph.mem
    requires WroteOnly(Phys(LinkedMem(ph.mem, d, i, ph.free[0], perms), ph.free[1..]), ph.free[0], ph3)
    requires WroteOnly(ph3, d, ph4)
    ensures WroteOnly(ph, d, ph4)
  {
    assert ph.free[0] in ph.free;
  }

  lemma NewDoneTwice<F(!new)>(sn: Nodes<F>, c: Copy<F>, d: F, i: nat, n: F, o: F, ph3: Phys<F>, c3: Copy<F>,
        mem4: Memory<F>, c4: Copy<F>, free: seq<F>)
    requires d in c.ns && c.ns[d].level > 1 && n in free && n in c3.ns && n in c3.of && Done(ph3.mem, c3, n)
    requires NewDone(Linked(c, d, i, n, o), ph3.mem, c3, free) && Extends(c3, c4) && NewDone(c3, mem4, c4, free)
    requires forall f, j: nat :: f in c3.ns && f != d ==> Slot(mem4, f, j) == Slot(ph3.mem, f, j)
    requires forall f, j: nat :: f in sn ==> Slot(mem4, f, j) == Slot(ph3.mem, f, j)
    requires forall f :: f in c3.ns && f in c3.of ==> c3.of[f] in sn
    ensures NewDone(c, mem4, c4, free)
  {
    forall f | f in c4.ns && f !in c.ns ensures f in c4.of && f in free && Done(mem4, c4, f) {
      if f in c3.ns {
        assert Done(ph3.mem, c3, f);
        forall j: nat | j < 512 ensures SlotDone(mem4, c4, f, j) {
          DonePersists(ph3.mem, c3, mem4, c4, f, j);
        }
      }
    }
  }

  lemma FinishedTwice<F(!new)>(ph: Phys<F>, frames: seq<F>, sroot: F, sn: Nodes<F>, c: Copy<F>, d: F, i: nat,
        below: Cloned<F>, c3: Copy<F>, r: Cloned<F>, c4: Copy<F>)
    requires Between(ph, frames, sroot, sn, c)
    requires d in c.ns && d in c.of && c.ns[d].level > 1 && i < 512
    requires Slot(ph.mem, c.of[d], i).Present? && ph.free != []
    requires var n, o := ph.free[0], Slot(ph.mem, c.of[d], i);
      Finished(Phys(LinkedMem(ph.mem, d, i, n, o.perms), ph.free[1..]), sroot, sn, Linked(c, d, i, n, o.frame), n,
        below, c3)
    requires Finished(below.ph, sroot, sn, c3, d, r, c4)
    ensures Finished(ph, sroot, sn, c, d, r, c4)
  {
    var n, o := ph.free[0], Slot(ph.mem, c.of[d], i);
    assert n in ph.free;
    ExtendsFromMirrors(ph.mem, sn, c);
    ExtendsTransitive(c, d, i, n, o.frame, c3, c4);
    assert Mirrors(ph.mem, sn, c, d);
    WroteOnlyTwice(ph, d, i, o.perms, below.ph, r.ph);
    SlotsUntouched(below, sroot, sn, c3, d, r);
    NewDoneTwice(sn, c, d, i, n, o.frame, below.ph, c3, r.ph.mem, c4, ph.free);
  }

  lemma ExtendsFromMirrors<F(!new)>(mem: Memory<F>, sn: Nodes<F>, c: Copy<F>)
    requires CopyOk(mem, sn, c)
    ensures forall f :: f in c.ns ==> f in c.of && c.of[f] in sn && f !in sn && f in mem
  {
    forall f | f in c.ns ensures f in c.of && c.of[f] in sn && f !in sn && f in mem {
      assert Mirrors(mem, sn, c, f);
    }
  }

  lemma SlotsUntouched<F(!new)>(below: Cloned<F>, sroot: F, sn: Nodes<F>, c3: Copy<F>, d: F, r: Cloned<F>)
    requires Between(below.ph, below.frames, sroot, sn, c3) && WroteOnly(below.ph, d, r.ph) && d in c3.ns
    ensures forall f, j: nat :: f in c3.ns && f != d ==> Slot(r.ph.mem, f, j) == Slot(below.ph.mem, f, j)
    ensures forall f, j: nat :: f in sn ==> Slot(r.ph.mem, f, j) == Slot(below.ph.mem, f, j)
    ensures forall f :: f in c3.ns && f in c3.of ==> c3.of[f] in sn
  {
    ExtendsFromMirrors(below.ph.mem, sn, c3);
  }

  /** `CloneSlots` at a present entry above level 1, one step unfolded. */
  lemma CloneSlotsAtLink<F(!new)>(ph: Phys<F>, frames: seq<F>, s: F, d: F, level: nat, i: nat)
    requires 1 < level <= 4 && i < 512 && Slot(ph.mem, s, i).Present? && ph.free != []
    ensures var n, o := ph.free[0], Slot(ph.mem, s, i);
      var below := CloneSlots(Phys(LinkedMem(ph.mem, d, i, n, o.perms), ph.free[1..]),
        frames + [n], o.frame, n, level - 1, 0);
      CloneSlots(ph, frames, s, d, level, i) == if below.ok then CloneSlots(below.ph, below.frames, s, d, level, i + 1)
        else below
  {}

  /** Linking a new table for the entry and copying everything below it. */
  lemma FinishBelow<F(!new)>(ph: Phys<F>, frames: seq<F>, sroot: F, sn: Nodes<F>, c: Copy<F>, d: F, level: nat, i: nat,
                             ph2: Phys<F>, c2: Copy<F>, below: Cloned<F>)
    returns (c3: Copy<F>)
    requires Between(ph, frames, sroot, sn, c)
    requires d in c.ns && d in c.of && c.ns[d].level == level && 1 < level <= 4 && i < 512
    requires Partial(ph.mem, c, d, i) && Slot(ph.mem, c.of[d], i).Present? && ph.free != []
    requires var n, o := ph.free[0], Slot(ph.mem, c.of[d], i);
      && ph2 == Phys(LinkedMem(ph.mem, d, i, n, o.perms), ph.free[1..]) && c2 == Linked(c, d, i, n, o.frame)
      && below == CloneSlots(ph2, frames + [n], o.frame, n, level - 1, 0)
    ensures below.ok ==> Finished(ph2, sroot, sn, c2, ph.free[0], below, c3)
    ensures !below.ok ==> Stuck(sroot, sn, below, c3)
    decreases level, 512 - i, 0
  {
    var n, o := ph.free[0], Slot(ph.mem, c.of[d], i);
    StepLink(ph, frames, sroot, sn, c, d, i);
    FreshIsEmpty(ph, d, i, n, o.perms, c2);
    c3 := CloneSlotsFinishes(ph2, frames + [n], sroot, sn, c2, n, level - 1, 0);
  }

  lemma FinishAfterLink<F(!new)>(ph: Phys<F>, frames: seq<F>, sroot: F, sn: Nodes<F>, c: Copy<F>, d: F, level: nat,
        i: nat)
    returns (c': Copy<F>)
    requires Between(ph, frames, sroot, sn, c)
    requires d in c.ns && d in c.of && c.ns[d].level == level && 1 < level <= 4 && i < 512
    requires Partial(ph.mem, c, d, i) && Slot(ph.mem, c.of[d], i).Present? && ph.free != []
    ensures var r := CloneSlots(ph, frames, c.of[d], d, level, i);
      if r.ok then Finished(ph, sroot, sn, c, d, r, c') else Stuck(sroot, sn, r, c')
    decreases level, 512 - i, 1
  {
    var n, o := ph.free[0], Slot(ph.mem, c.of[d], i);
    var ph2 := Phys(LinkedMem(ph.mem, d, i, n, o.perms), ph.free[1..]);
    var c2 := Linked(c, d, i, n, o.frame);
    var below := CloneSlots(ph2, frames + [n], o.frame, n, level - 1, 0);
    CloneSlotsAtLink(ph, frames, c.of[d], d, level, i);
    c' := FinishBelow(ph, frames, sroot, sn, c, d, level, i, ph2, c2, below);
    if below.ok {
      var r := CloneSlots(below.ph, below.frames, c.of[d], d, level, i + 1);
      c' := FinishAfterBelow(ph, frames, sroot, sn, c, d, level, i, below, c', r);
    }
  }

  /** The entries after it. */
  lemma FinishAfterBelow<F(!new)>(ph: Phys<F>, frames: seq<F>, sroot: F, sn: Nodes<F>, c: Copy<F>, d: F, level: nat,
        i: nat,
                                  below: Cloned<F>, c3: Copy<F>, r: Cloned<F>)
    returns (c': Copy<F>)
    requires Between(ph, frames, sroot, sn, c)
    requires d in c.ns && d in c.of && c.ns[d].level == level && 1 < level <= 4 && i < 512
    requires Partial(ph.mem, c, d, i) && Slot(ph.mem, c.of[d], i).Present? && ph.free != []
    requires var n, o := ph.free[0], Slot(ph.mem, c.of[d], i);
      Finished(Phys(LinkedMem(ph.mem, d, i, n, o.perms), ph.free[1..]), sroot, sn, Linked(c, d, i, n, o.frame), n,
        below, c3)
    requires r == CloneSlots(below.ph, below.frames, c.of[d], d, level, i + 1)
    ensures if r.ok then Finished(ph, sroot, sn, c, d, r, c') else Stuck(sroot, sn, r, c')
    decreases level, 512 - i, 0
  {
    PartialAfterBelow(ph, frames, sroot, sn, c, d, i, below, c3);
    c' := CloneSlotsFinishes(below.ph, below.frames, sroot, sn, c3, d, level, i + 1);
    if r.ok {
      FinishedTwice(ph, frames, sroot, sn, c, d, i, below, c3, r, c');
    }
  }

  lemma FreshIsEmpty<F(!new)>(ph: Phys<F>, d: F, i: nat, n: F, perms: Perms, c2: Copy<F>)
    requires n != d && n in c2.ns && n in c2.of
    ensures Partial(LinkedMem(ph.mem, d, i, n, perms), c2, n, 0)
  {}

  // The finished clone

  lemma OnlyRootAtTop<F(!new)>(mem: Memory<F>, sroot: F, sn: Nodes<F>, c: Copy<F>, f: F)
    requires Tree(mem, sroot, sn) && CopyOk(mem, sn, c) && f in c.ns
    ensures c.ns[f].level <= 4 && (c.ns[f].level == 4 <==> f == c.root)
  {
    assert Mirrors(mem, sn, c, f);
    if f != c.root {
      assert Mirrors(mem, sn, c, c.ns[f].parent);
    }
  }

  /** Distinct new frames copy distinct source frames. */
  lemma {:induction false} CopyInjective<F(!new)>(mem: Memory<F>, sroot: F, sn: Nodes<F>, c: Copy<F>, f: F, g: F)
    requires Tree(mem, sroot, sn) && CopyOk(mem, sn, c)
    requires f in c.ns && g in c.ns && f in c.of && g in c.of && c.of[f] == c.of[g]
    ensures f == g
    decreases 4 - c.ns[f].level
  {
    assert Mirrors(mem, sn, c, f) && Mirrors(mem, sn, c, g);
    OnlyRootAtTop(mem, sroot, sn, c, f);
    OnlyRootAtTop(mem, sroot, sn, c, g);
    if f != c.root {
      OnlyRootAtTop(mem, sroot, sn, c, c.ns[f].parent);
      CopyInjective(mem, sroot, sn, c, c.ns[f].parent, c.ns[g].parent);
    }
  }

  ghost predicate AllDone<F(!new)>(mem: Memory<F>, c: Copy<F>) {
    forall f :: f in c.ns ==> f in c.of && Done(mem, c, f)
  }

  /** Every table of the source has a copy. */
  lemma {:induction false} CopySurjective<F(!new)>(mem: Memory<F>, sroot: F, sn: Nodes<F>, c: Copy<F>, x: F)
    returns (f: F)
    requires Tree(mem, sroot, sn) && CopyOk(mem, sn, c) && AllDone(mem, c) && x in Attached(sn)
    requires c.of[c.root] == sroot
    ensures f in c.ns && f in c.of && c.of[f] == x
    decreases 4 - sn[x].level
  {
    if x == sroot {
      f := c.root;
    } else {
      assert HangsFromParent(mem, sn, x);
      var g := CopySurjective(mem, sroot, sn, c, sn[x].parent);
      assert Mirrors(mem, sn, c, g);
      assert SlotDone(mem, c, g, sn[x].index);
      f := Slot(mem, g, sn[x].index).frame;
    }
  }

  lemma CopyCounts<F(!new)>(ph: Phys<F>, frames: seq<F>, sroot: F, sn: Nodes<F>, c: Copy<F>)
    requires Between(ph, frames, sroot, sn, c)
    ensures |frames| == |c.ns| <= |Attached(sn)|
    ensures AllDone(ph.mem, c) && c.of[c.root] == sroot ==> |frames| == |Attached(sn)|
    ensures forall x :: x in Attached(sn) && NotCopied(c, x) ==> |frames| < |Attached(sn)|
  {
    ExtendsFromMirrors(ph.mem, sn, c);
    var image := set f | f in c.ns :: c.of[f];
    forall f, g | f in c.ns.Keys && g in c.ns.Keys && c.of[f] == c.of[g] ensures f == g {
      CopyInjective(ph.mem, sroot, sn, c, f, g);
    }
    InjectiveImageSize(c.ns.Keys, c.of);
    assert image == set f | f in c.ns.Keys :: c.of[f];
    NoDupSize(frames, c.ns.Keys);
    forall x | x in image ensures x in Attached(sn) {
      var f :| f in c.ns && x == c.of[f];
      assert Mirrors(ph.mem, sn, c, f);
    }
    SubsetSize(image, Attached(sn));
    if AllDone(ph.mem, c) && c.of[c.root] == sroot {
      forall x | x in Attached(sn) ensures x in image {
        var f := CopySurjective(ph.mem, sroot, sn, c, x);
      }
      assert image == Attached(sn);
    }
    forall x | x in Attached(sn) && NotCopied(c, x) ensures |frames| < |Attached(sn)| {
      ProperSubsetSize(image, Attached(sn), x);
    }
  }

  /** A finished clone's own tree invariant. */
  lemma CloneIsTree<F(!new)>(mem: Memory<F>, sn: Nodes<F>, c: Copy<F>)
    requires CopyOk(mem, sn, c) && AllDone(mem, c)
    requires forall x :: x in sn ==> sn[x].level <= 4
    ensures Tree(mem, c.root, c.ns)
  {
    forall t | t in c.ns ensures t in mem && |mem[t]| == 512 && c.ns[t].level <= 4 {
      assert Mirrors(mem, sn, c, t);
    }
    forall t, i | t in c.ns && 0 <= i < 512 ensures EntryHangs(mem, c.ns, t, i) {
      assert SlotDone(mem, c, t, i);
    }
    forall f | f in c.ns && f != c.root ensures HangsFromParent(mem, c.ns, f) {
      assert Mirrors(mem, sn, c, f);
    }
  }

  /** The two walks go down together. */
  lemma {:induction false} WalksMirror<F(!new)>(mem: Memory<F>, sroot: F, sn: Nodes<F>, c: Copy<F>, p: Path, k: nat)
    requires CopyOk(mem, sn, c) && AllDone(mem, c) && c.of[c.root] == sroot && p.InRange() && 1 <= k <= 4
    ensures match TableAt(mem, c.root, p, k)
      case None => TableAt(mem, sroot, p, k) == None
      case Some(f) => f in c.ns && f in c.of && c.ns[f].level == k && TableAt(mem, sroot, p, k) == Some(c.of[f])
    decreases 4 - k
  {
    if k < 4 {
      WalksMirror(mem, sroot, sn, c, p, k + 1);
      var up := TableAt(mem, c.root, p, k + 1);
      if up.Some? {
        assert SlotDone(mem, c, up.value, p.Index(k + 1));
      }
    } else {
      assert Mirrors(mem, sn, c, c.root);
    }
  }

  /** A source translation as the clone sees it. */
  function ReadExecuteOnly<F>(m: Option<Mapping<F>>): Option<Mapping<F>> {
    match m
    case None => None
    case Some(x) => Some(Mapping(x.host, READ_EXECUTE))
  }

  lemma TranslationsMirror<F(!new)>(mem: Memory<F>, sroot: F, sn: Nodes<F>, c: Copy<F>, p: Path)
    requires CopyOk(mem, sn, c) && AllDone(mem, c) && c.of[c.root] == sroot && p.InRange()
    ensures Translate(mem, c.root, p) == ReadExecuteOnly(Translate(mem, sroot, p))
  {
    WalksMirror(mem, sroot, sn, c, p, 1);
    var at := TableAt(mem, c.root, p, 1);
    if at.Some? {
      assert SlotDone(mem, c, at.value, p.Index(1));
    }
  }

  // Frames in and out

  /** Whatever happens, only `d` and free frames are written, and frames move from the free list to
      the clone's list in order. */
  lemma {:induction false} CloneSlotsConserves<F(!new)>(ph: Phys<F>, frames: seq<F>, s: F, d: F, level: nat, i: nat)
    requires PoolOk(ph) && d in ph.mem && 1 <= level <= 4 && i <= 512
    ensures var r := CloneSlots(ph, frames, s, d, level, i);
      WroteOnly(ph, d, r.ph) && PoolOk(r.ph) && r.frames + r.ph.free == frames + ph.free
    decreases level, 512 - i
  {
    if i < 512 {
      match Slot(ph.mem, s, i)
      case Absent => CloneSlotsConserves(ph, frames, s, d, level, i + 1);
      case Present(o, perms) =>
        if level == 1 {
          CloneSlotsConserves(Phys(Write(ph.mem, d, i, Present(o, READ_EXECUTE)), ph.free), frames, s, d, level, i + 1);
        } else if ph.free != [] {
          ConservesAtLink(ph, frames, s, d, level, i);
        }
    }
  }

  lemma ConservesAtLink<F(!new)>(ph: Phys<F>, frames: seq<F>, s: F, d: F, level: nat, i: nat)
    requires PoolOk(ph) && d in ph.mem && 1 < level <= 4 && i < 512
    requires Slot(ph.mem, s, i).Present? && ph.free != []
    ensures var r := CloneSlots(ph, frames, s, d, level, i);
      WroteOnly(ph, d, r.ph) && PoolOk(r.ph) && r.frames + r.ph.free == frames + ph.free
    decreases level, 512 - i, 0
  {
    CloneSlotsAtLink(ph, frames, s, d, level, i);
    var n, o := ph.free[0], Slot(ph.mem, s, i);
    assert n in ph.free;
    var ph2 := Phys(LinkedMem(ph.mem, d, i, n, o.perms), ph.free[1..]);
    assert frames + [n] + ph2.free == frames + ph.free;
    CloneSlotsConserves(ph2, frames + [n], o.frame, n, level - 1, 0);
    var below := CloneSlots(ph2, frames + [n], o.frame, n, level - 1, 0);
    assert WroteOnly(below.ph, d, below.ph);
    if below.ok {
      CloneSlotsConserves(below.ph, below.frames, s, d, level, i + 1);
      WroteOnlyTwice(ph, d, i, o.perms, below.ph, CloneSlots(below.ph, below.frames, s, d, level, i + 1).ph);
    } else {
      WroteOnlyTwice(ph, d, i, o.perms, below.ph, below.ph);
    }
  }

  // Main results

  /** The state in which the copy loop starts: one zeroed root and nothing else. */
  lemma StartBetween<F(!new)>(ph: Phys<F>, src: Table<F>, sn: Nodes<F>) returns (c: Copy<F>)
    requires PoolOk(ph) && Owned(ph, src, sn) && ph.free != []
    ensures var d := ph.free[0];
      && c.root == d && c.ns.Keys == {d} && c.ns[d].level == 4 && c.of == map[d := src.pml4]
      && Between(Phys(ph.mem[d := ZeroFrame()], ph.free[1..]), [d], src.pml4, sn, c)
      && Partial(ph.mem[d := ZeroFrame()], c, d, 0)
  {
    var d := ph.free[0];
    assert d in ph.free;
    var mem := ph.mem[d := ZeroFrame()];
    c := Copy(d, map[d := Node(4, d, 0)], map[d := src.pml4]);
    TreeReadsOnlyTree(ph.mem, mem, src.pml4, sn);
    assert Mirrors(mem, sn, c, d);
  }

  lemma StartedDone<F(!new)>(ph1: Phys<F>, sroot: F, sn: Nodes<F>, c: Copy<F>, d: F, r: Cloned<F>, c': Copy<F>)
    requires Finished(ph1, sroot, sn, c, d, r, c') && c.ns.Keys == {d} && c.of == map[d := sroot] && c.root == d
    ensures AllDone(r.ph.mem, c') && c'.root == d && c'.of[d] == sroot
  {
    assert d in c.ns;
  }

  /** The whole copy loop from an empty root, finished or stuck. */
  lemma CloneRun<F(!new)>(ph: Phys<F>, src: Table<F>, sn: Nodes<F>) returns (c': Copy<F>)
    requires PoolOk(ph) && Owned(ph, src, sn) && ph.free != []
    ensures var d := ph.free[0];
      var ph1 := Phys(ph.mem[d := ZeroFrame()], ph.free[1..]);
      var r := CloneSlots(ph1, [d], src.pml4, d, 4, 0);
      && WroteOnly(ph1, d, r.ph) && r.frames + r.ph.free == ph.free
      && Between(r.ph, r.frames, src.pml4, sn, c')
      && (if r.ok then AllDone(r.ph.mem, c') && c'.root == d && c'.of[d] == src.pml4
          else r.ph.free == [] && exists x :: x in Attached(sn) && NotCopied(c', x))
  {
    var d := ph.free[0];
    assert d in ph.free;
    var ph1 := Phys(ph.mem[d := ZeroFrame()], ph.free[1..]);
    var c := StartBetween(ph, src, sn);
    var r := CloneSlots(ph1, [d], src.pml4, d, 4, 0);
    CloneSlotsConserves(ph1, [d], src.pml4, d, 4, 0);
    assert [d] + ph1.free == ph.free;
    c' := CloneSlotsFinishes(ph1, [d], src.pml4, sn, c, d, 4, 0);
    if r.ok {
      StartedDone(ph1, src.pml4, sn, c, d, r, c');
    }
  }

  /** `clone_for_fork` fails exactly when the pool holds fewer frames than the source has tables. */
  lemma CloneFailsExactly<F(!new)>(ph: Phys<F>, src: Table<F>, sn: Nodes<F>)
    requires PoolOk(ph) && Owned(ph, src, sn)
    ensures CloneForFork(ph, src).1.Some? <==> |Attached(sn)| <= |ph.free|
  {
    if ph.free != [] {
      var c' := CloneRun(ph, src, sn);
      var r := CloneSlots(Phys(ph.mem[ph.free[0] := ZeroFrame()], ph.free[1..]), [ph.free[0]], src.pml4,
        ph.free[0], 4, 0);
      assert |r.frames| + |r.ph.free| == |ph.free|;
      CopyCounts(r.ph, r.frames, src.pml4, sn, c');
    } else {
      assert src.pml4 in Attached(sn);
    }
  }

  // The tables a walk can reach

  ghost predicate Reached<F(!new)>(mem: Memory<F>, root: F, f: F) {
    exists p: Path, k: nat :: p.InRange() && 1 <= k <= 4 && TableAt(mem, root, p, k) == Some(f)
  }

  /** The tables in use under `root`, the root included. */
  ghost function TablesOf<F(!new)>(mem: Memory<F>, root: F): set<F> { set f | f in mem && Reached(mem, root, f) }

  /** A walk depends only on the indices above its end. */
  lemma {:induction false} WalkShares<F(!new)>(mem: Memory<F>, root: F, p: Path, q: Path, k: nat)
    requires 1 <= k <= 4 && forall j :: k < j <= 4 ==> p.Index(j) == q.Index(j)
    ensures TableAt(mem, root, p, k) == TableAt(mem, root, q, k)
    decreases 4 - k
  {
    if k < 4 { WalkShares(mem, root, p, q, k + 1); }
  }

  function WithIndex(p: Path, k: nat, i: nat): (q: Path)
    requires 1 <= k <= 4
    ensures q.Index(k) == i && forall j :: 1 <= j <= 4 && j != k ==> q.Index(j) == p.Index(j)
    ensures p.InRange() && i < 512 ==> q.InRange()
  {
    if k == 4 then p.(pml4 := i) else if k == 3 then p.(pdpt := i) else if k == 2 then p.(pd := i) else p.(pt := i)
  }

  lemma {:induction false} PathTo<F(!new)>(mem: Memory<F>, root: F, ns: Nodes<F>, f: F) returns (p: Path)
    requires Tree(mem, root, ns) && f in ns && ns[f].level > 0
    ensures p.InRange() && TableAt(mem, root, p, ns[f].level) == Some(f)
    decreases 4 - ns[f].level
  {
    if f == root {
      p := Path(0, 0, 0, 0);
    } else {
      var n := ns[f];
      assert HangsFromParent(mem, ns, f);
      var q := PathTo(mem, root, ns, n.parent);
      p := WithIndex(q, n.level + 1, n.index);
      WalkShares(mem, root, p, q, n.level + 1);
    }
  }

  /** They are exactly the attached frames of the table. */
  lemma TablesAreAttached<F(!new)>(mem: Memory<F>, root: F, ns: Nodes<F>)
    requires Tree(mem, root, ns)
    ensures TablesOf(mem, root) == Attached(ns)
  {
    forall f | f in TablesOf(mem, root) ensures f in Attached(ns) {
      var p: Path, k: nat :| p.InRange() && 1 <= k <= 4 && TableAt(mem, root, p, k) == Some(f);
      TableAtInTree(mem, root, ns, p, k);
    }
    forall f | f in Attached(ns) ensures f in TablesOf(mem, root) {
      var p := PathTo(mem, root, ns, f);
      assert Reached(mem, root, f);
    }
  }

  /** `clone_for_fork` fails exactly when the pool holds fewer frames than there are tables in use. */
  lemma ForkFailsExactly<F(!new)>(ph: Phys<F>, src: Table<F>, sn: Nodes<F>)
    requires PoolOk(ph) && Owned(ph, src, sn)
    ensures CloneForFork(ph, src).1.Some? <==> |TablesOf(ph.mem, src.pml4)| <= |ph.free|
  {
    CloneFailsExactly(ph, src, sn);
    TablesAreAttached(ph.mem, src.pml4, sn);
  }

  /** A failed clone gives every frame back and has written nothing but free frames. */
  lemma FailedCloneLeavesNoTrace<F(!new)>(ph: Phys<F>, src: Table<F>, sn: Nodes<F>)
    requires PoolOk(ph) && Owned(ph, src, sn) && CloneForFork(ph, src).1.None?
    ensures var ph' := CloneForFork(ph, src).0;
      && ph'.free == ph.free && ph'.mem.Keys == ph.mem.Keys
      && forall f :: f in ph.mem && f !in ph.free ==> ph'.mem[f] == ph.mem[f]
  {
    if ph.free != [] {
      var c' := CloneRun(ph, src, sn);
      assert ph.free[0] in ph.free;
    }
  }

  /** Main result for `clone_for_fork`. */
  ghost predicate IsFork<F(!new)>(ph: Phys<F>, src: Table<F>, sn: Nodes<F>, ph': Phys<F>, fork: Table<F>,
        fn: Nodes<F>) {
    && Owned(ph', src, sn) && Owned(ph', fork, fn) && PoolOk(ph')
    && (forall f :: f in fn ==> f !in sn && f in ph.free)
    && |fork.frames| == |Attached(sn)| && AllAttached(fn)
    && Grown(ph, map[], ph', fn)
    && forall p: Path :: p.InRange() ==>
      && Translate(ph'.mem, src.pml4, p) == Translate(ph.mem, src.pml4, p)
      && Translate(ph'.mem, fork.pml4, p) == ReadExecuteOnly(Translate(ph.mem, src.pml4, p))
  }

  lemma CloneIsFork<F(!new)>(ph: Phys<F>, src: Table<F>, sn: Nodes<F>) returns (fn: Nodes<F>)
    requires PoolOk(ph) && Owned(ph, src, sn)
    requires CloneForFork(ph, src).1.Some?
    ensures IsFork(ph, src, sn, CloneForFork(ph, src).0, CloneForFork(ph, src).1.value, fn)
  {
    var d := ph.free[0];
    var c' := CloneRun(ph, src, sn);
    var r := CloneSlots(Phys(ph.mem[d := ZeroFrame()], ph.free[1..]), [d], src.pml4, d, 4, 0);
    fn := c'.ns;
    ForkFromCopy(ph, src, sn, d, r, c');
  }

  lemma CopiesWereFree<F(!new)>(frames: seq<F>, rest: seq<F>, free: seq<F>, f: F)
    requires frames + rest == free && f in frames
    ensures f in free
  {
    assert f in frames + rest;
  }

  /** The copy loop has finished from a fresh root `d`. */
  ghost predicate CopyEnded<F(!new)>(ph: Phys<F>, src: Table<F>, sn: Nodes<F>, d: F, r: Cloned<F>, c': Copy<F>) {
    && PoolOk(ph) && Owned(ph, src, sn) && ph.free != [] && d == ph.free[0]
    && Between(r.ph, r.frames, src.pml4, sn, c') && AllDone(r.ph.mem, c') && c'.root == d && c'.of[d] == src.pml4
    && WroteOnly(Phys(ph.mem[d := ZeroFrame()], ph.free[1..]), d, r.ph) && r.frames + r.ph.free == ph.free
  }

  lemma CopiesCameFromPool<F(!new)>(ph: Phys<F>, src: Table<F>, sn: Nodes<F>, d: F, r: Cloned<F>, c': Copy<F>)
    requires CopyEnded(ph, src, sn, d, r, c')
    ensures forall f :: f in c'.ns ==> f in ph.free && f !in sn
  {
    forall f | f in c'.ns ensures f in ph.free {
      CopiesWereFree(r.frames, r.ph.free, ph.free, f);
    }
  }

  lemma CopyIsOwned<F(!new)>(ph: Phys<F>, src: Table<F>, sn: Nodes<F>, d: F, r: Cloned<F>, c': Copy<F>)
    requires CopyEnded(ph, src, sn, d, r, c')
    ensures Owned(r.ph, Table(d, r.frames), c'.ns) && PoolOk(r.ph)
  {
    ExtendsFromMirrors(r.ph.mem, sn, c');
    CloneIsTree(r.ph.mem, sn, c');
    assert r.ph.free == ph.free[|ph.free| - |r.ph.free|..];
  }

  lemma CopyHasAsMany<F(!new)>(ph: Phys<F>, src: Table<F>, sn: Nodes<F>, d: F, r: Cloned<F>, c': Copy<F>)
    requires CopyEnded(ph, src, sn, d, r, c')
    ensures |r.frames| == |Attached(sn)| && AllAttached(c'.ns)
  {
    ExtendsFromMirrors(r.ph.mem, sn, c');
    CopyCounts(r.ph, r.frames, src.pml4, sn, c');
    forall f | f in c'.ns ensures c'.ns[f].level > 0 {
      assert Mirrors(r.ph.mem, sn, c', f);
    }
  }

  /** `frame_count`: a table has exactly its tree's frames unless some are detached, so a fork has as many
      frames as its source exactly when the source has none detached. */
  lemma FrameCount<F(!new)>(ph: Phys<F>, tbl: Table<F>, ns: Nodes<F>)
    requires Owned(ph, tbl, ns)
    ensures |Attached(ns)| <= |tbl.frames|
    ensures |Attached(ns)| == |tbl.frames| <==> AllAttached(ns)
  {
    NoDupSize(tbl.frames, ns.Keys);
    SubsetSize(Attached(ns), ns.Keys);
    if f :| f in ns && ns[f].level == 0 {
      ProperSubsetSize(Attached(ns), ns.Keys, f);
    } else {
      assert Attached(ns) == ns.Keys;
    }
  }

  lemma SourceStaysOwned<F(!new)>(ph: Phys<F>, src: Table<F>, sn: Nodes<F>, d: F, r: Cloned<F>, c': Copy<F>)
    requires CopyEnded(ph, src, sn, d, r, c') && Tree(r.ph.mem, src.pml4, sn)
    ensures Owned(r.ph, src, sn) && Grown(ph, map[], r.ph, c'.ns)
  {
    assert d in ph.free;
    assert r.ph.free == ph.free[|ph.free| - |r.ph.free|..];
    CopiesCameFromPool(ph, src, sn, d, r, c');
  }

  lemma ForkFromCopy<F(!new)>(ph: Phys<F>, src: Table<F>, sn: Nodes<F>, d: F, r: Cloned<F>, c': Copy<F>)
    requires CopyEnded(ph, src, sn, d, r, c')
    ensures IsFork(ph, src, sn, r.ph, Table(d, r.frames), c'.ns)
  {
    SameAndMirrored(ph, src, sn, d, r, c');
    CopiesCameFromPool(ph, src, sn, d, r, c');
    CopyIsOwned(ph, src, sn, d, r, c');
    CopyHasAsMany(ph, src, sn, d, r, c');
    SourceStaysOwned(ph, src, sn, d, r, c');
  }

  lemma SameAndMirrored<F(!new)>(ph: Phys<F>, src: Table<F>, sn: Nodes<F>, d: F, r: Cloned<F>, c': Copy<F>)
    requires Owned(ph, src, sn) && ph.free != [] && d == ph.free[0]
    requires CopyOk(r.ph.mem, sn, c') && AllDone(r.ph.mem, c') && c'.root == d && c'.of[d] == src.pml4
    requires WroteOnly(Phys(ph.mem[d := ZeroFrame()], ph.free[1..]), d, r.ph)
    ensures Tree(r.ph.mem, src.pml4, sn)
    ensures forall p: Path :: p.InRange() ==>
      && Translate(r.ph.mem, src.pml4, p) == Translate(ph.mem, src.pml4, p)
      && Translate(r.ph.mem, d, p) == ReadExecuteOnly(Translate(ph.mem, src.pml4, p))
  {
    assert d in ph.free;
    assert AgreeOn(ph.mem, r.ph.mem, sn.Keys);
    TreeReadsOnlyTree(ph.mem, r.ph.mem, src.pml4, sn);
    forall p: Path | p.InRange()
      ensures Translate(r.ph.mem, src.pml4, p) == Translate(ph.mem, src.pml4, p)
      ensures Translate(r.ph.mem, d, p) == ReadExecuteOnly(Translate(ph.mem, src.pml4, p))
    {
      TranslateReadsOnlyTree(ph.mem, r.ph.mem, src.pml4, sn, p);
      TranslationsMirror(r.ph.mem, src.pml4, sn, c', p);
    }
  }
}
