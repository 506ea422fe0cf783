/** Permissions as the processor sees them. `lookup` reports the leaf's permissions; the processor
    takes the AND over all four levels. The two agree exactly where no upper-level entry on the path
    withholds what the leaf grants; `map_4k` leaves existing upper-level entries as they are. */
module EptPerms {
  import opened EptTable
  import opened EptTree
  import opened EptMap
  import opened EptClone
  import opened Options

  /** The upper-level entry used at level `k` on path `p`, if any, grants everything. */
  ghost predicate UniformAt<F>(mem: Memory<F>, root: F, p: Path, k: nat)
    requires 2 <= k <= 4
  {
    match TableAt(mem, root, p, k)
    case None => true
    case Some(t) => var e := Slot(mem, t, p.Index(k)); e.Present? ==> e.perms == READ_WRITE_EXECUTE
  }

  ghost predicate Uniform<F>(mem: Memory<F>, root: F) {
    forall p: Path, k: nat :: p.InRange() && 2 <= k <= 4 ==> UniformAt(mem, root, p, k)
  }

  function LookupPerms<F>(m: Option<Mapping<F>>): Perms {
    if m.Some? then m.value.perms else NO_PERMS
  }

  lemma {:induction false} UpperLevelsGrantAll<F>(mem: Memory<F>, root: F, p: Path, k: nat)
    requires Uniform(mem, root) && p.InRange() && 2 <= k <= 5
    requires TableAt(mem, root, p, k - 1).Some?
    ensures HardwarePerms(mem, root, p, k) == READ_WRITE_EXECUTE
    decreases 5 - k
  {
    if k < 5 {
      UpperLevelsGrantAll(mem, root, p, k + 1);
      assert UniformAt(mem, root, p, k);
    }
  }

  lemma HardwareAgreesWithLookup<F>(mem: Memory<F>, root: F, p: Path)
    requires Uniform(mem, root) && p.InRange()
    ensures HardwarePerms(mem, root, p) == LookupPerms(Translate(mem, root, p))
  {
    if TableAt(mem, root, p, 1).Some? {
      UpperLevelsGrantAll(mem, root, p, 2);
    }
  }

  // When the two agree

  predicate Covers(a: Perms, b: Perms) { (b.read ==> a.read) && (b.write ==> a.write) && (b.exec ==> a.exec) }

  /** The upper-level entry used at level `k` on path `p`, if it is present, grants all of `perms`. */
  ghost predicate GrantsAt<F>(mem: Memory<F>, root: F, p: Path, perms: Perms, k: nat)
    requires 2 <= k <= 4
  {
    match TableAt(mem, root, p, k)
    case None => true
    case Some(t) => var e := Slot(mem, t, p.Index(k)); e.Present? ==> Covers(e.perms, perms)
  }

  ghost predicate PathGrants<F>(mem: Memory<F>, root: F, p: Path, perms: Perms) {
    GrantsAt(mem, root, p, perms, 2) && GrantsAt(mem, root, p, perms, 3) && GrantsAt(mem, root, p, perms, 4)
  }

  ghost predicate Agrees<F>(mem: Memory<F>, root: F, p: Path) {
    HardwarePerms(mem, root, p) == LookupPerms(Translate(mem, root, p))
  }

  /** A walk that reaches the last level used a present entry at every level above. */
  lemma {:induction false} ReachedThrough<F>(mem: Memory<F>, root: F, p: Path, k: nat)
    requires TableAt(mem, root, p, 1).Some? && 2 <= k <= 4
    ensures TableAt(mem, root, p, k).Some? && Slot(mem, TableAt(mem, root, p, k).value, p.Index(k)).Present?
    decreases k
  {
    if k > 2 {
      ReachedThrough(mem, root, p, k - 1);
    }
  }

  lemma UpperCovers<F>(mem: Memory<F>, root: F, p: Path, perms: Perms)
    requires TableAt(mem, root, p, 1).Some?
    ensures Covers(HardwarePerms(mem, root, p, 2), perms) <==> PathGrants(mem, root, p, perms)
  {
    ReachedThrough(mem, root, p, 2);
    ReachedThrough(mem, root, p, 3);
    ReachedThrough(mem, root, p, 4);
    assert HardwarePerms(mem, root, p, 5) == READ_WRITE_EXECUTE;
    assert Covers(HardwarePerms(mem, root, p, 4), perms) <==> GrantsAt(mem, root, p, perms, 4);
    assert Covers(HardwarePerms(mem, root, p, 3), perms) <==>
      GrantsAt(mem, root, p, perms, 3) && GrantsAt(mem, root, p, perms, 4);
  }

  /** In any table, the two agree on a page exactly when it is unmapped or every upper-level entry on its
      path grants all the leaf grants. */
  lemma AgreesExactly<F>(mem: Memory<F>, root: F, p: Path)
    ensures var m := Translate(mem, root, p);
      Agrees(mem, root, p) <==> (m.None? || PathGrants(mem, root, p, m.value.perms))
  {
    if Translate(mem, root, p).Some? {
      UpperCovers(mem, root, p, Translate(mem, root, p).value.perms);
    }
  }

  lemma SameAgreement<F>(mem: Memory<F>, mem': Memory<F>, root: F, p: Path)
    requires Translate(mem', root, p) == Translate(mem, root, p)
    requires var m := Translate(mem, root, p);
      m.Some? ==> (PathGrants(mem', root, p, m.value.perms) <==> PathGrants(mem, root, p, m.value.perms))
    ensures Agrees(mem', root, p) <==> Agrees(mem, root, p)
  {
    AgreesExactly(mem, root, p);
    AgreesExactly(mem', root, p);
  }

  // What an operation does to the upper-level entries on a path

  lemma GrantsReadsOnlyTree<F(!new)>(mem: Memory<F>, mem': Memory<F>, root: F, ns: Nodes<F>, p: Path, perms: Perms)
    requires Tree(mem, root, ns) && AgreeOn(mem, mem', ns.Keys) && p.InRange()
    ensures PathGrants(mem', root, p, perms) <==> PathGrants(mem, root, p, perms)
  {
    forall k: nat | 2 <= k <= 4 ensures GrantsAt(mem', root, p, perms, k) <==> GrantsAt(mem, root, p, perms, k) {
      WalkReadsOnlyTree(mem, mem', root, ns, p, k);
      TableAtInTree(mem, root, ns, p, k);
    }
  }

  lemma LinkKeepsGrantsAt<F(!new)>(mem: Memory<F>, root: F, ns: Nodes<F>, t: F, i: nat, f: F, with: Perms, p: Path,
        perms: Perms, k: nat)
    requires CanLink(mem, root, ns, t, i, f, with) && p.InRange() && 2 <= k <= 4
    requires with == perms || TableAt(mem, root, p, 1).Some?
    ensures GrantsAt(LinkedMem(mem, t, i, f, with), root, p, perms, k) <==> GrantsAt(mem, root, p, perms, k)
  {
    var mem' := LinkedMem(mem, t, i, f, with);
    LinkExtendsWalk(mem, root, ns, t, i, f, with, p, k);
    TableAtInTree(mem, root, ns, p, k);
    if TableAt(mem, root, p, 1).Some? {
      ReachedThrough(mem, root, p, k);
    }
    if TableAt(mem', root, p, k).Some? {
      LinkedSlots(mem, t, i, f, with, TableAt(mem', root, p, k).value, p.Index(k));
    }
  }

  /** A table linked with the permissions asked about, or beside the path of a mapped page. */
  lemma LinkKeepsGrants<F(!new)>(mem: Memory<F>, root: F, ns: Nodes<F>, t: F, i: nat, f: F, with: Perms, p: Path,
        perms: Perms)
    requires CanLink(mem, root, ns, t, i, f, with) && p.InRange()
    requires with == perms || TableAt(mem, root, p, 1).Some?
    ensures PathGrants(LinkedMem(mem, t, i, f, with), root, p, perms) <==> PathGrants(mem, root, p, perms)
  {
    LinkKeepsGrantsAt(mem, root, ns, t, i, f, with, p, perms, 2);
    LinkKeepsGrantsAt(mem, root, ns, t, i, f, with, p, perms, 3);
    LinkKeepsGrantsAt(mem, root, ns, t, i, f, with, p, perms, 4);
  }

  lemma LeafKeepsGrants<F(!new)>(mem: Memory<F>, root: F, ns: Nodes<F>, t: F, i: nat, e: Entry<F>, p: Path,
        perms: Perms)
    requires Tree(mem, root, ns) && t in ns && ns[t].level == 1 && i < 512 && p.InRange()
    ensures PathGrants(Write(mem, t, i, e), root, p, perms) <==> PathGrants(mem, root, p, perms)
  {
    var mem' := Write(mem, t, i, e);
    forall k: nat | 2 <= k <= 4 ensures GrantsAt(mem', root, p, perms, k) <==> GrantsAt(mem, root, p, perms, k) {
      LeafKeepsWalk(mem, root, ns, t, i, e, p, k);
      TableAtInTree(mem, root, ns, p, k);
    }
  }

  lemma EnsureTableKeepsGrants<F(!new)>(ph: Phys<F>, tbl: Table<F>, ns: Nodes<F>, t: F, i: nat, with: Perms, p: Path,
        perms: Perms)
    requires Owned(ph, tbl, ns) && t in ns && ns[t].level > 1 && i < 512 && with.Any() && p.InRange()
    requires with == perms || TableAt(ph.mem, tbl.pml4, p, 1).Some?
    ensures SameGrants(ph.mem, EnsureTable(ph, tbl, t, i, with).ph.mem, tbl.pml4, p, perms)
  {
    if Slot(ph.mem, t, i).Absent? && ph.free != [] {
      assert ph.free[0] in ph.free;
      LinkKeepsGrants(ph.mem, tbl.pml4, ns, t, i, ph.free[0], with, p, perms);
      LinkExtendsWalk(ph.mem, tbl.pml4, ns, t, i, ph.free[0], with, p, 1);
    }
  }

  /** The path of `p` at the last level is not lost and its grants are the same. */
  ghost predicate SameGrants<F>(mem: Memory<F>, mem': Memory<F>, root: F, p: Path, perms: Perms) {
    && (PathGrants(mem', root, p, perms) <==> PathGrants(mem, root, p, perms))
    && (TableAt(mem, root, p, 1).Some? ==> TableAt(mem', root, p, 1).Some?)
  }

  lemma {:induction false} EnsurePathKeepsGrants<F(!new)>(ph: Phys<F>, tbl: Table<F>, ns: Nodes<F>, g: Path,
        with: Perms, k: nat, r: Ensured<F>, p: Path, perms: Perms)
    requires PoolOk(ph) && Owned(ph, tbl, ns) && with.Any() && g.InRange() && p.InRange() && 1 <= k <= 4
    requires with == perms || TableAt(ph.mem, tbl.pml4, p, 1).Some?
    requires r == EnsurePath(ph, tbl, g, with, k)
    ensures SameGrants(ph.mem, r.ph.mem, tbl.pml4, p, perms)
    decreases 4 - k
  {
    if k < 4 {
      var up := EnsurePath(ph, tbl, g, with, k + 1);
      EnsurePathKeepsGrants(ph, tbl, ns, g, with, k + 1, up, p, perms);
      if up.next.Some? { EnsurePathKeepsGrantsStep(ph, tbl, ns, g, with, k, up, r, p, perms); }
    }
  }

  lemma EnsurePathKeepsGrantsStep<F(!new)>(ph: Phys<F>, tbl: Table<F>, ns: Nodes<F>, g: Path, with: Perms, k: nat,
                                           up: Ensured<F>, r: Ensured<F>, p: Path, perms: Perms)
    requires PoolOk(ph) && Owned(ph, tbl, ns) && with.Any() && g.InRange() && p.InRange() && 1 <= k < 4
    requires with == perms || TableAt(ph.mem, tbl.pml4, p, 1).Some?
    requires up == EnsurePath(ph, tbl, g, with, k + 1) && up.next.Some?
    requires r == EnsureTable(up.ph, up.tbl, up.next.value, g.Index(k + 1), with)
    requires SameGrants(ph.mem, up.ph.mem, tbl.pml4, p, perms)
    ensures SameGrants(ph.mem, r.ph.mem, tbl.pml4, p, perms)
  {
    var ns1 := PathTableInTree(ph, tbl, ns, g, with, k + 1);
    EnsureStepKeepsGrants(ph.mem, up, ns1, tbl.pml4, g.Index(k + 1), with, p, perms, r);
  }

  lemma EnsureStepKeepsGrants<F(!new)>(mem: Memory<F>, up: Ensured<F>, ns: Nodes<F>, root: F, i: nat, with: Perms,
        p: Path, perms: Perms, r: Ensured<F>)
    requires SameGrants(mem, up.ph.mem, root, p, perms) && up.tbl.pml4 == root && up.next.Some? && i < 512
    requires Owned(up.ph, up.tbl, ns) && up.next.value in ns && ns[up.next.value].level > 1 && with.Any() && p.InRange()
    requires with == perms || TableAt(mem, root, p, 1).Some?
    requires r == EnsureTable(up.ph, up.tbl, up.next.value, i, with)
    ensures SameGrants(mem, r.ph.mem, root, p, perms)
  {
    EnsureTableKeepsGrants(up.ph, up.tbl, ns, up.next.value, i, with, p, perms);
  }

  lemma MapKeepsGrants<F(!new)>(ph: Phys<F>, tbl: Table<F>, ns: Nodes<F>, g: Path, host: F, with: Perms, p: Path,
        perms: Perms)
    requires PoolOk(ph) && Owned(ph, tbl, ns) && with.Any() && g.InRange() && p.InRange()
    requires with == perms || TableAt(ph.mem, tbl.pml4, p, 1).Some?
    ensures PathGrants(Map4k(ph, tbl, g, host, with).ph.mem, tbl.pml4, p, perms) <==>
      PathGrants(ph.mem, tbl.pml4, p, perms)
  {
    var e := EnsurePath(ph, tbl, g, with, 1);
    EnsurePathKeepsGrants(ph, tbl, ns, g, with, 1, e, p, perms);
    var ns1 := PathTableInTree(ph, tbl, ns, g, with, 1);
    if e.next.Some? {
      LeafKeepsGrants(e.ph.mem, tbl.pml4, ns1, e.next.value, g.pt, Written(host, with), p, perms);
    }
  }

  // map_4k

  /** Main result: after a successful `map_4k` the processor grants exactly the permissions asked for if
      and only if every upper-level entry that was already present on the page's path grants them. */
  lemma MapAgreesExactly<F(!new)>(ph: Phys<F>, tbl: Table<F>, ns: Nodes<F>, g: Path, host: F, perms: Perms)
    requires PoolOk(ph) && Owned(ph, tbl, ns) && g.InRange()
    requires MissingTables(ph.mem, tbl.pml4, g, 1) <= |ph.free|
    ensures HardwarePerms(Map4k(ph, tbl, g, host, perms).ph.mem, tbl.pml4, g) == perms <==>
      PathGrants(ph.mem, tbl.pml4, g, perms)
  {
    Map4kFailsExactly(ph, tbl, ns, g, host, perms);
    var _ := Map4kUpdatesOnePage(ph, tbl, ns, g, host, perms);
    AgreesExactly(Map4k(ph, tbl, g, host, perms).ph.mem, tbl.pml4, g);
    if perms.Any() {
      MapKeepsGrants(ph, tbl, ns, g, host, perms, g, perms);
    }
  }

  /** No other page is affected, nor any page by a call that fails. */
  lemma MapKeepsAgreement<F(!new)>(ph: Phys<F>, tbl: Table<F>, ns: Nodes<F>, g: Path, host: F, perms: Perms, p: Path)
    requires PoolOk(ph) && Owned(ph, tbl, ns) && g.InRange() && p.InRange()
    requires p != g || !Map4k(ph, tbl, g, host, perms).ok
    ensures Agrees(Map4k(ph, tbl, g, host, perms).ph.mem, tbl.pml4, p) <==> Agrees(ph.mem, tbl.pml4, p)
  {
    var _ := Map4kUpdatesOnePage(ph, tbl, ns, g, host, perms);
    var m := Translate(ph.mem, tbl.pml4, p);
    if m.Some? {
      if perms.Any() {
        MapKeepsGrants(ph, tbl, ns, g, host, perms, p, m.value.perms);
      } else {
        UnmapKeepsGrants(ph, tbl, ns, g, host, p, m.value.perms);
      }
    }
    SameAgreement(ph.mem, Map4k(ph, tbl, g, host, perms).ph.mem, tbl.pml4, p);
  }

  lemma UnmapKeepsGrants<F(!new)>(ph: Phys<F>, tbl: Table<F>, ns: Nodes<F>, g: Path, host: F, p: Path, perms: Perms)
    requires PoolOk(ph) && Owned(ph, tbl, ns) && g.InRange() && p.InRange()
    ensures PathGrants(Map4k(ph, tbl, g, host, NO_PERMS).ph.mem, tbl.pml4, p, perms) <==>
      PathGrants(ph.mem, tbl.pml4, p, perms)
  {
    var _ := EnsurePathDetaches(ph, tbl, ns, g, 1);
    var e, mem' := EnsurePath(ph, tbl, g, NO_PERMS, 1), Map4k(ph, tbl, g, host, NO_PERMS).ph.mem;
    if TableAt(ph.mem, tbl.pml4, g, 1).Some? {
      TableAtInTree(ph.mem, tbl.pml4, ns, g, 1);
      LeafKeepsGrants(ph.mem, tbl.pml4, ns, e.next.value, g.pt, Absent, p, perms);
    } else {
      if e.next.Some? {
        WriteAbsent(e.ph.mem, e.next.value, g.Index(1));
      }
      GrantsReadsOnlyTree(ph.mem, mem', tbl.pml4, ns, p, perms);
    }
  }

  // remap_4k

  lemma RemapKeepsGrants<F(!new)>(mem: Memory<F>, root: F, ns: Nodes<F>, g: Path, host: F, perms: Perms, p: Path,
        asked: Perms)
    requires Tree(mem, root, ns) && g.InRange() && p.InRange()
    ensures PathGrants(Remap4k(mem, root, g, host, perms).0, root, p, asked) <==> PathGrants(mem, root, p, asked)
  {
    TableAtInTree(mem, root, ns, g, 1);
    if Remap4k(mem, root, g, host, perms).1 {
      LeafKeepsGrants(mem, root, ns, TableAt(mem, root, g, 1).value, g.pt, Written(host, perms), p, asked);
    }
  }

  /** The same for `remap_4k`, which changes no upper-level entry. */
  lemma RemapAgreesExactly<F(!new)>(ph: Phys<F>, tbl: Table<F>, ns: Nodes<F>, g: Path, host: F, perms: Perms)
    requires PoolOk(ph) && Owned(ph, tbl, ns) && g.InRange() && Translate(ph.mem, tbl.pml4, g).Some?
    ensures HardwarePerms(Remap4k(ph.mem, tbl.pml4, g, host, perms).0, tbl.pml4, g) == perms <==>
      PathGrants(ph.mem, tbl.pml4, g, perms)
    ensures LookupPerms(Translate(Remap4k(ph.mem, tbl.pml4, g, host, perms).0, tbl.pml4, g)) == perms
  {
    Remap4kUpdatesMappedPage(ph, tbl, ns, g, host, perms);
    AgreesExactly(Remap4k(ph.mem, tbl.pml4, g, host, perms).0, tbl.pml4, g);
    RemapKeepsGrants(ph.mem, tbl.pml4, ns, g, host, perms, g, perms);
  }

  lemma RemapKeepsAgreement<F(!new)>(ph: Phys<F>, tbl: Table<F>, ns: Nodes<F>, g: Path, host: F, perms: Perms, p: Path)
    requires PoolOk(ph) && Owned(ph, tbl, ns) && g.InRange() && p.InRange()
    requires p != g || Translate(ph.mem, tbl.pml4, g).None?
    ensures Agrees(Remap4k(ph.mem, tbl.pml4, g, host, perms).0, tbl.pml4, p) <==> Agrees(ph.mem, tbl.pml4, p)
  {
    Remap4kUpdatesMappedPage(ph, tbl, ns, g, host, perms);
    var m := Translate(ph.mem, tbl.pml4, p);
    if m.Some? {
      RemapKeepsGrants(ph.mem, tbl.pml4, ns, g, host, perms, p, m.value.perms);
    }
    SameAgreement(ph.mem, Remap4k(ph.mem, tbl.pml4, g, host, perms).0, tbl.pml4, p);
  }

  // clone_for_fork

  lemma CopyKeepsGrants<F(!new)>(mem: Memory<F>, sroot: F, sn: Nodes<F>, c: Copy<F>, p: Path, perms: Perms)
    requires CopyOk(mem, sn, c) && AllDone(mem, c) && c.of[c.root] == sroot && p.InRange()
    ensures PathGrants(mem, c.root, p, perms) <==> PathGrants(mem, sroot, p, perms)
  {
    forall k: nat | 2 <= k <= 4 ensures GrantsAt(mem, c.root, p, perms, k) <==> GrantsAt(mem, sroot, p, perms, k) {
      WalksMirror(mem, sroot, sn, c, p, k);
      var at := TableAt(mem, c.root, p, k);
      if at.Some? {
        assert SlotDone(mem, c, at.value, p.Index(k));
      }
    }
  }

  /** In a fork the two agree on a page exactly when it is unmapped or the source's upper-level entries
      grant read and execute. */
  lemma ForkAgreesExactly<F(!new)>(ph: Phys<F>, src: Table<F>, sn: Nodes<F>, p: Path)
    requires PoolOk(ph) && Owned(ph, src, sn) && CloneForFork(ph, src).1.Some? && p.InRange()
    ensures Agrees(CloneForFork(ph, src).0.mem, CloneForFork(ph, src).1.value.pml4, p)
      <==> (Translate(ph.mem, src.pml4, p).None? || PathGrants(ph.mem, src.pml4, p, READ_EXECUTE))
  {
    var _ := CloneIsFork(ph, src, sn);
    AgreesExactly(CloneForFork(ph, src).0.mem, CloneForFork(ph, src).1.value.pml4, p);
    CloneKeepsGrants(ph, src, sn, p, READ_EXECUTE);
  }

  lemma CloneKeepsGrants<F(!new)>(ph: Phys<F>, src: Table<F>, sn: Nodes<F>, p: Path, perms: Perms)
    requires PoolOk(ph) && Owned(ph, src, sn) && CloneForFork(ph, src).1.Some? && p.InRange()
    ensures PathGrants(CloneForFork(ph, src).0.mem, CloneForFork(ph, src).1.value.pml4, p, perms) <==>
      PathGrants(ph.mem, src.pml4, p, perms)
  {
    assert ph.free[0] in ph.free;
    var c := CloneRun(ph, src, sn);
    var mem := CloneForFork(ph, src).0.mem;
    CopyKeepsGrants(mem, src.pml4, sn, c, p, perms);
    GrantsReadsOnlyTree(ph.mem, mem, src.pml4, sn, p, perms);
  }

  lemma AgreementReadsOnlyTree<F(!new)>(mem: Memory<F>, mem': Memory<F>, root: F, ns: Nodes<F>, p: Path)
    requires Tree(mem, root, ns) && AgreeOn(mem, mem', ns.Keys) && p.InRange()
    ensures Agrees(mem', root, p) <==> Agrees(mem, root, p)
  {
    TranslateReadsOnlyTree(mem, mem', root, ns, p);
    if Translate(mem, root, p).Some? {
      GrantsReadsOnlyTree(mem, mem', root, ns, p, Translate(mem, root, p).value.perms);
    }
    SameAgreement(mem, mem', root, p);
  }

  // A concrete case

  /** A mapping that does not meet that condition: in an empty table, map one page read-execute and
      its neighbour read-write-execute. The upper-level entries keep the first call's permissions, so
      the neighbour is reported writable and is not. */
  lemma MixedPermsDisagree(h: nat)
    ensures var first := Map4k(SmallPool(), Table(0, [0]), Path(0, 0, 0, 0), h, READ_EXECUTE);
      var second := Map4k(first.ph, first.tbl, Path(0, 0, 0, 1), h, READ_WRITE_EXECUTE);
      && second.ok
      && Translate(second.ph.mem, 0, Path(0, 0, 0, 1)) == Some(Mapping(h, READ_WRITE_EXECUTE))
      && !HardwarePerms(second.ph.mem, 0, Path(0, 0, 0, 1)).write
  {
    FirstMapping(h);
    var first := Map4k(SmallPool(), Table(0, [0]), Path(0, 0, 0, 0), h, READ_EXECUTE);
    SecondMapping(first.ph, first.tbl, h);
  }

  lemma FirstMapping(h: nat)
    ensures var r := Map4k(SmallPool(), Table(0, [0]), Path(0, 0, 0, 0), h, READ_EXECUTE);
      && r.tbl.pml4 == 0 && r.ph.mem.Keys == {0, 1, 2, 3} && |r.ph.mem[3]| == 512
      && Slot(r.ph.mem, 0, 0) == Present(1, READ_EXECUTE)
      && Slot(r.ph.mem, 1, 0) == Present(2, READ_EXECUTE)
      && Slot(r.ph.mem, 2, 0) == Present(3, READ_EXECUTE)
  {
    var p := Path(0, 0, 0, 0);
    var e3 := EnsurePath(SmallPool(), Table(0, [0]), p, READ_EXECUTE, 3);
    assert e3.next == Some(1) && e3.ph.free == [2, 3] && Slot(e3.ph.mem, 0, 0) == Present(1, READ_EXECUTE);
    var e2 := EnsurePath(SmallPool(), Table(0, [0]), p, READ_EXECUTE, 2);
    assert e2.next == Some(2) && e2.ph.free == [3] && Slot(e2.ph.mem, 1, 0) == Present(2, READ_EXECUTE);
  }

  lemma SecondMapping(ph: Phys<nat>, tbl: Table<nat>, h: nat)
    requires tbl.pml4 == 0 && ph.mem.Keys == {0, 1, 2, 3} && |ph.mem[3]| == 512
    requires Slot(ph.mem, 0, 0) == Present(1, READ_EXECUTE)
    requires Slot(ph.mem, 1, 0) == Present(2, READ_EXECUTE)
    requires Slot(ph.mem, 2, 0) == Present(3, READ_EXECUTE)
    ensures var second := Map4k(ph, tbl, Path(0, 0, 0, 1), h, READ_WRITE_EXECUTE);
      && second.ok
      && Translate(second.ph.mem, 0, Path(0, 0, 0, 1)) == Some(Mapping(h, READ_WRITE_EXECUTE))
      && !HardwarePerms(second.ph.mem, 0, Path(0, 0, 0, 1)).write
  {
    var p := Path(0, 0, 0, 1);
    assert EnsurePath(ph, tbl, p, READ_WRITE_EXECUTE, 3) == Ensured(ph, tbl, Some(1));
    assert EnsurePath(ph, tbl, p, READ_WRITE_EXECUTE, 2) == Ensured(ph, tbl, Some(2));
    assert EnsurePath(ph, tbl, p, READ_WRITE_EXECUTE, 1) == Ensured(ph, tbl, Some(3));
    var mem := Map4k(ph, tbl, p, h, READ_WRITE_EXECUTE).ph.mem;
    assert TableAt(mem, 0, p, 3) == Some(1) && TableAt(mem, 0, p, 2) == Some(2) && TableAt(mem, 0, p, 1) == Some(3);
    assert HardwarePerms(mem, 0, p, 3) == READ_EXECUTE;
  }

  /** An empty root frame 0 and three free frames. */
  function SmallPool(): Phys<nat> {
    Phys(map[0 := ZeroFrame(), 1 := ZeroFrame(), 2 := ZeroFrame(), 3 := ZeroFrame()], [1, 2, 3])
  }

  // What keeps uniformity

  lemma UniformReadsOnlyTree<F(!new)>(mem: Memory<F>, mem': Memory<F>, root: F, ns: Nodes<F>)
    requires Tree(mem, root, ns) && AgreeOn(mem, mem', ns.Keys) && Uniform(mem, root)
    ensures Uniform(mem', root)
  {
    forall p: Path, k: nat | p.InRange() && 2 <= k <= 4 ensures UniformAt(mem', root, p, k) {
      assert UniformAt(mem, root, p, k);
      WalkReadsOnlyTree(mem, mem', root, ns, p, k);
      TableAtInTree(mem, root, ns, p, k);
    }
  }

  lemma LinkKeepsUniform<F(!new)>(mem: Memory<F>, root: F, ns: Nodes<F>, t: F, i: nat, f: F)
    requires CanLink(mem, root, ns, t, i, f, READ_WRITE_EXECUTE) && Uniform(mem, root)
    ensures Uniform(LinkedMem(mem, t, i, f, READ_WRITE_EXECUTE), root)
  {
    var mem' := LinkedMem(mem, t, i, f, READ_WRITE_EXECUTE);
    forall p: Path, k: nat | p.InRange() && 2 <= k <= 4 ensures UniformAt(mem', root, p, k) {
      assert UniformAt(mem, root, p, k);
      LinkExtendsWalk(mem, root, ns, t, i, f, READ_WRITE_EXECUTE, p, k);
      TableAtInTree(mem, root, ns, p, k);
      var at := TableAt(mem', root, p, k);
      if at.Some? {
        LinkedSlots(mem, t, i, f, READ_WRITE_EXECUTE, at.value, p.Index(k));
      }
    }
  }

  lemma LeafKeepsUniform<F(!new)>(mem: Memory<F>, root: F, ns: Nodes<F>, t: F, i: nat, e: Entry<F>)
    requires Tree(mem, root, ns) && t in ns && ns[t].level == 1 && i < 512 && Uniform(mem, root)
    ensures Uniform(Write(mem, t, i, e), root)
  {
    var mem' := Write(mem, t, i, e);
    forall p: Path, k: nat | p.InRange() && 2 <= k <= 4 ensures UniformAt(mem', root, p, k) {
      assert UniformAt(mem, root, p, k);
      LeafKeepsWalk(mem, root, ns, t, i, e, p, k);
      TableAtInTree(mem, root, ns, p, k);
    }
  }

  lemma {:induction false} EnsurePathKeepsUniform<F(!new)>(ph: Phys<F>, tbl: Table<F>, ns: Nodes<F>, p: Path, k: nat)
    requires PoolOk(ph) && Owned(ph, tbl, ns) && p.InRange() && 1 <= k <= 4 && Uniform(ph.mem, tbl.pml4)
    ensures Uniform(EnsurePath(ph, tbl, p, READ_WRITE_EXECUTE, k).ph.mem, tbl.pml4)
    decreases 4 - k
  {
    if k < 4 {
      EnsurePathKeepsUniform(ph, tbl, ns, p, k + 1);
      var up := EnsurePath(ph, tbl, p, READ_WRITE_EXECUTE, k + 1);
      var ns1 := PathTableInTree(ph, tbl, ns, p, READ_WRITE_EXECUTE, k + 1);
      if up.next.Some? {
        EnsureTableKeepsUniform(up.ph, up.tbl, ns1, up.next.value, p.Index(k + 1));
      }
    }
  }

  lemma EnsureTableKeepsUniform<F(!new)>(ph: Phys<F>, tbl: Table<F>, ns: Nodes<F>, t: F, i: nat)
    requires Owned(ph, tbl, ns) && Uniform(ph.mem, tbl.pml4) && t in ns && ns[t].level > 1 && i < 512
    ensures Uniform(EnsureTable(ph, tbl, t, i, READ_WRITE_EXECUTE).ph.mem, tbl.pml4)
  {
    if Slot(ph.mem, t, i).Absent? && ph.free != [] {
      assert ph.free[0] in ph.free;
      LinkKeepsUniform(ph.mem, tbl.pml4, ns, t, i, ph.free[0]);
    }
  }

  lemma MapKeepsUniform<F(!new)>(ph: Phys<F>, tbl: Table<F>, ns: Nodes<F>, g: Path, host: F)
    requires PoolOk(ph) && Owned(ph, tbl, ns) && g.InRange() && Uniform(ph.mem, tbl.pml4)
    ensures Uniform(Map4k(ph, tbl, g, host, READ_WRITE_EXECUTE).ph.mem, tbl.pml4)
  {
    EnsurePathKeepsUniform(ph, tbl, ns, g, 1);
    var e := EnsurePath(ph, tbl, g, READ_WRITE_EXECUTE, 1);
    var ns1 := PathTableInTree(ph, tbl, ns, g, READ_WRITE_EXECUTE, 1);
    if e.next.Some? {
      LeafKeepsUniform(e.ph.mem, tbl.pml4, ns1, e.next.value, g.pt, Written(host, READ_WRITE_EXECUTE));
    }
  }

  lemma RemapKeepsUniform<F(!new)>(mem: Memory<F>, root: F, ns: Nodes<F>, g: Path, host: F, perms: Perms)
    requires Tree(mem, root, ns) && g.InRange() && Uniform(mem, root)
    ensures Uniform(Remap4k(mem, root, g, host, perms).0, root)
  {
    TableAtInTree(mem, root, ns, g, 1);
    if Remap4k(mem, root, g, host, perms).1 {
      LeafKeepsUniform(mem, root, ns, TableAt(mem, root, g, 1).value, g.pt, Written(host, perms));
    }
  }

  lemma NewIsUniform<F(!new)>(ph: Phys<F>)
    requires NewTable(ph).1.Some?
    ensures Uniform(NewTable(ph).0.mem, NewTable(ph).1.value.pml4)
  {
    var mem, f := NewTable(ph).0.mem, ph.free[0];
    forall p: Path, k: nat | p.InRange() && 2 <= k <= 4 ensures UniformAt(mem, f, p, k) {
      assert TableAt(mem, f, p, 4) == Some(f);
      assert TableAt(mem, f, p, 3) == None;
      assert TableAt(mem, f, p, 2) == None;
    }
  }

  /** The clone's upper levels carry the source's permissions. */
  lemma CloneKeepsUniform<F(!new)>(ph: Phys<F>, src: Table<F>, sn: Nodes<F>)
    requires PoolOk(ph) && Owned(ph, src, sn) && Uniform(ph.mem, src.pml4) && CloneForFork(ph, src).1.Some?
    ensures Uniform(CloneForFork(ph, src).0.mem, CloneForFork(ph, src).1.value.pml4)
    ensures Uniform(CloneForFork(ph, src).0.mem, src.pml4)
  {
    var d := ph.free[0];
    assert d in ph.free;
    var c := CloneRun(ph, src, sn);
    var mem := CloneForFork(ph, src).0.mem;
    UniformReadsOnlyTree(ph.mem, mem, src.pml4, sn);
    CopyKeepsUniform(mem, src.pml4, sn, c);
  }

  lemma CopyKeepsUniform<F(!new)>(mem: Memory<F>, sroot: F, sn: Nodes<F>, c: Copy<F>)
    requires CopyOk(mem, sn, c) && AllDone(mem, c) && c.of[c.root] == sroot && Uniform(mem, sroot)
    ensures Uniform(mem, c.root)
  {
    forall p: Path, k: nat | p.InRange() && 2 <= k <= 4 ensures UniformAt(mem, c.root, p, k) {
      assert UniformAt(mem, sroot, p, k);
      WalksMirror(mem, sroot, sn, c, p, k);
      var at := TableAt(mem, c.root, p, k);
      if at.Some? {
        assert SlotDone(mem, c, at.value, p.Index(k));
      }
    }
  }
}
