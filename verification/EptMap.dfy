/** `new`, `map_4k` and `remap_4k` as updates of a plain map from pages to mappings: each changes the
    translation of one page and nothing else, keeps the tree invariant, and leaves every frame of
    other tables alone. Also what a `map_4k` that runs out of frames leaves behind. */
module EptMap {
  import opened EptTable
  import opened EptTree
  import opened Options

  ghost predicate NoDup<F>(s: seq<F>) {
    forall i, j :: 0 <= i < j < |s| ==> s[i] != s[j]
  }

  /** The allocator's frames exist and are listed once. */
  ghost predicate PoolOk<F>(ph: Phys<F>) {
    NoDup(ph.free) && forall f :: f in ph.free ==> f in ph.mem
  }

  /** The table is a tree over exactly the frames it lists, each listed once and none of them free. */
  ghost predicate Owned<F(!new)>(ph: Phys<F>, tbl: Table<F>, ns: Nodes<F>) {
    && Tree(ph.mem, tbl.pml4, ns)
    && NoDup(tbl.frames) && (forall f :: f in tbl.frames <==> f in ns)
    && forall f :: f in ph.free ==> f !in ns
  }

  /** What an operation on one table may do to the rest of memory: consume a prefix of the free list,
      grow the table by frames from it, and write only frames that were the table's or free. */
  ghost predicate Grown<F>(ph: Phys<F>, ns: Nodes<F>, ph': Phys<F>, ns': Nodes<F>) {
    && |ph'.free| <= |ph.free| && ph'.free == ph.free[|ph.free| - |ph'.free|..]
    && ns.Keys <= ns'.Keys
    && (forall f :: f in ns' ==> f in ns || f in ph.free)
    && ph'.mem.Keys == ph.mem.Keys
    && forall f :: f in ph.mem && f !in ns && f !in ph.free ==> ph'.mem[f] == ph.mem[f]
  }

  lemma GrownTransitive<F>(ph: Phys<F>, ns: Nodes<F>, ph1: Phys<F>, ns1: Nodes<F>, ph2: Phys<F>, ns2: Nodes<F>)
    requires Grown(ph, ns, ph1, ns1) && Grown(ph1, ns1, ph2, ns2)
    ensures Grown(ph, ns, ph2, ns2)
  {
    assert forall f :: f in ph1.free ==> f in ph.free;
  }

  ghost predicate SameTranslations<F>(mem: Memory<F>, mem': Memory<F>, root: F) {
    forall p: Path :: p.InRange() ==> Translate(mem', root, p) == Translate(mem, root, p)
  }

  // new

  lemma NewTableIsEmpty<F(!new)>(ph: Phys<F>) returns (ns: Nodes<F>)
    requires PoolOk(ph)
    ensures NewTable(ph).1.Some? <==> ph.free != []
    ensures NewTable(ph).1.Some? ==>
      && Owned(NewTable(ph).0, NewTable(ph).1.value, ns) && PoolOk(NewTable(ph).0) &&
        Grown(ph, map[], NewTable(ph).0, ns)
      && forall p: Path :: p.InRange() ==> Translate(NewTable(ph).0.mem, NewTable(ph).1.value.pml4, p) == None
  {
    ns := map[];
    if ph.free != [] {
      var f := ph.free[0];
      ns := map[f := Node(4, f, 0)];
      var mem := NewTable(ph).0.mem;
      forall p: Path | p.InRange() ensures Translate(mem, f, p) == None {
        assert TableAt(mem, f, p, 4) == Some(f);
        assert TableAt(mem, f, p, 3) == None;
        assert TableAt(mem, f, p, 2) == None;
        assert TableAt(mem, f, p, 1) == None;
      }
    }
  }

  // ensure_table

  lemma EnsureTableLinks<F(!new)>(ph: Phys<F>, tbl: Table<F>, ns: Nodes<F>, t: F, i: nat, perms: Perms)
    returns (ns': Nodes<F>)
    requires PoolOk(ph) && Owned(ph, tbl, ns) && perms.Any()
    requires t in ns && ns[t].level > 1 && i < 512
    ensures var r := EnsureTable(ph, tbl, t, i, perms);
      && Owned(r.ph, r.tbl, ns') && PoolOk(r.ph) && Grown(ph, ns, r.ph, ns') && r.tbl.pml4 == tbl.pml4
      && (r.next.Some? ==> Slot(r.ph.mem, t, i).Present? && Slot(r.ph.mem, t, i).frame == r.next.value)
      && (r.next.None? <==> Slot(ph.mem, t, i).Absent? && ph.free == [])
      && |ph.free| - |r.ph.free| == (if Slot(ph.mem, t, i).Absent? && ph.free != [] then 1 else 0)
      && (AllAttached(ns) ==> AllAttached(ns'))
  {
    ns' := ns;
    if Slot(ph.mem, t, i).Absent? && ph.free != [] {
      var f := ph.free[0];
      assert f in ph.free;
      LinkKeepsTree(ph.mem, tbl.pml4, ns, t, i, f, perms);
      ns' := LinkedNodes(ns, t, i, f);
    }
  }

  lemma EnsureTableMovesNothing<F(!new)>(ph: Phys<F>, tbl: Table<F>, ns: Nodes<F>, t: F, i: nat, perms: Perms, p: Path,
        k: nat)
    requires PoolOk(ph) && Owned(ph, tbl, ns) && perms.Any()
    requires t in ns && ns[t].level > 1 && i < 512 && p.InRange() && 1 <= k <= 4
    ensures var mem' := EnsureTable(ph, tbl, t, i, perms).ph.mem;
      && Translate(mem', tbl.pml4, p) == Translate(ph.mem, tbl.pml4, p)
      && (TableAt(ph.mem, tbl.pml4, p, k).Some? ==> TableAt(mem', tbl.pml4, p, k) == TableAt(ph.mem, tbl.pml4, p, k))
  {
    if Slot(ph.mem, t, i).Absent? && ph.free != [] {
      var f := ph.free[0];
      assert f in ph.free;
      LinkKeepsTranslations(ph.mem, tbl.pml4, ns, t, i, f, perms, p);
      LinkExtendsWalk(ph.mem, tbl.pml4, ns, t, i, f, perms, p, k);
    }
  }

  // map_4k

  /** How many of the three tables below the PML4 are missing on path `p`. */
  function MissingTables<F(==)>(mem: Memory<F>, root: F, p: Path, k: nat): nat
    requires 1 <= k <= 4
    decreases 4 - k
  {
    if TableAt(mem, root, p, k).Some? then 0 else if k == 4 then 0 else 1 + MissingTables(mem, root, p, k + 1)
  }

  ghost predicate EnsuredPath<F(!new)>(ph: Phys<F>, tbl: Table<F>, ns: Nodes<F>, p: Path, k: nat, r: Ensured<F>,
        ns': Nodes<F>)
    requires 1 <= k <= 4
  {
    && Owned(r.ph, r.tbl, ns') && PoolOk(r.ph) && Grown(ph, ns, r.ph, ns') && r.tbl.pml4 == tbl.pml4
    && (r.next.Some? ==> TableAt(r.ph.mem, tbl.pml4, p, k) == r.next)
    && SameTranslations(ph.mem, r.ph.mem, tbl.pml4) && (AllAttached(ns) ==> AllAttached(ns'))
  }

  lemma {:induction false} EnsurePathReaches<F(!new)>(ph: Phys<F>, tbl: Table<F>, ns: Nodes<F>, p: Path, perms: Perms,
        k: nat)
    returns (ns': Nodes<F>)
    requires PoolOk(ph) && Owned(ph, tbl, ns) && perms.Any() && p.InRange() && 1 <= k <= 4
    ensures EnsuredPath(ph, tbl, ns, p, k, EnsurePath(ph, tbl, p, perms, k), ns')
    decreases 4 - k
  {
    if k == 4 {
      ns' := ns;
    } else {
      var ns1 := EnsurePathReaches(ph, tbl, ns, p, perms, k + 1);
      var up := EnsurePath(ph, tbl, p, perms, k + 1);
      if up.next.None? {
        ns' := ns1;
      } else {
        ns' := EnsurePathStep(ph, tbl, ns, p, perms, k, up, ns1, EnsurePath(ph, tbl, p, perms, k));
      }
    }
  }

  lemma EnsureTableKeepsTranslations<F(!new)>(ph: Phys<F>, tbl: Table<F>, ns: Nodes<F>, t: F, i: nat, perms: Perms,
        from: Memory<F>)
    requires PoolOk(ph) && Owned(ph, tbl, ns) && perms.Any() && t in ns && ns[t].level > 1 && i < 512
    requires SameTranslations(from, ph.mem, tbl.pml4)
    ensures SameTranslations(from, EnsureTable(ph, tbl, t, i, perms).ph.mem, tbl.pml4)
  {
    forall q: Path | q.InRange()
      ensures Translate(EnsureTable(ph, tbl, t, i, perms).ph.mem, tbl.pml4, q) == Translate(from, tbl.pml4, q)
    {
      EnsureTableMovesNothing(ph, tbl, ns, t, i, perms, q, 1);
    }
  }

  /** The walk goes one level further through a present entry. */
  lemma WalkContinues<F(!new)>(mem: Memory<F>, root: F, p: Path, k: nat, t: F, f: F)
    requires 1 <= k < 4 && p.InRange() && TableAt(mem, root, p, k + 1) == Some(t)
    requires Slot(mem, t, p.Index(k + 1)).Present? && Slot(mem, t, p.Index(k + 1)).frame == f
    ensures TableAt(mem, root, p, k) == Some(f)
  {}

  lemma EnsureTableReaches<F(!new)>(ph: Phys<F>, tbl: Table<F>, ns: Nodes<F>, p: Path, perms: Perms, k: nat, t: F,
        r: Ensured<F>)
    requires PoolOk(ph) && Owned(ph, tbl, ns) && perms.Any() && p.InRange() && 1 <= k < 4
    requires TableAt(ph.mem, tbl.pml4, p, k + 1) == Some(t) && t in ns && ns[t].level == k + 1
    requires r == EnsureTable(ph, tbl, t, p.Index(k + 1), perms)
    ensures r.next.Some? ==> TableAt(r.ph.mem, tbl.pml4, p, k) == r.next
  {
    EnsureTableMovesNothing(ph, tbl, ns, t, p.Index(k + 1), perms, p, k + 1);
    var _ := EnsureTableLinks(ph, tbl, ns, t, p.Index(k + 1), perms);
    if r.next.Some? {
      WalkContinues(r.ph.mem, tbl.pml4, p, k, t, r.next.value);
    }
  }

  lemma EnsurePathStep<F(!new)>(ph: Phys<F>, tbl: Table<F>, ns: Nodes<F>, p: Path, perms: Perms, k: nat, up: Ensured<F>,
        ns1: Nodes<F>, r: Ensured<F>)
    returns (ns': Nodes<F>)
    requires perms.Any() && p.InRange() && 1 <= k < 4
    requires EnsuredPath(ph, tbl, ns, p, k + 1, up, ns1) && up.next.Some?
    requires r == EnsureTable(up.ph, up.tbl, up.next.value, p.Index(k + 1), perms)
    ensures EnsuredPath(ph, tbl, ns, p, k, r, ns')
  {
    var t, i := up.next.value, p.Index(k + 1);
    TableAtInTree(up.ph.mem, tbl.pml4, ns1, p, k + 1);
    EnsureTableReaches(up.ph, up.tbl, ns1, p, perms, k, t, r);
    EnsureTableKeepsTranslations(up.ph, up.tbl, ns1, t, i, perms, ph.mem);
    ns' := EnsureTableLinks(up.ph, up.tbl, ns1, t, i, perms);
    GrownTransitive(ph, ns, up.ph, ns1, r.ph, ns');
  }

  lemma PathTableInTree<F(!new)>(ph: Phys<F>, tbl: Table<F>, ns: Nodes<F>, p: Path, perms: Perms, k: nat)
    returns (ns': Nodes<F>)
    requires PoolOk(ph) && Owned(ph, tbl, ns) && perms.Any() && p.InRange() && 1 <= k <= 4
    ensures var r := EnsurePath(ph, tbl, p, perms, k);
      && Owned(r.ph, r.tbl, ns') && PoolOk(r.ph) && r.tbl.pml4 == tbl.pml4
      && (r.next.Some? ==>
            && r.next.value in ns' && ns'[r.next.value].level == k
            && r.next.value in r.ph.mem && r.next.value !in r.ph.free)
  {
    ns' := EnsurePathReaches(ph, tbl, ns, p, perms, k);
    TableAtInTree(EnsurePath(ph, tbl, p, perms, k).ph.mem, tbl.pml4, ns', p, k);
  }

  // Without any permission every entry written reads back as absent

  /** What following path `p` down to level `k` does when it has to create tables it cannot link. */
  ghost predicate Detached<F(!new)>(ph: Phys<F>, tbl: Table<F>, ns: Nodes<F>, r: Ensured<F>, ns': Nodes<F>) {
    && Owned(r.ph, r.tbl, ns') && PoolOk(r.ph) && Grown(ph, ns, r.ph, ns') && r.tbl.pml4 == tbl.pml4
    && AgreeOn(ph.mem, r.ph.mem, ns.Keys)
    && (r.next.Some? ==>
      r.next.value in ns' && r.next.value !in ns && forall j: nat :: Slot(r.ph.mem, r.next.value, j) == Absent)
  }

  lemma EnsureTableDetaches<F(!new)>(ph: Phys<F>, tbl: Table<F>, ns: Nodes<F>, t: F, i: nat, r: Ensured<F>)
    returns (ns': Nodes<F>)
    requires PoolOk(ph) && Owned(ph, tbl, ns) && t in ns && i < 512 && Slot(ph.mem, t, i) == Absent
    requires r == EnsureTable(ph, tbl, t, i, NO_PERMS)
    ensures Detached(ph, tbl, ns, r, ns')
  {
    ns' := ns;
    if ph.free != [] {
      var f := ph.free[0];
      assert f in ph.free;
      ns' := ns[f := Node(0, f, 0)];
      DetachedKeepsTree(ph.mem, tbl.pml4, ns, f);
      WriteAbsent(ph.mem[f := ZeroFrame()], t, i);
    }
  }

  lemma DetachedTransitive<F(!new)>(ph: Phys<F>, tbl: Table<F>, ns: Nodes<F>, r1: Ensured<F>, ns1: Nodes<F>,
        r2: Ensured<F>, ns2: Nodes<F>)
    requires Detached(ph, tbl, ns, r1, ns1) && Detached(r1.ph, r1.tbl, ns1, r2, ns2)
    ensures Detached(ph, tbl, ns, r2, ns2)
  {
    GrownTransitive(ph, ns, r1.ph, ns1, r2.ph, ns2);
  }

  /** Tables on the path are found; from the first missing one on, frames are taken and left detached. */
  lemma {:induction false} EnsurePathDetaches<F(!new)>(ph: Phys<F>, tbl: Table<F>, ns: Nodes<F>, p: Path, k: nat)
    returns (ns': Nodes<F>)
    requires PoolOk(ph) && Owned(ph, tbl, ns) && p.InRange() && 1 <= k <= 4
    ensures var r, at := EnsurePath(ph, tbl, p, NO_PERMS, k), TableAt(ph.mem, tbl.pml4, p, k);
      if at.Some? then r == Ensured(ph, tbl, at) && ns' == ns else Detached(ph, tbl, ns, r, ns')
    decreases 4 - k
  {
    ns' := ns;
    if k < 4 {
      var ns1 := EnsurePathDetaches(ph, tbl, ns, p, k + 1);
      var up := EnsurePath(ph, tbl, p, NO_PERMS, k + 1);
      TableAtInTree(ph.mem, tbl.pml4, ns, p, k + 1);
      if TableAt(ph.mem, tbl.pml4, p, k).None? {
        ns' := ns1;
        if up.next.Some? {
          ns' := DetachStep(ph, tbl, ns, p, k, up, ns1, EnsurePath(ph, tbl, p, NO_PERMS, k));
        }
      }
    }
  }

  lemma DetachStep<F(!new)>(ph: Phys<F>, tbl: Table<F>, ns: Nodes<F>, p: Path, k: nat, up: Ensured<F>, ns1: Nodes<F>,
        r: Ensured<F>)
    returns (ns': Nodes<F>)
    requires PoolOk(ph) && Owned(ph, tbl, ns) && p.InRange() && 1 <= k < 4 && TableAt(ph.mem, tbl.pml4, p, k).None?
    requires var at := TableAt(ph.mem, tbl.pml4, p, k + 1);
      if at.Some? then up == Ensured(ph, tbl, at) && ns1 == ns && at.value in ns else Detached(ph, tbl, ns, up, ns1)
    requires up.next.Some? && r == EnsureTable(up.ph, up.tbl, up.next.value, p.Index(k + 1), NO_PERMS)
    ensures Detached(ph, tbl, ns, r, ns')
  {
    ns' := EnsureTableDetaches(up.ph, up.tbl, ns1, up.next.value, p.Index(k + 1), r);
    if TableAt(ph.mem, tbl.pml4, p, k + 1).None? {
      DetachedTransitive(ph, tbl, ns, up, ns1, r, ns');
    }
  }

  /** A successful call without permissions unmaps its page; the frames it took stay with the table. */
  lemma Map4kUnmaps<F(!new)>(ph: Phys<F>, tbl: Table<F>, ns: Nodes<F>, g: Path, host: F) returns (ns': Nodes<F>)
    requires PoolOk(ph) && Owned(ph, tbl, ns) && g.InRange()
    ensures Mapped4k(ph, tbl, ns, g, host, NO_PERMS, Map4k(ph, tbl, g, host, NO_PERMS), ns')
  {
    ns' := EnsurePathDetaches(ph, tbl, ns, g, 1);
    var at := TableAt(ph.mem, tbl.pml4, g, 1);
    if at.Some? {
      TableAtInTree(ph.mem, tbl.pml4, ns, g, 1);
      LeafWritten(ph, tbl, ns, at.value, g, host, NO_PERMS);
    } else {
      var e := EnsurePath(ph, tbl, g, NO_PERMS, 1);
      if e.next.Some? {
        WriteAbsent(e.ph.mem, e.next.value, g.Index(1));
      }
      DetachedMaps(ph, tbl, ns, g, host, e, ns');
    }
  }

  lemma DetachedMaps<F(!new)>(ph: Phys<F>, tbl: Table<F>, ns: Nodes<F>, g: Path, host: F, e: Ensured<F>, ns': Nodes<F>)
    requires Tree(ph.mem, tbl.pml4, ns) && g.InRange() && Detached(ph, tbl, ns, e, ns')
    requires TableAt(ph.mem, tbl.pml4, g, 1).None?
    ensures Mapped4k(ph, tbl, ns, g, host, NO_PERMS, Mapped(e.ph, e.tbl, e.next.Some?), ns')
  {
    forall p: Path | p.InRange() ensures Translate(e.ph.mem, tbl.pml4, p) == Translate(ph.mem, tbl.pml4, p) {
      TranslateReadsOnlyTree(ph.mem, e.ph.mem, tbl.pml4, ns, p);
    }
  }

  // Any permissions

  /** The effect of `map_4k`: the page map changes at `g` alone, or not at all. */
  ghost predicate Mapped4k<F(!new)>(ph: Phys<F>, tbl: Table<F>, ns: Nodes<F>, g: Path, host: F, perms: Perms,
        r: Mapped<F>, ns': Nodes<F>) {
    && Owned(r.ph, r.tbl, ns') && PoolOk(r.ph) && Grown(ph, ns, r.ph, ns') && r.tbl.pml4 == tbl.pml4
    && (perms.Any() && AllAttached(ns) ==> AllAttached(ns'))
    && forall p: Path :: p.InRange() ==>
      Translate(r.ph.mem, tbl.pml4, p) == if r.ok && p == g then Leaf(host, perms) else Translate(ph.mem, tbl.pml4, p)
  }

  lemma LeafWritten<F(!new)>(ph: Phys<F>, tbl: Table<F>, ns: Nodes<F>, t: F, g: Path, host: F, perms: Perms)
    requires PoolOk(ph) && Owned(ph, tbl, ns) && g.InRange() && TableAt(ph.mem, tbl.pml4, g, 1) == Some(t) && t in ns
    requires ns[t].level == 1
    ensures var ph' := Phys(Write(ph.mem, t, g.pt, Written(host, perms)), ph.free);
      && Owned(ph', tbl, ns) && PoolOk(ph') && Grown(ph, ns, ph', ns)
      && forall p: Path :: p.InRange() ==>
        Translate(ph'.mem, tbl.pml4, p) == if p == g then Leaf(host, perms) else Translate(ph.mem, tbl.pml4, p)
  {
    var mem' := Write(ph.mem, t, g.pt, Written(host, perms));
    LeafKeepsTree(ph.mem, tbl.pml4, ns, t, g.pt, Written(host, perms));
    forall p: Path | p.InRange()
      ensures Translate(mem', tbl.pml4, p) == if p == g then Leaf(host, perms) else Translate(ph.mem, tbl.pml4, p)
    {
      LeafChangesOnePage(ph.mem, tbl.pml4, ns, t, g, host, perms, p);
    }
  }

  lemma Map4kLinks<F(!new)>(ph: Phys<F>, tbl: Table<F>, ns: Nodes<F>, g: Path, host: F, perms: Perms)
    returns (ns': Nodes<F>)
    requires PoolOk(ph) && Owned(ph, tbl, ns) && perms.Any() && g.InRange()
    ensures Mapped4k(ph, tbl, ns, g, host, perms, Map4k(ph, tbl, g, host, perms), ns')
  {
    ns' := EnsurePathReaches(ph, tbl, ns, g, perms, 1);
    LinkedMaps(ph, tbl, ns, g, host, perms, EnsurePath(ph, tbl, g, perms, 1), Map4k(ph, tbl, g, host, perms), ns');
  }

  lemma LinkedMaps<F(!new)>(ph: Phys<F>, tbl: Table<F>, ns: Nodes<F>, g: Path, host: F, perms: Perms, e: Ensured<F>,
        r: Mapped<F>, ns': Nodes<F>)
    requires g.InRange() && EnsuredPath(ph, tbl, ns, g, 1, e, ns') && r.tbl == e.tbl && (r.ok <==> e.next.Some?)
    requires r.ph == if r.ok then Phys(Write(e.ph.mem, e.next.value, g.pt, Written(host, perms)), e.ph.free) else e.ph
    ensures Mapped4k(ph, tbl, ns, g, host, perms, r, ns')
  {
    if r.ok {
      TableAtInTree(e.ph.mem, tbl.pml4, ns', g, 1);
      LeafWritten(e.ph, e.tbl, ns', e.next.value, g, host, perms);
      GrownTransitive(ph, ns, e.ph, ns', r.ph, ns');
    }
  }

  /** Main result for `map_4k`, for any permissions: on success the page map changes at `g` alone, to the
      new mapping or, without any permission, to none; on running out of frames at any level no
      translation changes. Either way the table stays well formed and other tables' frames are
      untouched. */
  lemma Map4kUpdatesOnePage<F(!new)>(ph: Phys<F>, tbl: Table<F>, ns: Nodes<F>, g: Path, host: F, perms: Perms)
    returns (ns': Nodes<F>)
    requires PoolOk(ph) && Owned(ph, tbl, ns) && g.InRange()
    ensures Mapped4k(ph, tbl, ns, g, host, perms, Map4k(ph, tbl, g, host, perms), ns')
  {
    if perms.Any() {
      ns' := Map4kLinks(ph, tbl, ns, g, host, perms);
    } else {
      ns' := Map4kUnmaps(ph, tbl, ns, g, host);
    }
  }

  // Running out of frames

  /** Creating a path costs one frame per missing table, and a created table starts empty. */
  ghost predicate PathCost<F>(ph: Phys<F>, tbl: Table<F>, p: Path, perms: Perms, k: nat)
    requires 1 <= k <= 4
  {
    var r, at := EnsurePath(ph, tbl, p, perms, k), TableAt(ph.mem, tbl.pml4, p, k);
    var missing := MissingTables(ph.mem, tbl.pml4, p, k);
    if at.Some? then r == Ensured(ph, tbl, at)
    else
      && (r.next.Some? <==> missing <= |ph.free|)
      && (r.next.Some? ==>
        |r.ph.free| == |ph.free| - missing && forall j: nat :: Slot(r.ph.mem, r.next.value, j).Absent?)
  }

  lemma EnsureTableCost<F(!new)>(ph: Phys<F>, tbl: Table<F>, t: F, i: nat, perms: Perms)
    requires t !in ph.free && Slot(ph.mem, t, i).Absent?
    ensures var r := EnsureTable(ph, tbl, t, i, perms);
      && (r.next.Some? <==> ph.free != [])
      && (r.next.Some? ==> |r.ph.free| == |ph.free| - 1 && forall j: nat :: Slot(r.ph.mem, r.next.value, j).Absent?)
  {
    if ph.free != [] {
      assert ph.free[0] in ph.free;
    }
  }

  /** One level further down, where the table is missing. */
  lemma PathCostStep<F(!new)>(ph: Phys<F>, tbl: Table<F>, p: Path, perms: Perms, k: nat, up: Ensured<F>)
    requires 1 <= k < 4 && PathCost(ph, tbl, p, perms, k + 1) && up == EnsurePath(ph, tbl, p, perms, k + 1)
    requires TableAt(ph.mem, tbl.pml4, p, k).None?
    requires up.next.Some? ==> up.next.value !in up.ph.free
    ensures PathCost(ph, tbl, p, perms, k)
  {
    if up.next.Some? {
      EnsureTableCost(up.ph, up.tbl, up.next.value, p.Index(k + 1), perms);
    }
  }

  lemma PathCostFound<F(!new)>(ph: Phys<F>, tbl: Table<F>, p: Path, perms: Perms, k: nat)
    requires 1 <= k < 4 && PathCost(ph, tbl, p, perms, k + 1) && TableAt(ph.mem, tbl.pml4, p, k).Some?
    ensures PathCost(ph, tbl, p, perms, k)
  {}

  lemma PathTableIsOwn<F(!new)>(ph: Phys<F>, tbl: Table<F>, ns: Nodes<F>, p: Path, perms: Perms, k: nat)
    requires PoolOk(ph) && Owned(ph, tbl, ns) && p.InRange() && 1 <= k <= 4
    ensures var r := EnsurePath(ph, tbl, p, perms, k);
      PoolOk(r.ph) && (r.next.Some? ==> r.next.value in r.ph.mem && r.next.value !in r.ph.free)
  {
    if perms.Any() {
      var _ := PathTableInTree(ph, tbl, ns, p, perms, k);
    } else {
      var _ := EnsurePathDetaches(ph, tbl, ns, p, k);
      TableAtInTree(ph.mem, tbl.pml4, ns, p, k);
    }
  }

  lemma {:induction false} EnsurePathCost<F(!new)>(ph: Phys<F>, tbl: Table<F>, ns: Nodes<F>, p: Path, perms: Perms,
        k: nat)
    requires PoolOk(ph) && Owned(ph, tbl, ns) && p.InRange() && 1 <= k <= 4
    ensures PathCost(ph, tbl, p, perms, k)
    decreases 4 - k
  {
    if k < 4 {
      EnsurePathCost(ph, tbl, ns, p, perms, k + 1);
      if TableAt(ph.mem, tbl.pml4, p, k).Some? {
        PathCostFound(ph, tbl, p, perms, k);
      } else {
        PathCostMissing(ph, tbl, ns, p, perms, k);
      }
    }
  }

  lemma PathCostMissing<F(!new)>(ph: Phys<F>, tbl: Table<F>, ns: Nodes<F>, p: Path, perms: Perms, k: nat)
    requires PoolOk(ph) && Owned(ph, tbl, ns) && p.InRange() && 1 <= k < 4
    requires PathCost(ph, tbl, p, perms, k + 1) && TableAt(ph.mem, tbl.pml4, p, k).None?
    ensures PathCost(ph, tbl, p, perms, k)
  {
    PathTableIsOwn(ph, tbl, ns, p, perms, k + 1);
    PathCostStep(ph, tbl, p, perms, k, EnsurePath(ph, tbl, p, perms, k + 1));
  }

  /** `map_4k` fails exactly when the pool holds fewer frames than the path is missing tables. */
  lemma Map4kFailsExactly<F(!new)>(ph: Phys<F>, tbl: Table<F>, ns: Nodes<F>, g: Path, host: F, perms: Perms)
    requires PoolOk(ph) && Owned(ph, tbl, ns) && g.InRange()
    ensures Map4k(ph, tbl, g, host, perms).ok <==> MissingTables(ph.mem, tbl.pml4, g, 1) <= |ph.free|
  {
    EnsurePathCost(ph, tbl, ns, g, perms, 1);
  }

  /** A failed `map_4k` leaves no path longer to create. */
  lemma {:induction false} FailureAddsNothingMissing<F(!new)>(ph: Phys<F>, tbl: Table<F>, ns: Nodes<F>, p: Path,
        perms: Perms, j: nat, k: nat)
    requires PoolOk(ph) && Owned(ph, tbl, ns) && p.InRange() && 1 <= j <= 4 && 1 <= k <= 4
    ensures MissingTables(EnsurePath(ph, tbl, p, perms, j).ph.mem, tbl.pml4, p, k) <=
      MissingTables(ph.mem, tbl.pml4, p, k)
    decreases 4 - k
  {
    if perms.Any() {
      EnsurePathKeepsWalks(ph, tbl, ns, p, perms, j, EnsurePath(ph, tbl, p, perms, j));
    } else {
      DetachingKeepsFound(ph, tbl, ns, p, j, k);
    }
    if k < 4 {
      FailureAddsNothingMissing(ph, tbl, ns, p, perms, j, k + 1);
    }
  }

  /** Every table a walk reaches is still reached. */
  ghost predicate KeepsWalks<F>(mem: Memory<F>, mem': Memory<F>, root: F) {
    forall p: Path, k: nat :: p.InRange() && 1 <= k <= 4 && TableAt(mem, root, p, k).Some? ==>
      TableAt(mem', root, p, k) == TableAt(mem, root, p, k)
  }

  lemma KeepsWalksTransitive<F>(mem: Memory<F>, mem1: Memory<F>, mem2: Memory<F>, root: F)
    requires KeepsWalks(mem, mem1, root) && KeepsWalks(mem1, mem2, root)
    ensures KeepsWalks(mem, mem2, root)
  {}

  lemma {:induction false} EnsurePathKeepsWalks<F(!new)>(ph: Phys<F>, tbl: Table<F>, ns: Nodes<F>, p: Path,
        perms: Perms, j: nat, r: Ensured<F>)
    requires PoolOk(ph) && Owned(ph, tbl, ns) && perms.Any() && p.InRange() && 1 <= j <= 4
    requires r == EnsurePath(ph, tbl, p, perms, j)
    ensures KeepsWalks(ph.mem, r.ph.mem, tbl.pml4)
    decreases 4 - j
  {
    if j < 4 {
      var up := EnsurePath(ph, tbl, p, perms, j + 1);
      EnsurePathKeepsWalks(ph, tbl, ns, p, perms, j + 1, up);
      if up.next.Some? { EnsurePathKeepsWalksStep(ph, tbl, ns, p, perms, j, up, r); }
    }
  }

  lemma EnsurePathKeepsWalksStep<F(!new)>(ph: Phys<F>, tbl: Table<F>, ns: Nodes<F>, p: Path, perms: Perms, j: nat,
                                          up: Ensured<F>, r: Ensured<F>)
    requires PoolOk(ph) && Owned(ph, tbl, ns) && perms.Any() && p.InRange() && 1 <= j < 4
    requires up == EnsurePath(ph, tbl, p, perms, j + 1) && up.next.Some?
    requires r == EnsureTable(up.ph, up.tbl, up.next.value, p.Index(j + 1), perms)
    requires KeepsWalks(ph.mem, up.ph.mem, tbl.pml4)
    ensures KeepsWalks(ph.mem, r.ph.mem, tbl.pml4)
  {
    var ns1 := PathTableInTree(ph, tbl, ns, p, perms, j + 1);
    EnsureTableKeepsWalks(up, ns1, tbl.pml4, p.Index(j + 1), perms, r);
    KeepsWalksTransitive(ph.mem, up.ph.mem, r.ph.mem, tbl.pml4);
  }

  lemma EnsureTableKeepsWalks<F(!new)>(up: Ensured<F>, ns: Nodes<F>, root: F, i: nat, perms: Perms, r: Ensured<F>)
    requires PoolOk(up.ph) && Owned(up.ph, up.tbl, ns) && up.tbl.pml4 == root && perms.Any()
    requires up.next.Some? && up.next.value in ns && ns[up.next.value].level > 1 && i < 512
    requires r == EnsureTable(up.ph, up.tbl, up.next.value, i, perms)
    ensures KeepsWalks(up.ph.mem, r.ph.mem, root)
  {
    forall p: Path, k: nat | p.InRange() && 1 <= k <= 4 && TableAt(up.ph.mem, root, p, k).Some?
      ensures TableAt(r.ph.mem, root, p, k) == TableAt(up.ph.mem, root, p, k)
    {
      EnsureTableMovesNothing(up.ph, up.tbl, ns, up.next.value, i, perms, p, k);
    }
  }

  lemma DetachingKeepsFound<F(!new)>(ph: Phys<F>, tbl: Table<F>, ns: Nodes<F>, p: Path, j: nat, k: nat)
    requires PoolOk(ph) && Owned(ph, tbl, ns) && p.InRange() && 1 <= j <= 4 && 1 <= k <= 4
    ensures TableAt(EnsurePath(ph, tbl, p, NO_PERMS, j).ph.mem, tbl.pml4, p, k) == TableAt(ph.mem, tbl.pml4, p, k)
  {
    var _ := EnsurePathDetaches(ph, tbl, ns, p, j);
    WalkReadsOnlyTree(ph.mem, EnsurePath(ph, tbl, p, NO_PERMS, j).ph.mem, tbl.pml4, ns, p, k);
  }

  /** A failed `map_4k` retried with enough frames succeeds, and ends with the translations it would have
      had if the first attempt had never happened. Enough is what the path was missing at first. */
  lemma RetryForgetsFailure<F(!new)>(ph: Phys<F>, tbl: Table<F>, ns: Nodes<F>, g: Path, host: F, perms: Perms,
        more: seq<F>, p: Path)
    requires PoolOk(ph) && Owned(ph, tbl, ns) && g.InRange() && p.InRange()
    requires !Map4k(ph, tbl, g, host, perms).ok && MissingTables(ph.mem, tbl.pml4, g, 1) <= |more|
    requires NoDup(more) && forall f :: f in more ==> f in ph.mem && f !in Map4k(ph, tbl, g, host, perms).tbl.frames
    ensures var failed := Map4k(ph, tbl, g, host, perms);
      var retried := Map4k(Phys(failed.ph.mem, more), failed.tbl, g, host, perms);
      var direct := Map4k(Phys(ph.mem, more), tbl, g, host, perms);
      && retried.ok && direct.ok
      && Translate(retried.ph.mem, tbl.pml4, p) == Translate(direct.ph.mem, tbl.pml4, p)
  {
    var failed := Map4k(ph, tbl, g, host, perms);
    var ns1 := Map4kUpdatesOnePage(ph, tbl, ns, g, host, perms);
    FailureAddsNothingMissing(ph, tbl, ns, g, perms, 1, 1);
    RetrySucceeds(Phys(failed.ph.mem, more), failed.tbl, ns1, g, host, perms);
    RetrySucceeds(Phys(ph.mem, more), tbl, ns, g, host, perms);
    var ns2 := Map4kUpdatesOnePage(Phys(failed.ph.mem, more), failed.tbl, ns1, g, host, perms);
    var ns3 := Map4kUpdatesOnePage(Phys(ph.mem, more), tbl, ns, g, host, perms);
  }

  lemma RetrySucceeds<F(!new)>(ph: Phys<F>, tbl: Table<F>, ns: Nodes<F>, g: Path, host: F, perms: Perms)
    requires PoolOk(ph) && Owned(ph, tbl, ns) && g.InRange() && MissingTables(ph.mem, tbl.pml4, g, 1) <= |ph.free|
    ensures Map4k(ph, tbl, g, host, perms).ok
  {
    Map4kFailsExactly(ph, tbl, ns, g, host, perms);
  }

  // remap_4k

  /** Main result for `remap_4k`, for any permissions: it succeeds exactly on mapped pages, changes that
      page alone, and allocates nothing. */
  lemma Remap4kUpdatesMappedPage<F(!new)>(ph: Phys<F>, tbl: Table<F>, ns: Nodes<F>, g: Path, host: F, perms: Perms)
    requires PoolOk(ph) && Owned(ph, tbl, ns) && g.InRange()
    ensures var r := Remap4k(ph.mem, tbl.pml4, g, host, perms);
      && (r.1 <==> Translate(ph.mem, tbl.pml4, g).Some?)
      && Owned(Phys(r.0, ph.free), tbl, ns) && PoolOk(Phys(r.0, ph.free)) && Grown(ph, ns, Phys(r.0, ph.free), ns)
      && forall p: Path :: p.InRange() ==>
        Translate(r.0, tbl.pml4, p) == if r.1 && p == g then Leaf(host, perms) else Translate(ph.mem, tbl.pml4, p)
  {
    if Remap4k(ph.mem, tbl.pml4, g, host, perms).1 {
      TableAtInTree(ph.mem, tbl.pml4, ns, g, 1);
      LeafWritten(ph, tbl, ns, TableAt(ph.mem, tbl.pml4, g, 1).value, g, host, perms);
    }
  }
}
