/** The heap invariant of a page table: its frames form a tree in which every frame but the root is
    referenced by exactly one entry, and the lemmas saying which translations a write can change. */
module EptTree {
  import opened EptTable
  import opened Options

  /** Where a frame hangs in the tree: its level and the one entry that refers to it. A frame of level 0
      belongs to the table but no entry refers to it: it was allocated for a mapping without
      permissions. */
  datatype Node<F> = Node(level: nat, parent: F, index: nat)

  type Nodes<F(==)> = map<F, Node<F>>

  /** The tables of the tree, which are all the frames unless some are detached. */
  ghost function Attached<F>(ns: Nodes<F>): set<F> { set f | f in ns && ns[f].level > 0 }

  ghost predicate AllAttached<F>(ns: Nodes<F>) { forall f :: f in ns ==> ns[f].level > 0 }

  ghost predicate Shaped<F>(mem: Memory<F>, root: F, ns: Nodes<F>) {
    && root in ns && ns[root].level == 4
    && forall t :: t in ns ==> t in mem && |mem[t]| == 512 && ns[t].level <= 4
  }

  /** A present entry above level 1 refers to a frame that hangs exactly there. */
  ghost predicate EntryHangs<F>(mem: Memory<F>, ns: Nodes<F>, t: F, i: nat)
    requires t in ns
  {
    var e := Slot(mem, t, i);
    ns[t].level > 1 && e.Present? ==> e.frame in ns && ns[e.frame] == Node(ns[t].level - 1, t, i)
  }

  ghost predicate LinksDown<F(!new)>(mem: Memory<F>, ns: Nodes<F>) {
    forall t, i :: t in ns && 0 <= i < 512 ==> EntryHangs(mem, ns, t, i)
  }

  /** The entry a frame hangs from is present and refers to it. */
  ghost predicate HangsFromParent<F>(mem: Memory<F>, ns: Nodes<F>, c: F)
    requires c in ns
  {
    var n := ns[c];
    && n.parent in ns && n.index < 512 && ns[n.parent].level == n.level + 1
    && var e := Slot(mem, n.parent, n.index); e.Present? && e.frame == c
  }

  ghost predicate LinksUp<F(!new)>(mem: Memory<F>, root: F, ns: Nodes<F>) {
    forall c :: c in ns && c != root && ns[c].level > 0 ==> HangsFromParent(mem, ns, c)
  }

  ghost predicate Tree<F(!new)>(mem: Memory<F>, root: F, ns: Nodes<F>) {
    Shaped(mem, root, ns) && LinksDown(mem, ns) && LinksUp(mem, root, ns)
  }

  /** No two entries refer to the same table. */
  lemma EachTableReferencedOnce<F(!new)>(mem: Memory<F>, root: F, ns: Nodes<F>, t: F, i: nat, u: F, j: nat)
    requires Tree(mem, root, ns)
    requires t in ns && u in ns && i < 512 && j < 512 && ns[t].level > 1 && ns[u].level > 1
    requires Slot(mem, t, i).Present? && Slot(mem, u, j).Present?
    requires Slot(mem, t, i).frame == Slot(mem, u, j).frame
    ensures t == u && i == j
  {
    assert EntryHangs(mem, ns, t, i) && EntryHangs(mem, ns, u, j);
  }

  lemma {:induction false} TableAtInTree<F(!new)>(mem: Memory<F>, root: F, ns: Nodes<F>, p: Path, k: nat)
    requires Tree(mem, root, ns) && 1 <= k <= 4 && p.InRange()
    ensures TableAt(mem, root, p, k).Some? ==>
      TableAt(mem, root, p, k).value in ns && ns[TableAt(mem, root, p, k).value].level == k
    decreases 4 - k
  {
    if k < 4 {
      TableAtInTree(mem, root, ns, p, k + 1);
      var up := TableAt(mem, root, p, k + 1);
      if up.Some? {
        assert EntryHangs(mem, ns, up.value, p.Index(k + 1));
      }
    }
  }

  /** Paths that reach the same table of level `k` agree on the index just above it. */
  lemma SameTableSamePrefix<F(!new)>(mem: Memory<F>, root: F, ns: Nodes<F>, p: Path, q: Path, k: nat)
    requires Tree(mem, root, ns) && 1 <= k < 4 && p.InRange() && q.InRange()
    requires TableAt(mem, root, p, k).Some? && TableAt(mem, root, p, k) == TableAt(mem, root, q, k)
    ensures TableAt(mem, root, p, k + 1) == TableAt(mem, root, q, k + 1)
    ensures p.Index(k + 1) == q.Index(k + 1)
  {
    TableAtInTree(mem, root, ns, p, k + 1);
    TableAtInTree(mem, root, ns, q, k + 1);
    var t, u := TableAt(mem, root, p, k + 1).value, TableAt(mem, root, q, k + 1).value;
    assert EntryHangs(mem, ns, t, p.Index(k + 1));
    assert EntryHangs(mem, ns, u, q.Index(k + 1));
  }

  lemma SameTableSameIndices<F(!new)>(mem: Memory<F>, root: F, ns: Nodes<F>, p: Path, q: Path)
    requires Tree(mem, root, ns) && p.InRange() && q.InRange()
    requires TableAt(mem, root, p, 1).Some? && TableAt(mem, root, p, 1) == TableAt(mem, root, q, 1)
    ensures p.pml4 == q.pml4 && p.pdpt == q.pdpt && p.pd == q.pd
  {
    SameTableSamePrefix(mem, root, ns, p, q, 1);
    SameTableSamePrefix(mem, root, ns, p, q, 2);
    SameTableSamePrefix(mem, root, ns, p, q, 3);
  }

  // What the walk reads

  ghost predicate AgreeOn<F>(mem: Memory<F>, mem': Memory<F>, fs: set<F>) {
    forall t :: t in fs && t in mem ==> t in mem' && mem'[t] == mem[t]
  }

  /** The walk reads only the table's own frames. */
  lemma {:induction false} WalkReadsOnlyTree<F(!new)>(mem: Memory<F>, mem': Memory<F>, root: F, ns: Nodes<F>, p: Path,
        k: nat)
    requires Tree(mem, root, ns) && 1 <= k <= 4 && p.InRange()
    requires AgreeOn(mem, mem', ns.Keys)
    ensures TableAt(mem', root, p, k) == TableAt(mem, root, p, k)
    decreases 4 - k
  {
    if k < 4 {
      WalkReadsOnlyTree(mem, mem', root, ns, p, k + 1);
      TableAtInTree(mem, root, ns, p, k + 1);
    }
  }

  lemma TranslateReadsOnlyTree<F(!new)>(mem: Memory<F>, mem': Memory<F>, root: F, ns: Nodes<F>, p: Path)
    requires Tree(mem, root, ns) && p.InRange()
    requires AgreeOn(mem, mem', ns.Keys)
    ensures Translate(mem', root, p) == Translate(mem, root, p)
  {
    WalkReadsOnlyTree(mem, mem', root, ns, p, 1);
    TableAtInTree(mem, root, ns, p, 1);
  }

  lemma TreeReadsOnlyTree<F(!new)>(mem: Memory<F>, mem': Memory<F>, root: F, ns: Nodes<F>)
    requires Tree(mem, root, ns)
    requires AgreeOn(mem, mem', ns.Keys)
    ensures Tree(mem', root, ns)
  {
    forall t, i | t in ns && 0 <= i < 512 ensures EntryHangs(mem', ns, t, i) {
      assert EntryHangs(mem, ns, t, i);
    }
    forall c | c in ns && c != root && ns[c].level > 0 ensures HangsFromParent(mem', ns, c) {
      assert HangsFromParent(mem, ns, c);
    }
  }

  lemma WriteAbsent<F>(mem: Memory<F>, t: F, i: nat)
    requires Slot(mem, t, i) == Absent
    ensures Write(mem, t, i, Absent) == mem
  {
    if t in mem && i < |mem[t]| {
      assert mem[t][i := Absent] == mem[t];
    }
  }

  /** A fresh frame that no entry refers to moves nothing. */
  lemma DetachedKeepsTree<F(!new)>(mem: Memory<F>, root: F, ns: Nodes<F>, f: F)
    requires Tree(mem, root, ns) && f !in ns
    ensures Tree(mem[f := ZeroFrame()], root, ns[f := Node(0, f, 0)])
  {
    var mem', ns' := mem[f := ZeroFrame()], ns[f := Node(0, f, 0)];
    forall u, j | u in ns' && 0 <= j < 512 ensures EntryHangs(mem', ns', u, j) {
      if u in ns {
        assert EntryHangs(mem, ns, u, j);
      }
    }
    forall c | c in ns' && c != root && ns'[c].level > 0 ensures HangsFromParent(mem', ns', c) {
      assert HangsFromParent(mem, ns, c);
    }
  }

  // Linking a fresh, empty table

  /** `f` zeroed and hung from slot `i` of `t`. */
  ghost function LinkedMem<F>(mem: Memory<F>, t: F, i: nat, f: F, perms: Perms): Memory<F> {
    Write(mem[f := ZeroFrame()], t, i, Written(f, perms))
  }

  ghost function LinkedNodes<F>(ns: Nodes<F>, t: F, i: nat, f: F): Nodes<F>
    requires t in ns && ns[t].level > 1
  {
    ns[f := Node(ns[t].level - 1, t, i)]
  }

  ghost predicate CanLink<F(!new)>(mem: Memory<F>, root: F, ns: Nodes<F>, t: F, i: nat, f: F, perms: Perms) {
    && Tree(mem, root, ns) && t in ns && ns[t].level > 1 && i < 512 && Slot(mem, t, i).Absent?
    && f !in ns && perms.Any()
  }

  lemma LinkKeepsTree<F(!new)>(mem: Memory<F>, root: F, ns: Nodes<F>, t: F, i: nat, f: F, perms: Perms)
    requires CanLink(mem, root, ns, t, i, f, perms)
    ensures Tree(LinkedMem(mem, t, i, f, perms), root, LinkedNodes(ns, t, i, f))
  {
    var mem', ns' := LinkedMem(mem, t, i, f, perms), LinkedNodes(ns, t, i, f);
    forall u, j | u in ns' && 0 <= j < 512 ensures EntryHangs(mem', ns', u, j) {
      if u in ns && !(u == t && j == i) {
        assert EntryHangs(mem, ns, u, j);
      }
    }
    forall c | c in ns' && c != root && ns'[c].level > 0 ensures HangsFromParent(mem', ns', c) {
      if c != f {
        assert HangsFromParent(mem, ns, c);
      }
    }
  }

  lemma LinkedSlots<F>(mem: Memory<F>, t: F, i: nat, f: F, perms: Perms, u: F, j: nat)
    requires t in mem && i < |mem[t]| && t != f && perms.Any()
    ensures Slot(LinkedMem(mem, t, i, f, perms), u, j)
      == if u == f then Absent else if u == t && j == i then Present(f, perms) else Slot(mem, u, j)
  {}

  /** Linking an empty table moves no existing walk; it only lets some walks reach the new table. */
  lemma {:induction false} LinkExtendsWalk<F(!new)>(mem: Memory<F>, root: F, ns: Nodes<F>, t: F, i: nat, f: F,
        perms: Perms, p: Path, k: nat)
    requires CanLink(mem, root, ns, t, i, f, perms) && 1 <= k <= 4 && p.InRange()
    ensures var w, w' := TableAt(mem, root, p, k), TableAt(LinkedMem(mem, t, i, f, perms), root, p, k);
      if w.Some? then w' == w else w' == None || (w' == Some(f) && k == ns[t].level - 1)
    decreases 4 - k
  {
    if k < 4 {
      LinkExtendsWalk(mem, root, ns, t, i, f, perms, p, k + 1);
      TableAtInTree(mem, root, ns, p, k + 1);
      var w, w' := TableAt(mem, root, p, k + 1), TableAt(LinkedMem(mem, t, i, f, perms), root, p, k + 1);
      if w'.Some? {
        LinkedSlots(mem, t, i, f, perms, w'.value, p.Index(k + 1));
      }
    }
  }

  lemma LinkKeepsTranslations<F(!new)>(mem: Memory<F>, root: F, ns: Nodes<F>, t: F, i: nat, f: F, perms: Perms, p: Path)
    requires CanLink(mem, root, ns, t, i, f, perms) && p.InRange()
    ensures Translate(LinkedMem(mem, t, i, f, perms), root, p) == Translate(mem, root, p)
  {
    LinkExtendsWalk(mem, root, ns, t, i, f, perms, p, 1);
    TableAtInTree(mem, root, ns, p, 1);
  }

  // Writing a leaf

  lemma LeafKeepsTree<F(!new)>(mem: Memory<F>, root: F, ns: Nodes<F>, t: F, i: nat, e: Entry<F>)
    requires Tree(mem, root, ns) && t in ns && ns[t].level == 1 && i < 512
    ensures Tree(Write(mem, t, i, e), root, ns)
  {
    var mem' := Write(mem, t, i, e);
    forall u, j | u in ns && 0 <= j < 512 ensures EntryHangs(mem', ns, u, j) {
      assert EntryHangs(mem, ns, u, j);
    }
    forall c | c in ns && c != root && ns[c].level > 0 ensures HangsFromParent(mem', ns, c) {
      assert HangsFromParent(mem, ns, c);
    }
  }

  lemma {:induction false} LeafKeepsWalk<F(!new)>(mem: Memory<F>, root: F, ns: Nodes<F>, t: F, i: nat, e: Entry<F>,
        p: Path, k: nat)
    requires Tree(mem, root, ns) && t in ns && ns[t].level == 1 && i < 512 && 1 <= k <= 4 && p.InRange()
    ensures TableAt(Write(mem, t, i, e), root, p, k) == TableAt(mem, root, p, k)
    decreases 4 - k
  {
    if k < 4 {
      LeafKeepsWalk(mem, root, ns, t, i, e, p, k + 1);
      TableAtInTree(mem, root, ns, p, k + 1);
    }
  }

  /** A leaf write on path `g` changes the translation of `g` and of no other path. */
  lemma LeafChangesOnePage<F(!new)>(mem: Memory<F>, root: F, ns: Nodes<F>, t: F, g: Path, host: F, perms: Perms,
        p: Path)
    requires Tree(mem, root, ns) && TableAt(mem, root, g, 1) == Some(t)
    requires g.InRange() && p.InRange()
    ensures Translate(Write(mem, t, g.pt, Written(host, perms)), root, p)
      == if p == g then Leaf(host, perms) else Translate(mem, root, p)
  {
    TableAtInTree(mem, root, ns, g, 1);
    TableAtInTree(mem, root, ns, p, 1);
    LeafKeepsWalk(mem, root, ns, t, g.pt, Written(host, perms), p, 1);
    if TableAt(mem, root, p, 1) == Some(t) {
      SameTableSameIndices(mem, root, ns, p, g);
    }
  }
}
