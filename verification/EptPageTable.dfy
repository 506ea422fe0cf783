/** The page table as the code keeps it: 64-bit words in 4 KB frames, written in place through
    physical addresses. Each operation is proved to do to the words what its counterpart in
    `EptTable` does to their decoded form. */
module EptPageTable {
  import opened Addressing
  import opened EptEntry
  import opened EptTable
  import opened EptTree
  import opened EptMap
  import opened EptClone
  import opened Options

  /** The four indices of an address. */
  function PathOf(a: PhysAddr): (p: Path)
    ensures p.InRange()
  {
    Path(Index(a.raw, 4), Index(a.raw, 3), Index(a.raw, 2), Index(a.raw, 1))
  }

  /** A guest page, by its number: address bits 47:12. */
  datatype GuestPage = GuestPage(number: bv64)

  function PageOf(a: PhysAddr): GuestPage { GuestPage(PageNumber(a.raw)) }

  function BaseOf(g: GuestPage): PhysAddr { PhysAddr(PageBase(g.number)) }

  lemma PathsAndIndices(a: PhysAddr, b: PhysAddr)
    ensures PathOf(a) == PathOf(b) <==> SamePath(a.raw, b.raw)
  {
    var p, q := PathOf(a), PathOf(b);
    assert p == q <==> p.pml4 == q.pml4 && p.pdpt == q.pdpt && p.pd == q.pd && p.pt == q.pt;
  }

  /** Addresses share a path exactly when they share bits 47:12. */
  lemma SamePathIffSamePageNumber(a: PhysAddr, b: PhysAddr)
    ensures PathOf(a) == PathOf(b) <==> PageOf(a) == PageOf(b)
  {
    PathsAndIndices(a, b);
    SamePathIffSamePage(a.raw, b.raw);
  }

  // Decoding words

  function DecodePerms(bits: PermBits): Perms { Perms(bits & 1 != 0, bits & 2 != 0, bits & 4 != 0) }

  lemma PresentIffAnyPerm(bits: PermBits)
    ensures DecodePerms(bits).Any() <==> bits != 0
  {}

  function Decode(w: EntryWord): Entry<PhysAddr> {
    if IsPresent(w) then
      PresentIffAnyPerm(PermsOf(w));
      Present(FrameOf(w), DecodePerms(PermsOf(w)))
    else Absent
  }

  /** Every word of every frame decoded. */
  function DecodeAll<F(==), W>(mem: map<F, seq<W>>, decode: W -> Entry<F>): (d: Memory<F>)
    ensures d.Keys == mem.Keys
    ensures forall t :: t in mem ==> d[t] == DecodeFrame(mem[t], decode)
  {
    map t | t in mem :: DecodeFrame(mem[t], decode)
  }

  function DecodeFrame<F, W>(ws: seq<W>, decode: W -> Entry<F>): (es: seq<Entry<F>>)
    ensures |es| == |ws| && forall i :: 0 <= i < |ws| ==> es[i] == decode(ws[i])
  {
    seq(|ws|, i requires 0 <= i < |ws| => decode(ws[i]))
  }

  function DecodeMem(mem: map<PhysAddr, seq<EntryWord>>): Memory<PhysAddr> { DecodeAll(mem, Decode) }

  lemma DecodeAllWrite<F, W>(mem: map<F, seq<W>>, decode: W -> Entry<F>, t: F, i: nat, w: W)
    requires t in mem && i < |mem[t]|
    ensures DecodeAll(mem[t := mem[t][i := w]], decode) == Write(DecodeAll(mem, decode), t, i, decode(w))
  {
    assert DecodeFrame(mem[t][i := w], decode) == DecodeFrame(mem[t], decode)[i := decode(w)];
  }

  lemma DecodeAllZero<F, W>(mem: map<F, seq<W>>, decode: W -> Entry<F>, t: F, z: seq<W>)
    requires |z| == 512 && forall i :: 0 <= i < 512 ==> decode(z[i]) == Absent
    ensures DecodeAll(mem[t := z], decode) == DecodeAll(mem, decode)[t := ZeroFrame()]
  {
    assert DecodeFrame(z, decode) == ZeroFrame();
  }

  /** A table entry reads back as written; without permissions it reads back as absent. */
  lemma DecodeTableEntry(addr: PhysAddr, bits: PermBits)
    requires Frame(addr) == addr
    ensures Decode(TableEntry(addr, bits)) == Written(addr, DecodePerms(bits))
  {
    TableEntryReadsBack(addr, bits);
    PresentIffAnyPerm(bits);
  }

  /** A leaf keeps bits 51:12 of the host address. */
  lemma DecodePageEntry(addr: PhysAddr, bits: PermBits)
    ensures Decode(PageEntry4k(addr, bits)) == Written(Frame(addr), DecodePerms(bits))
  {
    PageEntryReadsBack(addr, bits);
    PresentIffAnyPerm(bits);
  }

  lemma DecodeZero()
    ensures Decode(EntryWord(0)) == Absent
  {}

  // The page map

  /** The table as a plain map from guest page number (address bits 47:12) to host frame and
      permissions. */
  ghost function Pages(mem: Memory<PhysAddr>, root: PhysAddr): imap<GuestPage, Mapping<PhysAddr>> {
    imap g: GuestPage | g.number <= 0xF_FFFF_FFFF && Translate(mem, root, PathOf(BaseOf(g))).Some? ::
      Translate(mem, root, PathOf(BaseOf(g))).value
  }

  ghost function Get<K, V>(m: imap<K, V>, k: K): Option<V> {
    if k in m then Some(m[k]) else None
  }

  /** `lookup` of any address is a look-up of its page number in the map. */
  lemma TranslateIsMapLookup(mem: Memory<PhysAddr>, root: PhysAddr, a: PhysAddr)
    ensures Translate(mem, root, PathOf(a)) == Get(Pages(mem, root), PageOf(a))
  {
    PageNumberRange(a.raw);
    PageBaseIsInPage(PageNumber(a.raw));
    SamePathIffSamePageNumber(a, BaseOf(PageOf(a)));
  }

  lemma SameGets<K(!new), V>(x: imap<K, V>, y: imap<K, V>)
    requires forall k :: Get(x, k) == Get(y, k)
    ensures x == y
  {
    forall k ensures k in x <==> k in y {
      assert Get(x, k) == Get(y, k);
    }
    forall k | k in x ensures x[k] == y[k] {
      assert Get(x, k) == Get(y, k);
    }
  }

  /** The map with the entry of one page replaced or, for none, removed. */
  ghost function Put<K, V>(pages: imap<K, V>, k: K, v: Option<V>): imap<K, V> {
    if v.Some? then pages[k := v.value] else pages - {k}
  }

  /** A change of the translation of one path is a change of the map at one page number. */
  lemma PagesUpdated(mem: Memory<PhysAddr>, mem': Memory<PhysAddr>, root: PhysAddr, g: PhysAddr,
        m: Option<Mapping<PhysAddr>>)
    requires forall p: Path :: p.InRange() ==>
      Translate(mem', root, p) == if p == PathOf(g) then m else Translate(mem, root, p)
    ensures Pages(mem', root) == Put(Pages(mem, root), PageOf(g), m)
  {
    forall k ensures Get(Pages(mem', root), k) == Get(Put(Pages(mem, root), PageOf(g), m), k) {
      PagesUpdatedAt(mem, mem', root, g, m, k);
    }
    SameGets(Pages(mem', root), Put(Pages(mem, root), PageOf(g), m));
  }

  lemma PagesUpdatedAt(mem: Memory<PhysAddr>, mem': Memory<PhysAddr>, root: PhysAddr, g: PhysAddr,
        m: Option<Mapping<PhysAddr>>, k: GuestPage)
    requires forall p: Path :: p.InRange() ==>
      Translate(mem', root, p) == if p == PathOf(g) then m else Translate(mem, root, p)
    ensures Get(Pages(mem', root), k) == Get(Put(Pages(mem, root), PageOf(g), m), k)
  {
    PageNumberRange(g.raw);
    if k.number <= 0xF_FFFF_FFFF {
      var a := BaseOf(k);
      PageBaseIsInPage(k.number);
      SamePathIffSamePageNumber(a, g);
      assert PathOf(a).InRange();
    }
  }

  lemma PagesSame(mem: Memory<PhysAddr>, mem': Memory<PhysAddr>, root: PhysAddr)
    requires forall p: Path :: p.InRange() ==> Translate(mem', root, p) == Translate(mem, root, p)
    ensures Pages(mem', root) == Pages(mem, root)
  {
    forall k ensures Get(Pages(mem', root), k) == Get(Pages(mem, root), k) {
      assert PathOf(BaseOf(k)).InRange();
    }
    SameGets(Pages(mem', root), Pages(mem, root));
  }

  // Memory

  /** Physical memory and the frame allocator. */
  class PhysMemory {
    var mem: map<PhysAddr, seq<EntryWord>>
    var free: seq<PhysAddr>

    ghost predicate Valid()
      reads this
    {
      && (forall t :: t in mem ==> |mem[t]| == 512)
      && forall f :: f in free ==> Frame(f) == f
    }

    /** Memory with its words decoded. */
    ghost function Ph(): Phys<PhysAddr>
      reads this
    {
      Phys(DecodeMem(mem), free)
    }

    method Read(t: PhysAddr, i: nat) returns (w: EntryWord)
      requires Valid() && t in mem && i < 512
      ensures w == mem[t][i] && Decode(w) == Slot(Ph().mem, t, i)
    {
      w := mem[t][i];
    }

    /** Store one word through the physical address of its frame. */
    method Store(t: PhysAddr, i: nat, w: EntryWord)
      requires Valid() && t in mem && i < 512
      modifies this
      ensures Valid() && free == old(free) && mem.Keys == old(mem.Keys)
      ensures Ph() == Phys(Write(old(Ph().mem), t, i, Decode(w)), old(free))
    {
      DecodeAllWrite(mem, Decode, t, i, w);
      mem := mem[t := mem[t][i := w]];
    }

    /** Take the next free frame and clear it. */
    method AllocateZeroed() returns (f: Option<PhysAddr>)
      requires Valid() && PoolOk(Ph())
      modifies this
      ensures Valid() && mem.Keys == old(mem.Keys)
      ensures match TakeZeroed(old(Ph()))
        case None => f == None && Ph() == old(Ph())
        case Some((n, ph')) => f == Some(n) && Ph() == ph' && Frame(n) == n && n in mem
    {
      if free == [] {
        f := None;
      } else {
        var n := free[0];
        assert n in free && n in Ph().mem;
        var zero := seq(512, (i: nat) => EntryWord(0));
        DecodeZero();
        DecodeAllZero(mem, Decode, n, zero);
        mem := mem[n := zero];
        free := free[1..];
        f := Some(n);
      }
    }

    /** Dropping frames returns them to the allocator. */
    method GiveBack(frames: seq<PhysAddr>)
      requires Valid() && forall f :: f in frames ==> Frame(f) == f
      modifies this
      ensures Valid() && mem == old(mem) && free == frames + old(free)
    {
      free := frames + free;
    }
  }

  // The table

  class PageTable {
    var pml4: PhysAddr
    var frames: seq<PhysAddr>

    ghost function Tbl(): Table<PhysAddr>
      reads this
    {
      Table(pml4, frames)
    }

    /** The table is a well-formed tree in `m`; `ns` says where each of its frames hangs. */
    ghost predicate In(m: PhysMemory, ns: Nodes<PhysAddr>)
      reads this, m
    {
      m.Valid() && PoolOk(m.Ph()) && Owned(m.Ph(), Tbl(), ns)
    }

    constructor (root: PhysAddr, frames: seq<PhysAddr>)
      ensures Tbl() == Table(root, frames)
    {
      this.pml4 := root;
      this.frames := frames;
    }

    /** Allocate and clear the PML4. */
    static method New(m: PhysMemory) returns (t: PageTable?, ghost ns: Nodes<PhysAddr>)
      requires m.Valid() && PoolOk(m.Ph())
      modifies m
      ensures m.Ph() == NewTable(old(m.Ph())).0
      ensures t == null <==> old(m.free) == []
      ensures t != null ==> fresh(t) && NewTable(old(m.Ph())).1 == Some(t.Tbl()) && t.In(m, ns)
      ensures t != null ==> Pages(m.Ph().mem, t.pml4) == imap[]
    {
      ns := NewTableIsEmpty(m.Ph());
      var f := m.AllocateZeroed();
      if f == None {
        t := null;
      } else {
        t := new PageTable(f.value, [f.value]);
      }
    }

    /** Follow one entry: from the table of level `k` on the path of `guest` to the next. */
    method Descend(m: PhysMemory, t: PhysAddr, k: nat, guest: PhysAddr, ghost ns: Nodes<PhysAddr>)
      returns (next: Option<PhysAddr>)
      requires In(m, ns) && 2 <= k <= 4 && TableAt(m.Ph().mem, pml4, PathOf(guest), k) == Some(t)
      ensures next == TableAt(m.Ph().mem, pml4, PathOf(guest), k - 1)
      ensures next == None ==> Translate(m.Ph().mem, pml4, PathOf(guest)) == None
    {
      ghost var mem, p := m.Ph().mem, PathOf(guest);
      TableAtInTree(mem, pml4, ns, p, k);
      var e := m.Read(t, Index(guest.raw, k));
      if IsPresent(e) {
        next := Some(FrameOf(e));
      } else {
        next := None;
        WalkStopped(mem, pml4, p, k);
      }
    }

    /** The PT on the path of `guest`, when the first three levels are present. */
    method WalkToPt(m: PhysMemory, guest: PhysAddr, ghost ns: Nodes<PhysAddr>) returns (pt: Option<PhysAddr>)
      requires In(m, ns)
      ensures pt == TableAt(m.Ph().mem, pml4, PathOf(guest), 1)
      ensures pt == None ==> Translate(m.Ph().mem, pml4, PathOf(guest)) == None
      ensures pt.Some? ==> pt.value in m.mem && pt.value in ns
    {
      ghost var mem, p := m.Ph().mem, PathOf(guest);
      var pdpt := Descend(m, pml4, 4, guest, ns);
      if pdpt == None {
        assert TableAt(mem, pml4, p, 2) == None;
        return None;
      }
      var pd := Descend(m, pdpt.value, 3, guest, ns);
      if pd == None { return None; }
      pt := Descend(m, pd.value, 2, guest, ns);
      TableAtInTree(mem, pml4, ns, p, 1);
    }

    /** Walk the four levels. */
    method Lookup(m: PhysMemory, guest: PhysAddr, ghost ns: Nodes<PhysAddr>) returns (r: Option<Mapping<PhysAddr>>)
      requires In(m, ns)
      ensures r == Translate(m.Ph().mem, pml4, PathOf(guest))
      ensures r == Get(Pages(m.Ph().mem, pml4), PageOf(guest))
    {
      TranslateIsMapLookup(m.Ph().mem, pml4, guest);
      var pt := WalkToPt(m, guest, ns);
      if pt == None { return None; }
      var e := m.Read(pt.value, Index(guest.raw, 1));
      if !IsPresent(e) { return None; }
      r := Some(Mapping(FrameOf(e), DecodePerms(PermsOf(e))));
    }

    /** Overwrite the leaf of a mapped page; without permissions this unmaps it. */
    method Remap4k(m: PhysMemory, guest: PhysAddr, host: PhysAddr, bits: PermBits, ghost ns: Nodes<PhysAddr>)
      returns (ok: bool)
      requires In(m, ns)
      modifies m
      ensures In(m, ns) && m.free == old(m.free)
      ensures ok <==> PageOf(guest) in old(Pages(m.Ph().mem, pml4))
      ensures Pages(m.Ph().mem, pml4)
        == if ok then Put(old(Pages(m.Ph().mem, pml4)), PageOf(guest), Leaf(Frame(host), DecodePerms(bits)))
          else old(Pages(m.Ph().mem, pml4))
    {
      ghost var ph, perms := m.Ph(), DecodePerms(bits);
      ok := Remap4kWords(m, guest, host, bits, ns);
      Remap4kUpdatesMappedPage(ph, Tbl(), ns, PathOf(guest), Frame(host), perms);
      TranslateIsMapLookup(ph.mem, pml4, guest);
      if ok {
        PagesUpdated(ph.mem, m.Ph().mem, pml4, guest, Leaf(Frame(host), perms));
      }
    }

    method Remap4kWords(m: PhysMemory, guest: PhysAddr, host: PhysAddr, bits: PermBits, ghost ns: Nodes<PhysAddr>)
      returns (ok: bool)
      requires In(m, ns)
      modifies m
      ensures m.Valid() && m.free == old(m.free)
      ensures (m.Ph().mem, ok) == EptTable.Remap4k(old(m.Ph().mem), pml4, PathOf(guest), Frame(host), DecodePerms(bits))
    {
      var pt := WalkToPt(m, guest, ns);
      if pt == None { return false; }
      var e := m.Read(pt.value, Index(guest.raw, 1));
      if !IsPresent(e) { return false; }
      DecodePageEntry(host, bits);
      m.Store(pt.value, Index(guest.raw, 1), PageEntry4k(host, bits));
      ok := true;
    }

    /** The table behind an entry, allocated and linked if the entry is empty. */
    method EnsureTable(m: PhysMemory, t: PhysAddr, i: nat, bits: PermBits) returns (next: Option<PhysAddr>)
      requires m.Valid() && PoolOk(m.Ph()) && t in m.mem && t !in m.free && i < 512
      modifies m, this
      ensures m.Valid() && m.mem.Keys == old(m.mem.Keys)
      ensures Ensured(m.Ph(), Tbl(), next) == EptTable.EnsureTable(old(m.Ph()), old(Tbl()), t, i, DecodePerms(bits))
    {
      var current := m.Read(t, i);
      if IsPresent(current) {
        next := Some(FrameOf(current));
      } else {
        var f := m.AllocateZeroed();
        if f == None { return None; }
        DecodeTableEntry(f.value, bits);
        m.Store(t, i, TableEntry(f.value, bits));
        frames := frames + [f.value];
        next := f;
      }
    }

    /** Walk down to level `k` of the path of `guest`, creating what is missing. */
    method EnsureNext(m: PhysMemory, t: PhysAddr, k: nat, guest: PhysAddr, bits: PermBits, ghost ph0: Phys<PhysAddr>,
          ghost t0: Table<PhysAddr>, ghost ns: Nodes<PhysAddr>)
      returns (next: Option<PhysAddr>)
      requires m.Valid() && 1 <= k <= 3 && PoolOk(ph0) && Owned(ph0, t0, ns)
      requires Ensured(m.Ph(), Tbl(), Some(t)) == EnsurePath(ph0, t0, PathOf(guest), DecodePerms(bits), k + 1)
      modifies m, this
      ensures m.Valid() && Ensured(m.Ph(), Tbl(), next) == EnsurePath(ph0, t0, PathOf(guest), DecodePerms(bits), k)
    {
      PathTableIsOwn(ph0, t0, ns, PathOf(guest), DecodePerms(bits), k + 1);
      assert t in m.Ph().mem && t !in m.Ph().free;
      next := EnsureTable(m, t, Index(guest.raw, k + 1), bits);
    }

    /** Map one page, creating the levels above it; without permissions this unmaps it. */
    method Map4k(m: PhysMemory, guest: PhysAddr, host: PhysAddr, bits: PermBits, ghost ns: Nodes<PhysAddr>)
      returns (ok: bool, ghost ns': Nodes<PhysAddr>)
      requires In(m, ns)
      modifies m, this
      ensures Mapped(m.Ph(), Tbl(), ok) ==
        EptTable.Map4k(old(m.Ph()), old(Tbl()), PathOf(guest), Frame(host), DecodePerms(bits))
      ensures In(m, ns') && Grown(old(m.Ph()), ns, m.Ph(), ns') && pml4 == old(pml4)
      ensures bits != 0 && AllAttached(ns) ==> AllAttached(ns')
      ensures Pages(m.Ph().mem, pml4)
        == if ok then Put(old(Pages(m.Ph().mem, pml4)), PageOf(guest), Leaf(Frame(host), DecodePerms(bits)))
          else old(Pages(m.Ph().mem, pml4))
    {
      ghost var ph, tbl := m.Ph(), Tbl();
      PresentIffAnyPerm(bits);
      ns' := Map4kUpdatesOnePage(ph, tbl, ns, PathOf(guest), Frame(host), DecodePerms(bits));
      ok := Map4kWords(m, guest, host, bits, ns);
      if ok {
        PagesUpdated(ph.mem, m.Ph().mem, tbl.pml4, guest, Leaf(Frame(host), DecodePerms(bits)));
      } else {
        PagesSame(ph.mem, m.Ph().mem, tbl.pml4);
      }
    }

    /** The PT on the path of `guest`, creating the three levels above it as needed. */
    method EnsureWalk(m: PhysMemory, guest: PhysAddr, bits: PermBits, ghost ns: Nodes<PhysAddr>)
      returns (pt: Option<PhysAddr>)
      requires In(m, ns)
      modifies m, this
      ensures m.Valid()
      ensures Ensured(m.Ph(), Tbl(), pt) == EnsurePath(old(m.Ph()), old(Tbl()), PathOf(guest), DecodePerms(bits), 1)
    {
      ghost var ph, tbl := m.Ph(), Tbl();
      var pdpt := EnsureNext(m, pml4, 3, guest, bits, ph, tbl, ns);
      if pdpt == None {
        assert EnsurePath(ph, tbl, PathOf(guest), DecodePerms(bits), 2).next == None;
        return None;
      }
      var pd := EnsureNext(m, pdpt.value, 2, guest, bits, ph, tbl, ns);
      if pd == None { return None; }
      pt := EnsureNext(m, pd.value, 1, guest, bits, ph, tbl, ns);
    }

    method Map4kWords(m: PhysMemory, guest: PhysAddr, host: PhysAddr, bits: PermBits, ghost ns: Nodes<PhysAddr>)
      returns (ok: bool)
      requires In(m, ns)
      modifies m, this
      ensures m.Valid()
      ensures Mapped(m.Ph(), Tbl(), ok) ==
        EptTable.Map4k(old(m.Ph()), old(Tbl()), PathOf(guest), Frame(host), DecodePerms(bits))
    {
      ghost var ph, tbl := m.Ph(), Tbl();
      var pt := EnsureWalk(m, guest, bits, ns);
      if pt == None { return false; }
      PathTableIsOwn(ph, tbl, ns, PathOf(guest), DecodePerms(bits), 1);
      assert pt.value in m.Ph().mem;
      DecodePageEntry(host, bits);
      m.Store(pt.value, Index(guest.raw, 1), PageEntry4k(host, bits));
      ok := true;
    }

    /** Copy one table level by level; the loop body of `clone_for_fork` at this level. */
    static method CloneSlots(m: PhysMemory, frames: seq<PhysAddr>, s: PhysAddr, d: PhysAddr, level: nat,
          ghost sroot: PhysAddr, ghost sn: Nodes<PhysAddr>)
      returns (frames': seq<PhysAddr>, ok: bool)
      requires CloneReady(m, s, d, level, sroot, sn)
      modifies m
      ensures m.Valid()
      ensures Cloned(m.Ph(), frames', ok) == EptTable.CloneSlots(old(m.Ph()), frames, s, d, level, 0)
      decreases level, 0, 2
    {
      frames' := frames;
      var i := 0;
      while i < 512
        invariant 0 <= i <= 512
        invariant CloneReady(m, s, d, level, sroot, sn)
        invariant EptTable.CloneSlots(m.Ph(), frames', s, d, level, i) ==
          EptTable.CloneSlots(old(m.Ph()), frames, s, d, level, 0)
      {
        frames', ok := CloneSlot(m, frames', s, d, level, i, sroot, sn);
        if !ok { return; }
        i := i + 1;
      }
      ok := true;
    }

    /** One entry: skip, copy a leaf read-execute, or copy a whole subtree. */
    static method CloneSlot(m: PhysMemory, frames: seq<PhysAddr>, s: PhysAddr, d: PhysAddr, level: nat, i: nat,
          ghost sroot: PhysAddr, ghost sn: Nodes<PhysAddr>)
      returns (frames': seq<PhysAddr>, ok: bool)
      requires CloneReady(m, s, d, level, sroot, sn) && i < 512
      modifies m
      ensures m.Valid() && (ok ==> CloneReady(m, s, d, level, sroot, sn))
      ensures EptTable.CloneSlots(old(m.Ph()), frames, s, d, level, i)
        == if ok then EptTable.CloneSlots(m.Ph(), frames', s, d, level, i + 1) else Cloned(m.Ph(), frames', false)
      decreases level, 0, 1
    {
      var e := m.Read(s, i);
      if !IsPresent(e) {
        return frames, true;
      }
      ghost var ph := m.Ph();
      if level == 1 {
        LeafCopyWord(e);
        m.Store(d, i, PageEntry4k(FrameOf(e), READ_EXECUTE_BITS));
        StillReady(ph, m, s, d, level, sroot, sn);
        return frames, true;
      }
      CloneSlotsConserves(ph, frames, s, d, level, i);
      frames', ok := CloneSubtree(m, frames, s, d, level, i, e, sroot, sn);
      if ok {
        StillReady(ph, m, s, d, level, sroot, sn);
      }
    }

    static method CloneSubtree(m: PhysMemory, frames: seq<PhysAddr>, s: PhysAddr, d: PhysAddr, level: nat, i: nat,
          e: EntryWord, ghost sroot: PhysAddr, ghost sn: Nodes<PhysAddr>)
      returns (frames': seq<PhysAddr>, ok: bool)
      requires CloneReady(m, s, d, level, sroot, sn) && i < 512 && level > 1 && e == m.mem[s][i] && IsPresent(e)
      modifies m
      ensures m.Valid() && (ok ==> PoolOk(m.Ph()) && WroteOnly(old(m.Ph()), d, m.Ph()))
      ensures EptTable.CloneSlots(old(m.Ph()), frames, s, d, level, i)
        == if ok then EptTable.CloneSlots(m.Ph(), frames', s, d, level, i + 1) else Cloned(m.Ph(), frames', false)
      decreases level, 0, 0
    {
      ghost var ph := m.Ph();
      var n := LinkFresh(m, d, i, PermsOf(e));
      if n == None {
        return frames, false;
      }
      SubtreeStep(ph, frames, s, d, level, i);
      frames', ok := CloneBelow(m, frames + [n.value], FrameOf(e), n.value, s, d, level, i, ph, sroot, sn);
    }

    /** Fill the table just hung from slot `i` of `d`. */
    static method CloneBelow(m: PhysMemory, frames: seq<PhysAddr>, from: PhysAddr, n: PhysAddr, ghost s: PhysAddr,
          ghost d: PhysAddr, level: nat, ghost i: nat,
                             ghost ph: Phys<PhysAddr>, ghost sroot: PhysAddr, ghost sn: Nodes<PhysAddr>)
      returns (frames': seq<PhysAddr>, ok: bool)
      requires ReadyIn(ph, s, d, level, sroot, sn) && level > 1 && i < 512 && ph.free != [] && n == ph.free[0]
      requires Slot(ph.mem, s, i).Present? && Slot(ph.mem, s, i).frame == from && m.Valid()
      requires m.Ph() == Phys(LinkedMem(ph.mem, d, i, n, Slot(ph.mem, s, i).perms), ph.free[1..])
      modifies m
      ensures m.Valid()
      ensures Cloned(m.Ph(), frames', ok) == EptTable.CloneSlots(old(m.Ph()), frames, from, n, level - 1, 0)
      decreases level - 1, 1
    {
      SubtreeReady(ph, m, s, d, level, i, sroot, sn);
      frames', ok := CloneSlots(m, frames, from, n, level - 1, sroot, sn);
    }

    /** Allocate an empty table and hang it from slot `i` of `d`. */
    static method LinkFresh(m: PhysMemory, d: PhysAddr, i: nat, bits: PermBits) returns (n: Option<PhysAddr>)
      requires m.Valid() && PoolOk(m.Ph()) && d in m.mem && d !in m.free && i < 512
      modifies m
      ensures m.Valid()
      ensures n == None <==> old(m.free) == []
      ensures n == None ==> m.Ph() == old(m.Ph())
      ensures n.Some? ==>
        && n.value == old(m.free)[0] && n.value in m.mem
        && m.Ph() == Phys(LinkedMem(old(m.Ph().mem), d, i, n.value, DecodePerms(bits)), old(m.free)[1..])
    {
      n := m.AllocateZeroed();
      if n.Some? {
        DecodeTableEntry(n.value, bits);
        m.Store(d, i, TableEntry(n.value, bits));
      }
    }

    /** Deep-copy the table for a fork. */
    method CloneForFork(m: PhysMemory, ghost ns: Nodes<PhysAddr>) returns (fork: PageTable?, ghost fn: Nodes<PhysAddr>)
      requires In(m, ns)
      modifies m
      ensures m.Valid() && m.Ph() == EptTable.CloneForFork(old(m.Ph()), Tbl()).0
      ensures fork == null <==> |old(m.free)| < |Attached(ns)|
      ensures AllAttached(ns) ==> |Attached(ns)| == |frames|
      ensures fork != null ==> fresh(fork) && IsFork(old(m.Ph()), Tbl(), ns, m.Ph(), fork.Tbl(), fn)
      ensures fork == null ==> m.free == old(m.free) && In(m, ns)
    {
      ghost var ph := m.Ph();
      CloneFailsExactly(ph, Tbl(), ns);
      FrameCount(ph, Tbl(), ns);
      var d := m.AllocateZeroed();
      if d == None {
        return null, ns;
      }
      StartReady(ph, m, Tbl(), ns);
      var newFrames, ok := CloneSlots(m, [d.value], pml4, d.value, 4, pml4, ns);
      if ok {
        fork := new PageTable(d.value, newFrames);
        fn := CloneIsFork(ph, Tbl(), ns);
      } else {
        fork, fn := null, ns;
        FailedCloneLeavesNoTrace(ph, Tbl(), ns);
        m.GiveBack(newFrames);
        TreeReadsOnlyTree(ph.mem, m.Ph().mem, pml4, ns);
      }
    }
  }

  /** What the copy loop relies on: a valid source table, and a destination that is neither the
      source's nor free. */
  ghost predicate CloneReady(m: PhysMemory, s: PhysAddr, d: PhysAddr, level: nat, sroot: PhysAddr, sn: Nodes<PhysAddr>)
    reads m
  {
    && m.Valid() && ReadyIn(m.Ph(), s, d, level, sroot, sn)
  }

  ghost predicate ReadyIn(ph: Phys<PhysAddr>, s: PhysAddr, d: PhysAddr, level: nat, sroot: PhysAddr,
        sn: Nodes<PhysAddr>) {
    && PoolOk(ph) && Tree(ph.mem, sroot, sn) && 1 <= level <= 4
    && s in sn && sn[s].level == level && d in ph.mem && d !in sn && d !in ph.free
    && forall f :: f in ph.free ==> f !in sn
  }

  lemma LeafCopyWord(e: EntryWord)
    requires IsPresent(e)
    ensures Decode(PageEntry4k(FrameOf(e), READ_EXECUTE_BITS)) == Present(Decode(e).frame, READ_EXECUTE)
  {
    DecodePageEntry(FrameOf(e), READ_EXECUTE_BITS);
    FrameOfIsFrame(e);
    assert DecodePerms(READ_EXECUTE_BITS) == READ_EXECUTE;
  }

  lemma StillReady(ph: Phys<PhysAddr>, m: PhysMemory, s: PhysAddr, d: PhysAddr, level: nat, sroot: PhysAddr,
        sn: Nodes<PhysAddr>)
    requires ReadyIn(ph, s, d, level, sroot, sn) && m.Valid() && PoolOk(m.Ph()) && WroteOnly(ph, d, m.Ph())
    ensures CloneReady(m, s, d, level, sroot, sn)
  {
    TreeReadsOnlyTree(ph.mem, m.Ph().mem, sroot, sn);
  }

  lemma SubtreeReady(ph: Phys<PhysAddr>, m: PhysMemory, s: PhysAddr, d: PhysAddr, level: nat, i: nat, sroot: PhysAddr,
        sn: Nodes<PhysAddr>)
    requires ReadyIn(ph, s, d, level, sroot, sn) && level > 1 && i < 512 && Slot(ph.mem, s, i).Present? && ph.free != []
    requires m.Valid() && m.Ph() == Phys(LinkedMem(ph.mem, d, i, ph.free[0], Slot(ph.mem, s, i).perms), ph.free[1..])
    ensures CloneReady(m, Slot(ph.mem, s, i).frame, ph.free[0], level - 1, sroot, sn)
  {
    assert ph.free[0] in ph.free;
    assert EntryHangs(ph.mem, sn, s, i);
    TreeReadsOnlyTree(ph.mem, m.Ph().mem, sroot, sn);
  }

  /** One subtree copied: what it does to memory and where the loop goes on. */
  lemma SubtreeStep<F(!new)>(ph: Phys<F>, frames: seq<F>, s: F, d: F, level: nat, i: nat)
    requires PoolOk(ph) && d in ph.mem && d !in ph.free && 1 < level <= 4 && i < 512 && Slot(ph.mem, s, i).Present?
    requires ph.free != []
    ensures var n, o := ph.free[0], Slot(ph.mem, s, i);
      var below := EptTable.CloneSlots(Phys(LinkedMem(ph.mem, d, i, n, o.perms), ph.free[1..]),
        frames + [n], o.frame, n, level - 1, 0);
      && WroteOnly(ph, d, below.ph) && PoolOk(below.ph)
      && EptTable.CloneSlots(ph, frames, s, d, level, i)
        == if below.ok then EptTable.CloneSlots(below.ph, below.frames, s, d, level, i + 1) else below
  {
    CloneSlotsAtLink(ph, frames, s, d, level, i);
    var n, o := ph.free[0], Slot(ph.mem, s, i);
    assert n in ph.free;
    var ph2 := Phys(LinkedMem(ph.mem, d, i, n, o.perms), ph.free[1..]);
    CloneSlotsConserves(ph2, frames + [n], o.frame, n, level - 1, 0);
    var below := EptTable.CloneSlots(ph2, frames + [n], o.frame, n, level - 1, 0);
    WroteOnlyTwice(ph, d, i, o.perms, below.ph, below.ph);
  }

  lemma StartReady(ph: Phys<PhysAddr>, m: PhysMemory, src: Table<PhysAddr>, sn: Nodes<PhysAddr>)
    requires PoolOk(ph) && Owned(ph, src, sn) && ph.free != []
    requires m.Valid() && m.Ph() == Phys(ph.mem[ph.free[0] := ZeroFrame()], ph.free[1..])
    ensures CloneReady(m, src.pml4, ph.free[0], 4, src.pml4, sn)
  {
    assert ph.free[0] in ph.free;
    TreeReadsOnlyTree(ph.mem, m.Ph().mem, src.pml4, sn);
  }

  lemma {:induction false} WalkStopped(mem: Memory<PhysAddr>, root: PhysAddr, p: Path, k: nat)
    requires 1 <= k <= 4
    requires match TableAt(mem, root, p, k)
      case None => true
      case Some(t) => k > 1 && Slot(mem, t, p.Index(k)) == Absent
    ensures Translate(mem, root, p) == None
  {
    if k > 1 {
      assert TableAt(mem, root, p, k - 1) == None;
      WalkStopped(mem, root, p, k - 1);
    }
  }
}
