/** Whole runs over many page tables sharing one frame allocator: any sequence of `new`, `map_4k` and
    `remap_4k` with any permissions, `clone_for_fork` and drop. */
module EptRuns {
  import opened EptTable
  import opened EptTree
  import opened EptMap
  import opened EptClone
  import opened EptPerms
  import opened Options

  /** Tables keep their number for life; a dropped table leaves `None`. */
  datatype World<F(==)> = World(ph: Phys<F>, tables: seq<Option<Table<F>>>)

  datatype Op<F> =
    | New
    | Map(table: nat, page: Path, host: F, perms: Perms)
    | Remap(table: nat, page: Path, host: F, perms: Perms)
    | Fork(table: nat)
    | Drop(table: nat)
  {
    ghost predicate WellFormed() { Map? || Remap? ==> page.InRange() }

    /** The mappings bedrock itself makes: every `map_4k` grants everything. */
    ghost predicate Full() { Map? ==> perms == READ_WRITE_EXECUTE }

    /** The operation writes the translation of page `p` in table `k`, or ends table `k`. */
    ghost predicate Touches(k: nat, p: Path) {
      ((Map? || Remap?) && table == k && page == p) || (Drop? && table == k)
    }
  }

  predicate Live<F(==)>(w: World<F>, k: nat) { k < |w.tables| && w.tables[k].Some? }

  function Apply<F(==)>(w: World<F>, op: Op<F>): World<F> {
    match op
    case New =>
      var (ph', t) := NewTable(w.ph);
      if t.Some? then World(ph', w.tables + [t]) else w
    case Map(k, page, host, perms) =>
      if Live(w, k) then
        var r := Map4k(w.ph, w.tables[k].value, page, host, perms);
        World(r.ph, w.tables[k := Some(r.tbl)])
      else w
    case Remap(k, page, host, perms) =>
      if Live(w, k) then
        World(Phys(Remap4k(w.ph.mem, w.tables[k].value.pml4, page, host, perms).0, w.ph.free), w.tables)
      else w
    case Fork(k) =>
      if Live(w, k) then
        var (ph', t) := CloneForFork(w.ph, w.tables[k].value);
        World(ph', if t.Some? then w.tables + [t] else w.tables)
      else w
    case Drop(k) =>
      if Live(w, k) then World(Phys(w.ph.mem, w.tables[k].value.frames + w.ph.free), w.tables[k := None]) else w
  }

  function Run<F(==)>(w: World<F>, ops: seq<Op<F>>): World<F>
    decreases |ops|
  {
    if ops == [] then w else Run(Apply(w, ops[0]), ops[1..])
  }

  /** What `lookup` answers in table `k`; nothing once the table is gone. */
  function Lookup<F(==)>(w: World<F>, k: nat, p: Path): Option<Mapping<F>> {
    if Live(w, k) then Translate(w.ph.mem, w.tables[k].value.pml4, p) else None
  }

  // The invariant of every reachable world

  /** `full` asks in addition that upper-level entries grant everything. */
  ghost predicate TableOk<F(!new)>(ph: Phys<F>, t: Table<F>, ns: Nodes<F>, full: bool) {
    Owned(ph, t, ns) && (full ==> Uniform(ph.mem, t.pml4))
  }

  ghost predicate Inv<F(!new)>(w: World<F>, nss: seq<Nodes<F>>, full: bool) {
    && |nss| == |w.tables| && PoolOk(w.ph)
    && (forall k :: 0 <= k < |nss| && w.tables[k].Some? ==> TableOk(w.ph, w.tables[k].value, nss[k], full))
    && forall k, l :: 0 <= k < l < |nss| && w.tables[k].Some? && w.tables[l].Some? ==> nss[k].Keys !! nss[l].Keys
  }

  /** Neither the translation of `p` changed nor whether the processor agrees with it. */
  ghost predicate SamePage<F>(mem: Memory<F>, mem': Memory<F>, root: F, p: Path) {
    Translate(mem', root, p) == Translate(mem, root, p) && (Agrees(mem', root, p) <==> Agrees(mem, root, p))
  }

  ghost predicate SamePages<F>(mem: Memory<F>, mem': Memory<F>, root: F) {
    forall p: Path :: p.InRange() ==> SamePage(mem, mem', root, p)
  }

  /** The processor grants what `lookup` reports for page `p` of table `k`. */
  ghost predicate AgreesIn<F>(w: World<F>, k: nat, p: Path) {
    Live(w, k) ==> Agrees(w.ph.mem, w.tables[k].value.pml4, p)
  }

  ghost predicate Kept<F>(w: World<F>, w': World<F>, k: nat, p: Path) {
    && (Live(w', k) <==> Live(w, k)) && Lookup(w', k, p) == Lookup(w, k, p)
    && (AgreesIn(w', k, p) <==> AgreesIn(w, k, p))
  }

  /** A table whose frames an operation did not write is exactly as it was. */
  lemma Untouched<F(!new)>(ph: Phys<F>, t: Table<F>, ns: Nodes<F>, ph': Phys<F>, full: bool)
    requires TableOk(ph, t, ns, full) && AgreeOn(ph.mem, ph'.mem, ns.Keys)
    requires forall f :: f in ph'.free ==> f !in ns
    ensures TableOk(ph', t, ns, full) && SamePages(ph.mem, ph'.mem, t.pml4)
  {
    TreeReadsOnlyTree(ph.mem, ph'.mem, t.pml4, ns);
    if full {
      UniformReadsOnlyTree(ph.mem, ph'.mem, t.pml4, ns);
    }
    forall p: Path | p.InRange() ensures SamePage(ph.mem, ph'.mem, t.pml4, p) {
      TranslateReadsOnlyTree(ph.mem, ph'.mem, t.pml4, ns, p);
      AgreementReadsOnlyTree(ph.mem, ph'.mem, t.pml4, ns, p);
    }
  }

  lemma GrownLeavesOthers<F(!new)>(ph: Phys<F>, own: Nodes<F>, ph': Phys<F>, own': Nodes<F>, t: Table<F>, ns: Nodes<F>,
        full: bool)
    requires TableOk(ph, t, ns, full) && own.Keys !! ns.Keys && Grown(ph, own, ph', own')
    ensures TableOk(ph', t, ns, full) && own'.Keys !! ns.Keys
    ensures SamePages(ph.mem, ph'.mem, t.pml4)
  {
    assert AgreeOn(ph.mem, ph'.mem, ns.Keys);
    Untouched(ph, t, ns, ph', full);
  }

  /** Every table but `k` is as before on every page. */
  ghost predicate OthersKept<F(!new)>(w: World<F>, w': World<F>, k: nat) {
    forall l: nat, p: Path :: l != k && l < |w.tables| && p.InRange() ==> Kept(w, w', l, p)
  }

  lemma OthersStay<F(!new)>(w: World<F>, nss: seq<Nodes<F>>, k: nat, ph': Phys<F>, ns': Nodes<F>, full: bool, l: nat)
    requires Inv(w, nss, full) && Live(w, k) && Grown(w.ph, nss[k], ph', ns') && l != k && Live(w, l)
    ensures TableOk(ph', w.tables[l].value, nss[l], full) && ns'.Keys !! nss[l].Keys
    ensures SamePages(w.ph.mem, ph'.mem, w.tables[l].value.pml4)
  {
    GrownLeavesOthers(w.ph, nss[k], ph', ns', w.tables[l].value, nss[l], full);
  }

  lemma ReplacedInv<F(!new)>(w: World<F>, nss: seq<Nodes<F>>, k: nat, t': Table<F>, ns': Nodes<F>, full: bool,
        w': World<F>)
    requires Inv(w, nss, full) && Live(w, k) && PoolOk(w'.ph) && w'.tables == w.tables[k := Some(t')]
    requires Grown(w.ph, nss[k], w'.ph, ns') && TableOk(w'.ph, t', ns', full)
    ensures Inv(w', nss[k := ns'], full)
  {
    forall l: nat | l != k && Live(w, l)
      ensures TableOk(w'.ph, w.tables[l].value, nss[l], full) && ns'.Keys !! nss[l].Keys
    {
      OthersStay(w, nss, k, w'.ph, ns', full, l);
    }
  }

  lemma ReplacedKeepsOthers<F(!new)>(w: World<F>, nss: seq<Nodes<F>>, k: nat, t': Table<F>, ns': Nodes<F>, full: bool,
        w': World<F>)
    requires Inv(w, nss, full) && Live(w, k) && w'.tables == w.tables[k := Some(t')] && Grown(w.ph, nss[k], w'.ph, ns')
    ensures OthersKept(w, w', k)
  {
    forall l: nat, p: Path | l != k && l < |w.tables| && p.InRange() ensures Kept(w, w', l, p) {
      if Live(w, l) {
        OthersStay(w, nss, k, w'.ph, ns', full, l);
        assert SamePage(w.ph.mem, w'.ph.mem, w.tables[l].value.pml4, p);
      }
    }
  }

  lemma ReplaceTable<F(!new)>(w: World<F>, nss: seq<Nodes<F>>, k: nat, ph': Phys<F>, t': Table<F>, ns': Nodes<F>,
        full: bool)
    requires Inv(w, nss, full) && Live(w, k) && PoolOk(ph')
    requires Grown(w.ph, nss[k], ph', ns') && TableOk(ph', t', ns', full)
    ensures Inv(World(ph', w.tables[k := Some(t')]), nss[k := ns'], full)
    ensures OthersKept(w, World(ph', w.tables[k := Some(t')]), k)
  {
    var w' := World(ph', w.tables[k := Some(t')]);
    ReplacedInv(w, nss, k, t', ns', full, w');
    ReplacedKeepsOthers(w, nss, k, t', ns', full, w');
  }

  lemma AppendTable<F(!new)>(w: World<F>, nss: seq<Nodes<F>>, ph': Phys<F>, t': Table<F>, ns': Nodes<F>, full: bool)
    requires Inv(w, nss, full) && PoolOk(ph')
    requires Grown(w.ph, map[], ph', ns') && TableOk(ph', t', ns', full)
    ensures Inv(World(ph', w.tables + [Some(t')]), nss + [ns'], full)
    ensures OthersKept(w, World(ph', w.tables + [Some(t')]), |w.tables|)
  {
    var none: Nodes<F> := map[];
    forall l: nat | l < |nss| && w.tables[l].Some?
      ensures TableOk(ph', w.tables[l].value, nss[l], full) && ns'.Keys !! nss[l].Keys
      ensures SamePages(w.ph.mem, ph'.mem, w.tables[l].value.pml4)
    {
      GrownLeavesOthers(w.ph, none, ph', ns', w.tables[l].value, nss[l], full);
    }
  }

  lemma AfterFailedFork<F(!new)>(w: World<F>, nss: seq<Nodes<F>>, ph': Phys<F>, full: bool)
    requires Inv(w, nss, full) && ph'.free == w.ph.free && ph'.mem.Keys == w.ph.mem.Keys
    requires forall f :: f in w.ph.mem && f !in w.ph.free ==> ph'.mem[f] == w.ph.mem[f]
    ensures Inv(World(ph', w.tables), nss, full) && OthersKept(w, World(ph', w.tables), |w.tables|)
  {
    forall l: nat | l < |nss| && w.tables[l].Some?
      ensures TableOk(ph', w.tables[l].value, nss[l], full)
      ensures SamePages(w.ph.mem, ph'.mem, w.tables[l].value.pml4)
    {
      Untouched(w.ph, w.tables[l].value, nss[l], ph', full);
    }
  }

  lemma DroppedPool<F(!new)>(ph: Phys<F>, t: Table<F>, ns: Nodes<F>)
    requires PoolOk(ph) && Owned(ph, t, ns)
    ensures PoolOk(Phys(ph.mem, t.frames + ph.free))
    ensures forall f :: f in t.frames + ph.free ==> f in ns || f in ph.free
  {
    var s := t.frames + ph.free;
    forall i, j | 0 <= i < j < |s| ensures s[i] != s[j] {
      if i < |t.frames| <= j {
        assert s[i] in t.frames && s[j] in ph.free;
      }
    }
  }

  lemma AfterDrop<F(!new)>(w: World<F>, nss: seq<Nodes<F>>, k: nat, full: bool)
    requires Inv(w, nss, full) && Live(w, k)
    ensures Inv(Apply(w, Drop(k)), nss, full) && OthersKept(w, Apply(w, Drop(k)), k)
  {
    var w' := Apply(w, Drop(k));
    assert TableOk(w.ph, w.tables[k].value, nss[k], full);
    DroppedPool(w.ph, w.tables[k].value, nss[k]);
    forall l: nat | l < |nss| && l != k && w.tables[l].Some?
      ensures TableOk(w'.ph, w.tables[l].value, nss[l], full)
      ensures SamePages(w.ph.mem, w'.ph.mem, w.tables[l].value.pml4)
    {
      assert nss[k].Keys !! nss[l].Keys;
      Untouched(w.ph, w.tables[l].value, nss[l], w'.ph, full);
    }
  }

  // One step

  /** Main step theorem: every operation keeps the invariant, and changes neither the translation nor the
      permissions of a page it does not touch, in any table. */
  lemma StepKeepsInv<F(!new)>(w: World<F>, nss: seq<Nodes<F>>, op: Op<F>, full: bool) returns (nss': seq<Nodes<F>>)
    requires Inv(w, nss, full) && op.WellFormed() && (full ==> op.Full())
    ensures Inv(Apply(w, op), nss', full) && |w.tables| <= |Apply(w, op).tables|
    ensures forall k: nat, p: Path :: k < |w.tables| && p.InRange() && !op.Touches(k, p) ==> Kept(w, Apply(w, op), k, p)
  {
    nss' := nss;
    match op
    case New => nss' := StepNew(w, nss, full);
    case Map(k, page, host, perms) => if Live(w, k) { nss' := StepMap(w, nss, k, page, host, perms, full); }
    case Remap(k, page, host, perms) => if Live(w, k) { StepRemap(w, nss, k, page, host, perms, full); }
    case Fork(k) => if Live(w, k) { nss' := StepFork(w, nss, k, full); }
    case Drop(k) => if Live(w, k) { AfterDrop(w, nss, k, full); }
  }

  lemma StepNew<F(!new)>(w: World<F>, nss: seq<Nodes<F>>, full: bool) returns (nss': seq<Nodes<F>>)
    requires Inv(w, nss, full)
    ensures Inv(Apply(w, New), nss', full) && OthersKept(w, Apply(w, New), |w.tables|)
    ensures |w.tables| <= |Apply(w, New).tables|
  {
    nss' := nss;
    var ns := NewTableIsEmpty(w.ph);
    var (ph', t) := NewTable(w.ph);
    if t.Some? {
      NewIsUniform(w.ph);
      AppendTable(w, nss, ph', t.value, ns, full);
      nss' := nss + [ns];
    }
  }

  lemma StepMap<F(!new)>(w: World<F>, nss: seq<Nodes<F>>, k: nat, page: Path, host: F, perms: Perms, full: bool)
    returns (nss': seq<Nodes<F>>)
    requires Inv(w, nss, full) && Live(w, k) && page.InRange() && (full ==> perms == READ_WRITE_EXECUTE)
    ensures var w' := Apply(w, Map(k, page, host, perms));
      && Inv(w', nss', full) && OthersKept(w, w', k)
      && forall p: Path :: p.InRange() && p != page ==> Kept(w, w', k, p)
  {
    var t := w.tables[k].value;
    assert TableOk(w.ph, t, nss[k], full);
    var ns' := Map4kUpdatesOnePage(w.ph, t, nss[k], page, host, perms);
    if full {
      MapKeepsUniform(w.ph, t, nss[k], page, host);
    }
    var r := Map4k(w.ph, t, page, host, perms);
    ReplaceTable(w, nss, k, r.ph, r.tbl, ns', full);
    nss' := nss[k := ns'];
    forall p: Path | p.InRange() && p != page ensures Kept(w, Apply(w, Map(k, page, host, perms)), k, p) {
      MapKeepsAgreement(w.ph, t, nss[k], page, host, perms, p);
    }
  }

  lemma StepRemap<F(!new)>(w: World<F>, nss: seq<Nodes<F>>, k: nat, page: Path, host: F, perms: Perms, full: bool)
    requires Inv(w, nss, full) && Live(w, k) && page.InRange()
    ensures var w' := Apply(w, Remap(k, page, host, perms));
      && Inv(w', nss, full) && OthersKept(w, w', k)
      && forall p: Path :: p.InRange() && p != page ==> Kept(w, w', k, p)
  {
    var t := w.tables[k].value;
    assert TableOk(w.ph, t, nss[k], full);
    Remap4kUpdatesMappedPage(w.ph, t, nss[k], page, host, perms);
    if full {
      RemapKeepsUniform(w.ph.mem, t.pml4, nss[k], page, host, perms);
    }
    var ph' := Phys(Remap4k(w.ph.mem, t.pml4, page, host, perms).0, w.ph.free);
    ReplaceTable(w, nss, k, ph', t, nss[k], full);
    assert nss[k := nss[k]] == nss && w.tables[k := Some(t)] == w.tables;
    forall p: Path | p.InRange() && p != page ensures Kept(w, Apply(w, Remap(k, page, host, perms)), k, p) {
      RemapKeepsAgreement(w.ph, t, nss[k], page, host, perms, p);
    }
  }

  /** A fork shows the source's pages read-execute; it has the source's frame count unless the source has
      detached frames. */
  lemma StepFork<F(!new)>(w: World<F>, nss: seq<Nodes<F>>, k: nat, full: bool) returns (nss': seq<Nodes<F>>)
    requires Inv(w, nss, full) && Live(w, k)
    ensures var w' := Apply(w, Fork(k));
      && Inv(w', nss', full) && OthersKept(w, w', |w.tables|) && |w.tables| <= |w'.tables|
      && (|w'.tables| > |w.tables| ==>
            && Live(w', |w.tables|) && |w'.tables| == |w.tables| + 1
            && (AllAttached(nss[k]) ==> |w'.tables[|w.tables|].value.frames| == |w.tables[k].value.frames|)
            && forall p: Path :: p.InRange() ==> Lookup(w', |w.tables|, p) == ReadExecuteOnly(Lookup(w, k, p)))
  {
    nss' := nss;
    var t := w.tables[k].value;
    assert TableOk(w.ph, t, nss[k], full);
    var (ph', f) := CloneForFork(w.ph, t);
    if f.Some? {
      var ns := CloneIsFork(w.ph, t, nss[k]);
      FrameCount(w.ph, t, nss[k]);
      if full {
        CloneKeepsUniform(w.ph, t, nss[k]);
      }
      AppendTable(w, nss, ph', f.value, ns, full);
      nss' := nss + [ns];
    } else {
      FailedCloneLeavesNoTrace(w.ph, t, nss[k]);
      AfterFailedFork(w, nss, ph', full);
    }
  }

  // Whole runs

  ghost predicate AllWellFormed<F>(ops: seq<Op<F>>) {
    forall i :: 0 <= i < |ops| ==> ops[i].WellFormed()
  }

  ghost predicate AllFull<F>(ops: seq<Op<F>>) {
    forall i :: 0 <= i < |ops| ==> ops[i].Full()
  }

  lemma {:induction false} RunKeepsInv<F(!new)>(w: World<F>, nss: seq<Nodes<F>>, ops: seq<Op<F>>, full: bool)
    returns (nss': seq<Nodes<F>>)
    requires Inv(w, nss, full) && AllWellFormed(ops) && (full ==> AllFull(ops))
    ensures Inv(Run(w, ops), nss', full)
    decreases |ops|
  {
    nss' := nss;
    if ops != [] {
      var nss1 := StepKeepsInv(w, nss, ops[0], full);
      nss' := RunKeepsInv(Apply(w, ops[0]), nss1, ops[1..], full);
    }
  }

  /** From an empty world, after any run whose mappings grant everything, the processor's permissions on
      every page of every table are what `lookup` reports. */
  lemma HardwareAgreesAfterEveryRun<F(!new)>(ph: Phys<F>, ops: seq<Op<F>>, k: nat, p: Path)
    requires PoolOk(ph) && AllWellFormed(ops) && AllFull(ops) && p.InRange()
    requires Live(Run(World(ph, []), ops), k)
    ensures var w := Run(World(ph, []), ops);
      HardwarePerms(w.ph.mem, w.tables[k].value.pml4, p) == LookupPerms(Lookup(w, k, p))
  {
    var nss := RunKeepsInv(World(ph, []), [], ops, true);
    var w := Run(World(ph, []), ops);
    assert TableOk(w.ph, w.tables[k].value, nss[k], true);
    HardwareAgreesWithLookup(w.ph.mem, w.tables[k].value.pml4, p);
  }

  /** A page's translation, and whether the processor agrees with it, survive any run that does not touch
      the page, whatever happens to other pages and other tables. */
  lemma {:induction false} RunKeepsUntouchedPage<F(!new)>(w: World<F>, nss: seq<Nodes<F>>, ops: seq<Op<F>>, k: nat,
        p: Path)
    requires Inv(w, nss, false) && AllWellFormed(ops) && k < |w.tables| && p.InRange()
    requires forall i :: 0 <= i < |ops| ==> !ops[i].Touches(k, p)
    ensures Kept(w, Run(w, ops), k, p)
    decreases |ops|
  {
    if ops != [] {
      assert !ops[0].Touches(k, p);
      var nss1 := StepKeepsInv(w, nss, ops[0], false);
      RunKeepsUntouchedPage(Apply(w, ops[0]), nss1, ops[1..], k, p);
    }
  }

  /** Main result: after a fork, no run with whatever permissions lets the fork write a page until that
      page is mapped or remapped in the fork itself. */
  lemma ForkReadOnlyUntilRemapped<F(!new)>(ph: Phys<F>, before: seq<Op<F>>, k: nat, after: seq<Op<F>>, p: Path)
    requires PoolOk(ph) && AllWellFormed(before) && AllWellFormed(after) && p.InRange()
    requires var w := Run(World(ph, []), before);
      && Live(w, k) && Live(Apply(w, Fork(k)), |w.tables|)
      && forall i :: 0 <= i < |after| ==> !after[i].Touches(|w.tables|, p)
    ensures var w := Run(World(ph, []), before);
      var w' := Run(Apply(w, Fork(k)), after);
      Live(w', |w.tables|) && !HardwarePerms(w'.ph.mem, w'.tables[|w.tables|].value.pml4, p).write
  {
    var w := Run(World(ph, []), before);
    var nss := RunKeepsInv(World(ph, []), [], before, false);
    var nss1 := StepFork(w, nss, k, false);
    RunKeepsUntouchedPage(Apply(w, Fork(k)), nss1, after, |w.tables|, p);
  }

  // Arbitrary permissions

  /** The processor grants what `lookup` reports, on every page of every table. */
  ghost predicate Agree<F(!new)>(w: World<F>) { forall k: nat, p: Path :: p.InRange() ==> AgreesIn(w, k, p) }

  ghost predicate ForkGranted<F(!new)>(mem: Memory<F>, root: F) {
    forall p: Path :: p.InRange() && Translate(mem, root, p).Some? ==> PathGrants(mem, root, p, READ_EXECUTE)
  }

  /** What has to hold before an operation: the upper-level entries present on the path of the page it
      writes grant what it asks for; for a fork, on every mapped path they grant read and execute. An
      operation that fails needs nothing. */
  ghost predicate Granted<F(!new)>(w: World<F>, op: Op<F>) {
    match op
    case New => true
    case Map(k, page, host, perms) =>
      Live(w, k) && MissingTables(w.ph.mem, w.tables[k].value.pml4, page, 1) <= |w.ph.free| ==>
        PathGrants(w.ph.mem, w.tables[k].value.pml4, page, perms)
    case Remap(k, page, host, perms) =>
      Live(w, k) && Lookup(w, k, page).Some? ==> PathGrants(w.ph.mem, w.tables[k].value.pml4, page, perms)
    case Fork(k) =>
      Live(w, k) && |TablesOf(w.ph.mem, w.tables[k].value.pml4)| <= |w.ph.free| ==>
        ForkGranted(w.ph.mem, w.tables[k].value.pml4)
    case Drop(k) => true
  }

  /** On the page a mapping writes, the two agree afterwards exactly when it was granted. */
  lemma MapAgreesIn<F(!new)>(w: World<F>, nss: seq<Nodes<F>>, k: nat, page: Path, host: F, perms: Perms)
    requires Inv(w, nss, false) && Live(w, k) && page.InRange() && AgreesIn(w, k, page)
    ensures AgreesIn(Apply(w, Map(k, page, host, perms)), k, page) <==> Granted(w, Map(k, page, host, perms))
  {
    var t := w.tables[k].value;
    assert TableOk(w.ph, t, nss[k], false);
    Map4kFailsExactly(w.ph, t, nss[k], page, host, perms);
    var _ := Map4kUpdatesOnePage(w.ph, t, nss[k], page, host, perms);
    if Map4k(w.ph, t, page, host, perms).ok {
      MapAgreesExactly(w.ph, t, nss[k], page, host, perms);
    } else {
      MapKeepsAgreement(w.ph, t, nss[k], page, host, perms, page);
    }
  }

  lemma RemapAgreesIn<F(!new)>(w: World<F>, nss: seq<Nodes<F>>, k: nat, page: Path, host: F, perms: Perms)
    requires Inv(w, nss, false) && Live(w, k) && page.InRange() && AgreesIn(w, k, page)
    ensures AgreesIn(Apply(w, Remap(k, page, host, perms)), k, page) <==> Granted(w, Remap(k, page, host, perms))
  {
    var t := w.tables[k].value;
    assert TableOk(w.ph, t, nss[k], false);
    if Lookup(w, k, page).Some? {
      RemapAgreesExactly(w.ph, t, nss[k], page, host, perms);
    } else {
      RemapKeepsAgreement(w.ph, t, nss[k], page, host, perms, page);
    }
  }

  lemma ForkAgreesIn<F(!new)>(w: World<F>, nss: seq<Nodes<F>>, k: nat)
    requires Inv(w, nss, false) && Live(w, k)
    ensures AgreesAllOver(Apply(w, Fork(k)), |w.tables|) <==> Granted(w, Fork(k))
  {
    var t := w.tables[k].value;
    assert TableOk(w.ph, t, nss[k], false);
    ForkFailsExactly(w.ph, t, nss[k]);
    if CloneForFork(w.ph, t).1.Some? { ForkedAgreesIn(w, nss, k); }
  }

  lemma ForkedAgreesIn<F(!new)>(w: World<F>, nss: seq<Nodes<F>>, k: nat)
    requires Inv(w, nss, false) && Live(w, k) && CloneForFork(w.ph, w.tables[k].value).1.Some?
    ensures AgreesAllOver(Apply(w, Fork(k)), |w.tables|) <==> ForkGranted(w.ph.mem, w.tables[k].value.pml4)
  {
    var t := w.tables[k].value;
    assert TableOk(w.ph, t, nss[k], false);
    forall p: Path | p.InRange()
      ensures AgreesIn(Apply(w, Fork(k)), |w.tables|, p)
        <==> (Translate(w.ph.mem, t.pml4, p).None? || PathGrants(w.ph.mem, t.pml4, p, READ_EXECUTE))
    {
      ForkAgreesExactly(w.ph, t, nss[k], p);
    }
  }

  lemma NewAgreesIn<F(!new)>(w: World<F>)
    requires NewTable(w.ph).1.Some?
    ensures AgreesAllOver(Apply(w, New), |w.tables|)
  {
    NewIsUniform(w.ph);
    forall p: Path | p.InRange() ensures AgreesIn(Apply(w, New), |w.tables|, p) {
      HardwareAgreesWithLookup(NewTable(w.ph).0.mem, NewTable(w.ph).1.value.pml4, p);
    }
  }

  ghost predicate AgreesAllOver<F(!new)>(w: World<F>, k: nat) { forall p: Path :: p.InRange() ==> AgreesIn(w, k, p) }

  lemma UntouchedAgree<F(!new)>(w: World<F>, nss: seq<Nodes<F>>, op: Op<F>, k: nat, p: Path)
    requires Inv(w, nss, false) && op.WellFormed() && Agree(w) && p.InRange() && k < |w.tables| && !op.Touches(k, p)
    ensures AgreesIn(Apply(w, op), k, p)
  {
    assert AgreesIn(w, k, p);
    var _ := StepKeepsInv(w, nss, op, false);
  }

  /** After an operation on one page it is that page which decides. */
  lemma PageDecides<F(!new)>(w: World<F>, nss: seq<Nodes<F>>, op: Op<F>)
    requires Inv(w, nss, false) && op.WellFormed() && Agree(w) && (op.Map? || op.Remap?)
    ensures Agree(Apply(w, op)) <==> AgreesIn(Apply(w, op), op.table, op.page)
  {
    forall k: nat, p: Path | p.InRange() && !(k == op.table && p == op.page) ensures AgreesIn(Apply(w, op), k, p) {
      if k < |w.tables| {
        UntouchedAgree(w, nss, op, k, p);
      }
    }
  }

  /** After `new` or a fork it is the new table, if there is one. */
  lemma TableDecides<F(!new)>(w: World<F>, nss: seq<Nodes<F>>, op: Op<F>)
    requires Inv(w, nss, false) && op.WellFormed() && Agree(w) && (op.New? || op.Fork? || op.Drop?)
    ensures Agree(Apply(w, op)) <==> AgreesAllOver(Apply(w, op), |w.tables|)
  {
    forall k: nat, p: Path | p.InRange() && k != |w.tables| ensures AgreesIn(Apply(w, op), k, p) {
      if k < |w.tables| && !op.Touches(k, p) {
        UntouchedAgree(w, nss, op, k, p);
      }
    }
  }

  /** From a state in which the two agree everywhere, they agree everywhere after an operation exactly when
      it was granted. */
  lemma StepAgreesExactly<F(!new)>(w: World<F>, nss: seq<Nodes<F>>, op: Op<F>)
    requires Inv(w, nss, false) && op.WellFormed() && Agree(w)
    ensures Agree(Apply(w, op)) <==> Granted(w, op)
  {
    match op
    case Map(k, page, host, perms) =>
      PageDecides(w, nss, op);
      if Live(w, k) {
        assert AgreesIn(w, k, page);
        MapAgreesIn(w, nss, k, page, host, perms);
      }
    case Remap(k, page, host, perms) =>
      PageDecides(w, nss, op);
      if Live(w, k) {
        assert AgreesIn(w, k, page);
        RemapAgreesIn(w, nss, k, page, host, perms);
      }
    case New =>
      TableDecides(w, nss, op);
      if NewTable(w.ph).1.Some? { NewAgreesIn(w); }
    case Fork(k) =>
      TableDecides(w, nss, op);
      if Live(w, k) { ForkAgreesIn(w, nss, k); }
    case Drop(k) => TableDecides(w, nss, op);
  }

  ghost predicate AgreeThroughout<F(!new)>(w: World<F>, ops: seq<Op<F>>)
    decreases |ops|
  {
    Agree(w) && (ops == [] || AgreeThroughout(Apply(w, ops[0]), ops[1..]))
  }

  ghost predicate GrantedThroughout<F(!new)>(w: World<F>, ops: seq<Op<F>>)
    decreases |ops|
  {
    ops == [] || (Granted(w, ops[0]) && GrantedThroughout(Apply(w, ops[0]), ops[1..]))
  }

  lemma {:induction false} RunAgreesExactly<F(!new)>(w: World<F>, nss: seq<Nodes<F>>, ops: seq<Op<F>>)
    requires Inv(w, nss, false) && AllWellFormed(ops) && Agree(w)
    ensures AgreeThroughout(w, ops) <==> GrantedThroughout(w, ops)
    decreases |ops|
  {
    if ops != [] {
      StepAgreesExactly(w, nss, ops[0]);
      var nss1 := StepKeepsInv(w, nss, ops[0], false);
      if Granted(w, ops[0]) {
        RunAgreesExactly(Apply(w, ops[0]), nss1, ops[1..]);
      }
    }
  }

  /** Main result, for mappings with any permissions: from an empty world the processor and `lookup` agree
      on every page of every table throughout a run exactly when every operation of it was granted. */
  lemma HardwareAgreesExactly<F(!new)>(ph: Phys<F>, ops: seq<Op<F>>)
    requires PoolOk(ph) && AllWellFormed(ops)
    ensures AgreeThroughout(World(ph, []), ops) <==> GrantedThroughout(World(ph, []), ops)
  {
    RunAgreesExactly(World(ph, []), [], ops);
  }
}
