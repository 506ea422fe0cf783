/** Which operation decides what the processor grants on one page. */
module EptLastWrite {
  import opened EptTable
  import opened EptTree
  import opened EptMap
  import opened EptClone
  import opened EptPerms
  import opened EptRuns
  import opened Options

  /** The operation succeeds in writing the entry of `page` in table `k`: a mapping with frames for the tables
      its path is missing, a remapping of a mapped page, or the fork that makes table `k`, with frames for
      all tables of its source. */
  ghost predicate Writes<F(!new)>(w: World<F>, op: Op<F>, k: nat, page: Path) {
    match op
    case Map(table, p, _, _) =>
      && table == k && p == page && Live(w, k)
      && MissingTables(w.ph.mem, w.tables[k].value.pml4, page, 1) <= |w.ph.free|
    case Remap(table, p, _, _) => table == k && p == page && Lookup(w, k, page).Some?
    case Fork(source) =>
      k == |w.tables| && Live(w, source) && |TablesOf(w.ph.mem, w.tables[source].value.pml4)| <= |w.ph.free|
    case _ => false
  }

  /** The table whose path decides: the one written, or the source of the fork. */
  ghost function Origin<F>(op: Op<F>): nat { if op.Map? || op.Remap? || op.Fork? then op.table else 0 }

  ghost function Asked<F>(op: Op<F>): Perms { if op.Map? || op.Remap? then op.perms else READ_EXECUTE }

  /** What `lookup` must answer from then on. */
  ghost function Shown<F>(w: World<F>, op: Op<F>, page: Path): Option<Mapping<F>> {
    match op
    case Map(_, _, host, perms) => Leaf(host, perms)
    case Remap(_, _, host, perms) => Leaf(host, perms)
    case Fork(source) => ReadExecuteOnly(Lookup(w, source, page))
    case _ => None
  }

  /** The entry reads as asked, and the processor agrees exactly when the upper-level entries present on the
      path, before the operation, grant what it asks for. */
  ghost predicate Decided<F(!new)>(w: World<F>, op: Op<F>, w': World<F>, k: nat, page: Path) {
    && Lookup(w', k, page) == Shown(w, op, page) && Live(w, Origin(op))
    && (AgreesIn(w', k, page) <==>
        (op.Fork? && Lookup(w, op.table, page).None?) ||
        PathGrants(w.ph.mem, w.tables[Origin(op)].value.pml4, page, Asked(op)))
  }

  lemma MapDecides<F(!new)>(w: World<F>, nss: seq<Nodes<F>>, op: Op<F>, k: nat, page: Path)
    requires Inv(w, nss, false) && op.Map? && page.InRange() && Writes(w, op, k, page)
    ensures Live(Apply(w, op), k) && Decided(w, op, Apply(w, op), k, page)
  {
    var t := w.tables[k].value;
    assert TableOk(w.ph, t, nss[k], false);
    Map4kFailsExactly(w.ph, t, nss[k], page, op.host, op.perms);
    var _ := Map4kUpdatesOnePage(w.ph, t, nss[k], page, op.host, op.perms);
    MapAgreesExactly(w.ph, t, nss[k], page, op.host, op.perms);
  }

  lemma RemapDecides<F(!new)>(w: World<F>, nss: seq<Nodes<F>>, op: Op<F>, k: nat, page: Path)
    requires Inv(w, nss, false) && op.Remap? && page.InRange() && Writes(w, op, k, page)
    ensures Live(Apply(w, op), k) && Decided(w, op, Apply(w, op), k, page)
  {
    var t := w.tables[k].value;
    assert TableOk(w.ph, t, nss[k], false);
    Remap4kUpdatesMappedPage(w.ph, t, nss[k], page, op.host, op.perms);
    RemapAgreesExactly(w.ph, t, nss[k], page, op.host, op.perms);
  }

  lemma ForkDecides<F(!new)>(w: World<F>, nss: seq<Nodes<F>>, op: Op<F>, k: nat, page: Path)
    requires Inv(w, nss, false) && op.Fork? && page.InRange() && Writes(w, op, k, page)
    ensures Live(Apply(w, op), k) && Decided(w, op, Apply(w, op), k, page)
  {
    var t := w.tables[op.table].value;
    assert TableOk(w.ph, t, nss[op.table], false);
    ForkFailsExactly(w.ph, t, nss[op.table]);
    var _ := StepFork(w, nss, op.table, false);
    ForkAgreesExactly(w.ph, t, nss[op.table], page);
  }

  /** Main result: on one page it is the last operation that wrote the page which decides, a mapping, a
      remapping or the fork that made the table, whatever other pages and tables went through before and
      go through after. */
  lemma LastWriteDecides<F(!new)>(ph: Phys<F>, before: seq<Op<F>>, op: Op<F>, after: seq<Op<F>>, k: nat, page: Path)
    requires PoolOk(ph) && AllWellFormed(before) && op.WellFormed() && AllWellFormed(after) && page.InRange()
    requires Writes(Run(World(ph, []), before), op, k, page)
    requires forall i :: 0 <= i < |after| ==> !after[i].Touches(k, page)
    ensures var w := Run(World(ph, []), before);
      var w' := Run(Apply(w, op), after);
      Live(w', k) && Decided(w, op, w', k, page)
  {
    var w := Run(World(ph, []), before);
    var nss := RunKeepsInv(World(ph, []), [], before, false);
    if op.Map? {
      MapDecides(w, nss, op, k, page);
    } else if op.Remap? {
      RemapDecides(w, nss, op, k, page);
    } else {
      ForkDecides(w, nss, op, k, page);
    }
    var nss1 := StepKeepsInv(w, nss, op, false);
    RunKeepsUntouchedPage(Apply(w, op), nss1, after, k, page);
  }
}
