/** What crates/bedrock-ept/src/table.rs computes, as functions on the decoded contents of physical
    memory. A table is a tree of 4 KB frames linked only by the addresses stored in their entries.
    Frame addresses are left abstract: nothing here depends on how an entry packs them. */
module EptTable {
  import opened Options

  datatype Perms = Perms(read: bool, write: bool, exec: bool) {
    predicate Any() { read || write || exec }

    function And(that: Perms): Perms { Perms(read && that.read, write && that.write, exec && that.exec) }
  }

  const READ_WRITE_EXECUTE := Perms(true, true, true)
  const READ_EXECUTE := Perms(true, false, true)
  const NO_PERMS := Perms(false, false, false)

  /** An entry is present exactly when it grants something. */
  type SomePerms = p: Perms | p.Any() witness Perms(true, true, true)

  /** One decoded entry: absent, or a frame with the permissions to reach it. */
  datatype Entry<+F> = Absent | Present(frame: F, perms: SomePerms)

  /** What an entry written with these permissions reads back as: without any permission it is absent. */
  function Written<F>(frame: F, perms: Perms): Entry<F> {
    if perms.Any() then Present(frame, perms) else Absent
  }

  /** What a leaf written with these permissions translates to. */
  function Leaf<F>(host: F, perms: Perms): Option<Mapping<F>> {
    if perms.Any() then Some(Mapping(host, perms)) else None
  }

  /** Frame contents by host physical address; a frame is 512 entries. */
  type Memory<F(==)> = map<F, seq<Entry<F>>>

  /** Physical memory and the allocator's remaining frames, in the order it hands them out.
      A frame keeps stale contents until someone writes it. */
  datatype Phys<F(==)> = Phys(mem: Memory<F>, free: seq<F>)

  /** `pml4` is the root frame and `frames` every frame the table owns, in allocation order. */
  datatype Table<F> = Table(pml4: F, frames: seq<F>)

  datatype Mapping<F> = Mapping(host: F, perms: Perms)

  /** The four 9-bit indices an address selects. */
  datatype Path = Path(pml4: nat, pdpt: nat, pd: nat, pt: nat) {
    /** The index used in a table of the given level (4 = PML4, 1 = PT). */
    function Index(level: nat): nat
      requires 1 <= level <= 4
    {
      if level == 4 then pml4 else if level == 3 then pdpt else if level == 2 then pd else pt
    }

    predicate InRange() { pml4 < 512 && pdpt < 512 && pd < 512 && pt < 512 }
  }

  /** A cleared 4 KB frame. */
  function ZeroFrame<F>(): (z: seq<Entry<F>>)
    ensures |z| == 512 && forall i :: 0 <= i < 512 ==> z[i] == Absent
  {
    seq(512, (i: nat) => Absent)
  }

  /** The entry in slot `i` of frame `t`. */
  function Slot<F(==)>(mem: Memory<F>, t: F, i: nat): Entry<F> {
    if t in mem && i < |mem[t]| then mem[t][i] else Absent
  }

  function Write<F(==)>(mem: Memory<F>, t: F, i: nat, e: Entry<F>): Memory<F> {
    if t in mem && i < |mem[t]| then mem[t := mem[t][i := e]] else mem
  }

  /** The table of level `k` on path `p`, if the walk gets that far. */
  function TableAt<F(==)>(mem: Memory<F>, root: F, p: Path, k: nat): Option<F>
    requires 1 <= k <= 4
    decreases 4 - k
  {
    if k == 4 then Some(root)
    else
      match TableAt(mem, root, p, k + 1)
      case None => None
      case Some(t) =>
        match Slot(mem, t, p.Index(k + 1))
        case Absent => None
        case Present(f, _) => Some(f)
  }

  /** The translation of `p`: the leaf's frame and permissions, when all four levels are present. */
  function Translate<F(==)>(mem: Memory<F>, root: F, p: Path): Option<Mapping<F>> {
    match TableAt(mem, root, p, 1)
    case None => None
    case Some(t) =>
      match Slot(mem, t, p.Index(1))
      case Absent => None
      case Present(h, perms) => Some(Mapping(h, perms))
  }

  /** The access rights the processor grants: the AND of the permissions of the entries used at all
      four levels, and none when a level is missing (Intel SDM volume 3C, section 30.3.2). */
  function HardwarePerms<F(==)>(mem: Memory<F>, root: F, p: Path, k: nat := 1): Perms
    requires 1 <= k <= 5
    decreases 5 - k
  {
    if k == 5 then READ_WRITE_EXECUTE
    else
      match TableAt(mem, root, p, k)
      case None => NO_PERMS
      case Some(t) =>
        match Slot(mem, t, p.Index(k))
        case Absent => NO_PERMS
        case Present(_, perms) => HardwarePerms(mem, root, p, k + 1).And(perms)
  }

  // Allocation

  /** Take the next free frame and zero it. */
  function TakeZeroed<F(==)>(ph: Phys<F>): Option<(F, Phys<F>)> {
    if ph.free == [] then None
    else Some((ph.free[0], Phys(ph.mem[ph.free[0] := ZeroFrame()], ph.free[1..])))
  }

  function NewTable<F(==)>(ph: Phys<F>): (Phys<F>, Option<Table<F>>) {
    match TakeZeroed(ph)
    case None => (ph, None)
    case Some((f, ph')) => (ph', Some(Table(f, [f])))
  }

  // map_4k

  datatype Ensured<F(==)> = Ensured(ph: Phys<F>, tbl: Table<F>, next: Option<F>)

  /** The next-level table behind slot `i` of `t`, allocating and linking one if the slot is empty. */
  function EnsureTable<F(==)>(ph: Phys<F>, tbl: Table<F>, t: F, i: nat, perms: Perms): Ensured<F> {
    match Slot(ph.mem, t, i)
    case Present(f, _) => Ensured(ph, tbl, Some(f))
    case Absent =>
      match TakeZeroed(ph)
      case None => Ensured(ph, tbl, None)
      case Some((f, ph1)) =>
        Ensured(Phys(Write(ph1.mem, t, i, Written(f, perms)), ph1.free),
                Table(tbl.pml4, tbl.frames + [f]),
                Some(f))
  }

  /** The table of level `k` on path `p`, creating levels top down as far as needed. */
  function EnsurePath<F(==)>(ph: Phys<F>, tbl: Table<F>, p: Path, perms: Perms, k: nat): Ensured<F>
    requires 1 <= k <= 4
    decreases 4 - k
  {
    if k == 4 then Ensured(ph, tbl, Some(tbl.pml4))
    else
      var up := EnsurePath(ph, tbl, p, perms, k + 1);
      match up.next
      case None => up
      case Some(t) => EnsureTable(up.ph, up.tbl, t, p.Index(k + 1), perms)
  }

  datatype Mapped<F(==)> = Mapped(ph: Phys<F>, tbl: Table<F>, ok: bool)

  function Map4k<F(==)>(ph: Phys<F>, tbl: Table<F>, p: Path, host: F, perms: Perms): Mapped<F> {
    var r := EnsurePath(ph, tbl, p, perms, 1);
    match r.next
    case None => Mapped(r.ph, r.tbl, false)
    case Some(t) => Mapped(Phys(Write(r.ph.mem, t, p.Index(1), Written(host, perms)), r.ph.free), r.tbl, true)
  }

  /** Overwrite an existing leaf; nothing happens when the page is not mapped. */
  function Remap4k<F(==)>(mem: Memory<F>, root: F, p: Path, host: F, perms: Perms): (Memory<F>, bool) {
    match TableAt(mem, root, p, 1)
    case None => (mem, false)
    case Some(t) =>
      if Slot(mem, t, p.Index(1)).Present? then (Write(mem, t, p.Index(1), Written(host, perms)), true)
      else (mem, false)
  }

  // clone_for_fork

  datatype Cloned<F(==)> = Cloned(ph: Phys<F>, frames: seq<F>, ok: bool)

  /** Copy slots `i..512` of source table `s` into the zeroed table `d`, depth first: above level 1
      each present entry gets a fresh table of its own; a leaf keeps its frame but becomes
      read-execute. */
  function CloneSlots<F(==)>(ph: Phys<F>, frames: seq<F>, s: F, d: F, level: nat, i: nat): Cloned<F>
    requires 1 <= level <= 4
    requires i <= 512
    decreases level, 512 - i
  {
    if i == 512 then Cloned(ph, frames, true)
    else
      match Slot(ph.mem, s, i)
      case Absent => CloneSlots(ph, frames, s, d, level, i + 1)
      case Present(f, perms) =>
        if level == 1 then
          CloneSlots(Phys(Write(ph.mem, d, i, Present(f, READ_EXECUTE)), ph.free), frames, s, d, level, i + 1)
        else
          match TakeZeroed(ph)
          case None => Cloned(ph, frames, false)
          case Some((n, ph1)) =>
            var ph2 := Phys(Write(ph1.mem, d, i, Written(n, perms)), ph1.free);
            var below := CloneSlots(ph2, frames + [n], f, n, level - 1, 0);
            if below.ok then CloneSlots(below.ph, below.frames, s, d, level, i + 1) else below
  }

  /** On failure the frames gathered so far are dropped, which returns them to the allocator. */
  function CloneForFork<F(==)>(ph: Phys<F>, src: Table<F>): (Phys<F>, Option<Table<F>>) {
    match TakeZeroed(ph)
    case None => (ph, None)
    case Some((d, ph1)) =>
      var r := CloneSlots(ph1, [d], src.pml4, d, 4, 0);
      if r.ok then (r.ph, Some(Table(d, r.frames)))
      else (Phys(r.ph.mem, r.frames + r.ph.free), None)
  }
}
