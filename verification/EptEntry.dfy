/** Extended page table entries of crates/bedrock-ept/src/entry.rs: one 64-bit word holding a host
    frame address in bits 51:12, permissions in bits 2:0 and, in a leaf, a memory type in bits 5:3. */
module EptEntry {
  import opened Addressing

  /** Read is bit 0, write bit 1, execute bit 2. */
  type PermBits = p: bv64 | p <= 7

  const READ_EXECUTE_BITS: PermBits := 5

  const ADDR_MASK: bv64 := 0x000F_FFFF_FFFF_F000

  /** Write-back, the only memory type the code uses, already shifted to bits 5:3. */
  const WRITE_BACK_BITS: bv64 := 48

  /** The raw word of an entry, at any level. */
  datatype EntryWord = EntryWord(raw: bv64)

  function TableEntry(addr: PhysAddr, perms: PermBits): EntryWord { EntryWord((addr.raw & ADDR_MASK) | perms) }

  function PageEntry4k(addr: PhysAddr, perms: PermBits): EntryWord {
    EntryWord((addr.raw & ADDR_MASK) | perms | WRITE_BACK_BITS)
  }

  predicate IsPresent(e: EntryWord) { e.raw & 7 != 0 }

  function FrameOf(e: EntryWord): PhysAddr { PhysAddr(e.raw & ADDR_MASK) }

  function PermsOf(e: EntryWord): PermBits { e.raw & 7 }

  /** The part of an address an entry can hold: bits 51:12. */
  function Frame(a: PhysAddr): PhysAddr { PhysAddr(a.raw & ADDR_MASK) }

  lemma TableEntryReadsBack(addr: PhysAddr, perms: PermBits)
    ensures FrameOf(TableEntry(addr, perms)) == Frame(addr)
    ensures PermsOf(TableEntry(addr, perms)) == perms
    ensures IsPresent(TableEntry(addr, perms)) <==> perms != 0
  {}

  lemma PageEntryReadsBack(addr: PhysAddr, perms: PermBits)
    ensures FrameOf(PageEntry4k(addr, perms)) == Frame(addr)
    ensures PermsOf(PageEntry4k(addr, perms)) == perms
    ensures IsPresent(PageEntry4k(addr, perms)) <==> perms != 0
  {}

  lemma FrameOfIsFrame(e: EntryWord)
    ensures Frame(FrameOf(e)) == FrameOf(e)
  {}
}
