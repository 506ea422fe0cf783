/** Address arithmetic of crates/bedrock-memory: how a 64-bit guest physical address selects one
    entry at each level of a 4-level radix tree. */
module Addressing {

  /** A physical address, guest or host. */
  datatype PhysAddr = PhysAddr(raw: bv64)

  /** Bits 47:39. */
  function Pml4Index(a: bv64): bv9 { ((a >> 39) & 0x1FF) as bv9 }

  /** Bits 38:30. */
  function PdptIndex(a: bv64): bv9 { ((a >> 30) & 0x1FF) as bv9 }

  /** Bits 29:21. */
  function PdIndex(a: bv64): bv9 { ((a >> 21) & 0x1FF) as bv9 }

  /** Bits 20:12. */
  function PtIndex(a: bv64): bv9 { ((a >> 12) & 0x1FF) as bv9 }

  /** The guest page number, bits 47:12. */
  function PageNumber(a: bv64): bv64 { (a >> 12) & 0xF_FFFF_FFFF }

  /** A 9-bit index as a position in a 512-entry table. */
  function Position(i: bv9): (n: nat)
    ensures n < 512
  {
    i as nat
  }

  /** The position that `a` selects in a table of the given level (4 = PML4, 1 = PT). */
  function Index(a: bv64, level: nat): (n: nat)
    requires 1 <= level <= 4
    ensures n < 512
  {
    if level == 4 then Position(Pml4Index(a))
    else if level == 3 then Position(PdptIndex(a))
    else if level == 2 then Position(PdIndex(a))
    else Position(PtIndex(a))
  }

  lemma PositionInjective(i: bv9, j: bv9)
    requires Position(i) == Position(j)
    ensures i == j
  {
    assert (i as nat) as bv9 == i;
    assert (j as nat) as bv9 == j;
  }

  lemma IndicesFixPageNumber(a: bv64, b: bv64)
    requires Pml4Index(a) == Pml4Index(b) && PdptIndex(a) == PdptIndex(b)
    requires PdIndex(a) == PdIndex(b) && PtIndex(a) == PtIndex(b)
    ensures PageNumber(a) == PageNumber(b)
  {}

  lemma PageNumberFixesPml4(a: bv64, b: bv64)
    requires PageNumber(a) == PageNumber(b)
    ensures Pml4Index(a) == Pml4Index(b)
  {}

  lemma PageNumberFixesPdpt(a: bv64, b: bv64)
    requires PageNumber(a) == PageNumber(b)
    ensures PdptIndex(a) == PdptIndex(b)
  {}

  lemma PageNumberFixesPd(a: bv64, b: bv64)
    requires PageNumber(a) == PageNumber(b)
    ensures PdIndex(a) == PdIndex(b)
  {}

  lemma PageNumberFixesPt(a: bv64, b: bv64)
    requires PageNumber(a) == PageNumber(b)
    ensures PtIndex(a) == PtIndex(b)
  {}

  /** Two addresses take the same path through all four levels. */
  ghost predicate SamePath(a: bv64, b: bv64) {
    Index(a, 4) == Index(b, 4) && Index(a, 3) == Index(b, 3) && Index(a, 2) == Index(b, 2) && Index(a, 1) == Index(b, 1)
  }

  /** The four indices together carry exactly the page number: bits 47:12, nothing more or less. */
  lemma SamePathIffSamePage(a: bv64, b: bv64)
    ensures SamePath(a, b) <==> PageNumber(a) == PageNumber(b)
  {
    if PageNumber(a) == PageNumber(b) {
      PageNumberFixesPml4(a, b);
      PageNumberFixesPdpt(a, b);
      PageNumberFixesPd(a, b);
      PageNumberFixesPt(a, b);
    }
    if SamePath(a, b) {
      PositionInjective(Pml4Index(a), Pml4Index(b));
      PositionInjective(PdptIndex(a), PdptIndex(b));
      PositionInjective(PdIndex(a), PdIndex(b));
      PositionInjective(PtIndex(a), PtIndex(b));
      IndicesFixPageNumber(a, b);
    }
  }

  /** The lowest address of a page. */
  function PageBase(n: bv64): bv64 { n << 12 }

  lemma PageBaseIsInPage(n: bv64)
    requires n <= 0xF_FFFF_FFFF
    ensures PageNumber(PageBase(n)) == n
  {}

  lemma PageNumberRange(a: bv64)
    ensures PageNumber(a) <= 0xF_FFFF_FFFF
  {}
}
