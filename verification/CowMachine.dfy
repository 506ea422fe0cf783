/** The copy-on-write operations as the code performs them: crates/bedrock-vmx/src/cow.rs,
    crates/bedrock-vmx/src/vm/forked.rs and the mmap path of crates/bedrock/vm_file/forked.rs. */
module CowMachine {
  import opened Addressing
  import CM = CowMemory
  import opened Options

  // The copy-on-write map

  /** Clearing the page offset. */
  function Aligned(a: bv64): bv64 { a & !0xFFF }

  lemma SamePageSameKey(a: bv64, b: bv64)
    requires a >> 48 == b >> 48 && PageNumber(a) == PageNumber(b)
    ensures Aligned(a) == Aligned(b)
  {}

  lemma SameKeySamePage(a: bv64, b: bv64)
    requires Aligned(a) == Aligned(b)
    ensures PageNumber(a) == PageNumber(b) && a >> 48 == b >> 48
  {}

  /** Pages copied for one VM, keyed by page-aligned address. */
  class CowPageMap<P> {
    var pages: map<PhysAddr, P>
    var count: nat

    ghost predicate Valid()
      reads this
    {
      count == |pages|
    }

    /** The page that holds guest address `a`. */
    ghost function At(a: PhysAddr): Option<P>
      reads this
    {
      if PhysAddr(Aligned(a.raw)) in pages then Some(pages[PhysAddr(Aligned(a.raw))]) else None
    }

    constructor ()
      ensures Valid() && forall a :: At(a) == None
    {
      pages, count := map[], 0;
    }

    method Get(a: PhysAddr) returns (r: Option<P>)
      ensures r == At(a)
    {
      var k := PhysAddr(Aligned(a.raw));
      r := if k in pages then Some(pages[k]) else None;
    }

    method Contains(a: PhysAddr) returns (b: bool)
      ensures b == At(a).Some?
    {
      b := PhysAddr(Aligned(a.raw)) in pages;
    }

    /** Every address of the page, and no other address, now finds the new page. */
    method Insert(a: PhysAddr, page: P)
      requires Valid()
      modifies this
      ensures Valid()
      ensures forall b :: At(b) == if Aligned(b.raw) == Aligned(a.raw) then Some(page) else old(At(b))
      ensures count == old(count) + if old(At(a)).None? then 1 else 0
    {
      var k := PhysAddr(Aligned(a.raw));
      ghost var before := pages;
      if k !in pages { count := count + 1; }
      pages := pages[k := page];
      OneMorePage(before, k, page);
    }
  }

  lemma OneMorePage<P>(pages: map<PhysAddr, P>, k: PhysAddr, page: P)
    ensures |pages[k := page]| == |pages| + if k in pages then 0 else 1
  {
    assert pages[k := page].Keys == pages.Keys + {k};
  }

  /** A copy by `x` lets its parent answer for no further page. */
  lemma CopyKeepsUnreadable(m: CM.Mem, x: CM.Id, p: CM.Page, f: CM.Frame, gpas: seq<CM.Page>)
    requires CM.Inv(m) && CM.Enabled(m, CM.Cow(x, p, f))
    ensures var m' := CM.Apply(m, CM.Cow(x, p, f));
      m'.spaces[x].parent == m.spaces[x].parent
      && forall j :: 0 <= j < |gpas| && CM.ReadPage(m.spaces, m.spaces[x].parent, gpas[j]).None? ==>
        CM.ReadPage(m'.spaces, m.spaces[x].parent, gpas[j]).None?
  {
    forall j | 0 <= j < |gpas| && CM.ReadPage(m.spaces, m.spaces[x].parent, gpas[j]).None?
      ensures CM.ReadPage(CM.Apply(m, CM.Cow(x, p, f)).spaces, m.spaces[x].parent, gpas[j]).None?
    {
      CM.CowReads(m, CM.Cow(x, p, f), m.spaces[x].parent, gpas[j]);
    }
  }

  // The machine

  /** Guest memory of all VMs and the frames the allocator still has. */
  class Machine {
    var mem: CM.Mem
    var free: seq<CM.Frame>

    ghost predicate Valid()
      reads this
    {
      && CM.Inv(mem)
      && (forall i :: 0 <= i < |free| ==> free[i] !in mem.data)
      && (forall i, j :: 0 <= i < j < |free| ==> free[i] != free[j])
    }

    /** Nothing that any VM reads has changed. */
    twostate predicate Unseen()
      reads this
    {
      forall y, q :: CM.SameViews(old(mem), mem, y, q)
    }

    ghost predicate IsFork(x: CM.Id)
      reads this
    {
      x in mem.spaces && mem.spaces[x].Fork?
    }

    /** A write fault on page `p`: copy the page the chain has, once. It fails without a frame, outside
        the root's memory, or for a page the EPT does not map; only the last leaves a copy behind. */
    method HandleCowFault(x: CM.Id, p: CM.Page) returns (handled: bool)
      requires Valid() && IsFork(x)
      modifies this
      ensures Valid() && IsFork(x) && Unseen()
      ensures var s := old(mem.spaces[x]);
        var copied := p !in s.own && old(free) != [] && CM.ReadPage(old(mem.spaces), s.parent, p).Some?;
        && (copied ==>
              && CM.Enabled(old(mem), CM.Cow(x, p, old(free)[0]))
              && mem == CM.Apply(old(mem), CM.Cow(x, p, old(free)[0])) && free == old(free)[1..])
        && (!copied ==> mem == old(mem) && free == old(free))
        && (handled <==> p in s.own || (copied && p in s.ept))
      ensures handled && p in mem.spaces[x].ept && p !in old(mem.spaces[x].own) ==>
        mem.spaces[x].ept[p] == CM.Access(mem.spaces[x].own[p], true)
    {
      var s := mem.spaces[x];
      if p in s.own { return true; }
      if free == [] { return false; }
      var frame := free[0];
      var source := CM.ReadPage(mem.spaces, s.parent, p);
      if source.None? { return false; }
      ghost var a := CM.ReadOwner(mem.spaces, s.parent, p);
      assert CM.Owns(mem.spaces, a, p, source.value);
      ghost var step := CM.Cow(x, p, frame);
      CM.CowKeeps(mem, step);
      forall y, q ensures CM.SameViews(mem, CM.Apply(mem, step), y, q) { CM.CowIsInvisible(mem, step, y, q); }
      assert forall i :: 0 <= i < |free| - 1 ==> free[1..][i] == free[i + 1];
      mem := CM.Mem(mem.spaces[x := CM.WithCow(s, p, frame)], mem.data[frame := mem.data[source.value]]);
      free := free[1..];
      handled := p in s.ept;
    }

    /** Before a feedback buffer is mapped, every one of its pages becomes the VM's own, as far as frames
        last and the root's memory reaches; pages it already owns keep their frame. */
    method CowFeedbackBuffer(x: CM.Id, gpas: seq<CM.Page>)
      requires Valid() && IsFork(x)
      modifies this
      ensures Valid() && IsFork(x) && Unseen()
      ensures forall p :: p in old(mem.spaces[x].own) ==>
        p in mem.spaces[x].own && mem.spaces[x].own[p] == old(mem.spaces[x].own[p])
      ensures forall i :: 0 <= i < |gpas| ==>
        gpas[i] in mem.spaces[x].own || free == [] || CM.ReadPage(mem.spaces, mem.spaces[x].parent, gpas[i]).None?
    {
      var i := 0;
      while i < |gpas|
        invariant 0 <= i <= |gpas| && Valid() && IsFork(x) && Unseen()
        invariant forall p :: p in old(mem.spaces[x].own) ==>
          p in mem.spaces[x].own && mem.spaces[x].own[p] == old(mem.spaces[x].own[p])
        invariant forall j :: 0 <= j < i ==>
          gpas[j] in mem.spaces[x].own || free == [] || CM.ReadPage(mem.spaces, mem.spaces[x].parent, gpas[j]).None?
      {
        ghost var before, frames := mem, free;
        var handled := HandleCowFault(x, gpas[i]);
        if mem != before {
          CopyKeepsUnreadable(before, x, gpas[i], frames[0], gpas);
        }
        forall y, q ensures CM.SameViews(old(mem), mem, y, q) {
          assert CM.SameViews(old(mem), before, y, q) && CM.SameViews(before, mem, y, q);
        }
        i := i + 1;
      }
    }

    /** The host pages of a buffer to map: own page, else the parent chain's; none if one is missing. */
    method ResolvePages(x: CM.Id, gpas: seq<CM.Page>) returns (hpas: Option<seq<CM.Frame>>)
      requires x in mem.spaces && mem.spaces[x].Fork?
      ensures hpas.Some? <==> forall i :: 0 <= i < |gpas| ==> CM.ReadPage(mem.spaces, x, gpas[i]).Some?
      ensures hpas.Some? ==> |hpas.value| == |gpas|
      ensures hpas.Some? ==> forall i :: 0 <= i < |gpas| ==> Some(hpas.value[i]) == CM.ReadPage(mem.spaces, x, gpas[i])
    {
      var found: seq<CM.Frame> := [];
      var i := 0;
      while i < |gpas|
        invariant 0 <= i <= |gpas| && |found| == i
        invariant forall j :: 0 <= j < i ==> Some(found[j]) == CM.ReadPage(mem.spaces, x, gpas[j])
      {
        if gpas[i] in mem.spaces[x].own {
          found := found + [mem.spaces[x].own[gpas[i]]];
        } else {
          var frame := CM.ReadPage(mem.spaces, x, gpas[i]);
          if frame.None? { return None; }
          found := found + [frame.value];
        }
        i := i + 1;
      }
      return Some(found);
    }
  }
}
