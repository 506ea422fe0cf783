/** The global handler as an object: crates/bedrock-vmx/src/handler.rs. */
module Handlers {
  import opened ForkProtocol
  import opened Options

  /** The entries that `Without` keeps are entries of the list. */
  lemma {:induction false} WithoutKeeps(list: seq<(nat, Obj)>, o: Obj)
    ensures forall i :: 0 <= i < |Without(list, o)| ==> Without(list, o)[i] in list && Without(list, o)[i].1 != o
    decreases |list|
  {
    if list != [] { WithoutKeeps(list[1..], o); }
  }

  lemma {:induction false} FindNone(list: seq<(nat, Obj)>, id: nat)
    requires forall i :: 0 <= i < |list| ==> list[i].0 != id
    ensures Find(list, id).None?
    decreases |list|
  {
    if list != [] { FindNone(list[1..], id); }
  }

  lemma {:induction false} FindAppended(list: seq<(nat, Obj)>, id: nat, o: Obj, x: nat)
    ensures Find(list + [(id, o)], x) == if Find(list, x).None? && x == id then Some(o) else Find(list, x)
    decreases |list|
  {
    var all := list + [(id, o)];
    if list == [] {
      assert all[1..] == [];
    } else {
      assert all[1..] == list[1..] + [(id, o)] && all[0] == list[0];
      FindAppended(list[1..], id, o, x);
    }
  }

  class Handler {
    var vmList: seq<(nat, Obj)>
    var nextVmId: nat

    /** No listed id reaches the counter. */
    ghost predicate Valid()
      reads this
    {
      forall i :: 0 <= i < |vmList| ==> vmList[i].0 < nextVmId
    }

    constructor ()
      ensures Valid() && vmList == Init.list && nextVmId == Init.nextId
    {
      vmList, nextVmId := [], 1;
    }

    /** A new id, or none when the list is full; ids only ever go up, so no listed VM has it. */
    method AllocVmId() returns (id: Option<nat>)
      requires Valid()
      modifies this`nextVmId
      ensures Valid() && (id.Some? <==> |vmList| < MAX_VMS)
      ensures id.Some? ==> id.value == old(nextVmId) && nextVmId == old(nextVmId) + 1 && Find(vmList, id.value).None?
      ensures id.None? ==> nextVmId == old(nextVmId)
    {
      if |vmList| >= MAX_VMS { return None; }
      id := Some(nextVmId);
      FindNone(vmList, nextVmId);
      nextVmId := nextVmId + 1;
    }

    /** From now on the VM is found by its id, if no other has it, and every other id finds what it found. */
    method AddVm(id: nat, o: Obj)
      requires Valid() && id < nextVmId
      modifies this`vmList
      ensures Valid() && vmList == old(vmList) + [(id, o)]
      ensures Find(vmList, id) == if Find(old(vmList), id).None? then Some(o) else Find(old(vmList), id)
      ensures forall x: nat :: x != id ==> Find(vmList, x) == Find(old(vmList), x)
    {
      forall x: nat
        ensures Find(vmList + [(id, o)], x) == if Find(vmList, x).None? && x == id then Some(o) else Find(vmList, x)
      {
        FindAppended(vmList, id, o, x);
      }
      vmList := vmList + [(id, o)];
    }

    /** Create a VM as the two system calls do: an id, then an entry. The id finds the VM and no id that was
        in use finds anything else. */
    method Register(o: Obj) returns (id: Option<nat>)
      requires Valid()
      modifies this
      ensures Valid() && (id.Some? <==> old(|vmList|) < MAX_VMS)
      ensures id.Some? ==> Find(old(vmList), id.value).None? && Find(vmList, id.value) == Some(o)
      ensures forall x: nat :: id != Some(x) ==> Find(vmList, x) == Find(old(vmList), x)
    {
      id := AllocVmId();
      if id.Some? { AddVm(id.value, o); }
    }

    /** Drop every entry that refers to `o`: no id finds it any more. */
    method RemoveVm(o: Obj)
      requires Valid()
      modifies this`vmList
      ensures Valid() && vmList == Without(old(vmList), o)
      ensures forall i :: 0 <= i < |vmList| ==> vmList[i] in old(vmList) && vmList[i].1 != o
    {
      var kept, i := [], 0;
      while i < |vmList|
        invariant 0 <= i <= |vmList| && vmList == old(vmList)
        invariant kept + Without(vmList[i..], o) == Without(vmList, o)
      {
        assert vmList[i..][1..] == vmList[i + 1..];
        if vmList[i].1 != o { kept := kept + [vmList[i]]; }
        i := i + 1;
      }
      assert kept == Without(vmList, o);
      WithoutKeeps(vmList, o);
      assert forall e :: e in vmList ==> e.0 < nextVmId;
      vmList := kept;
    }

    method FindVmById(id: nat) returns (o: Option<Obj>)
      ensures o == Find(vmList, id)
    {
      var i := 0;
      while i < |vmList|
        invariant 0 <= i <= |vmList|
        invariant Find(vmList, id) == Find(vmList[i..], id)
      {
        assert vmList[i..][1..] == vmList[i + 1..];
        if vmList[i].0 == id { return Some(vmList[i].1); }
        i := i + 1;
      }
      return None;
    }
  }
}
