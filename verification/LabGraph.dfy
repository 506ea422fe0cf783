/** The registry and the rewind as objects: crates/bedrock-lab/src/inner.rs and
    crates/bedrock-lab/src/checkpoint.rs. */
module LabGraphs {
  import opened LabTree
  import opened LabRewind
  import opened Options

  datatype Outcome =
    | Existing(id: Id)          // a checkpoint already sits at the target
    | Created(id: Id)           // a new one was inserted
    | NoCheckpointBefore
    | ReplayFailed

  // The children index

  /** Children are kept in order of time, then id. */
  datatype Key = Key(time: nat, id: Id)

  type Index = map<Id, map<Key, Id>>

  predicate Lists(ix: Index, p: Id, k: Key) { p in ix && k in ix[p] && ix[p][k] == k.id }

  /** The children index is the exact inverse of the parent map. */
  ghost predicate Inverse(ix: Index, g: Graph) {
    && (forall p, k :: p in ix && k in ix[p] ==> Lists(ix, p, k))
    && (forall p, k :: Lists(ix, p, k) ==>
      k.id in g.parent && g.parent[k.id] == p && k.id in g.nodes && g.nodes[k.id].time == k.time)
    && (forall c :: c in g.parent && c in g.nodes ==> Lists(ix, g.parent[c], Key(g.nodes[c].time, c)))
  }

  function ChildrenOf(ix: Index, p: Id): map<Key, Id> { if p in ix then ix[p] else map[] }

  function WithChild(ix: Index, p: Id, k: Key): Index { ix[p := ChildrenOf(ix, p)[k := k.id]] }

  function WithoutChild(ix: Index, p: Id, k: Key): Index { if p in ix then ix[p := ix[p] - {k}] else ix }

  lemma WithChildLists(ix: Index, p: Id, k: Key, q: Id, j: Key)
    ensures Lists(WithChild(ix, p, k), q, j) <==> Lists(ix, q, j) || (q == p && j == k)
  {}

  lemma WithoutChildLists(ix: Index, p: Id, k: Key, q: Id, j: Key)
    ensures Lists(WithoutChild(ix, p, k), q, j) <==> Lists(ix, q, j) && !(q == p && j == k)
  {}

  lemma RegisteredInverse(ix: Index, g: Graph, id: Id, time: nat, p: Id)
    requires Inverse(ix, g) && id !in g.nodes && id !in g.parent
    ensures Inverse(WithChild(ix, p, Key(time, id)), Registered(g, id, time, Some(p)))
  {
    var ix', g' := WithChild(ix, p, Key(time, id)), Registered(g, id, time, Some(p));
    forall q, j ensures Lists(ix', q, j) <==> Lists(ix, q, j) || (q == p && j == Key(time, id)) {
      WithChildLists(ix, p, Key(time, id), q, j);
    }
    forall q, j | q in ix' && j in ix'[q] ensures Lists(ix', q, j) {
      if !(q == p && j == Key(time, id)) { assert Lists(ix, q, j); }
    }
    forall c | c in g'.parent && c in g'.nodes ensures Lists(ix', g'.parent[c], Key(g'.nodes[c].time, c)) {
      if c != id { assert Lists(ix, g.parent[c], Key(g.nodes[c].time, c)); }
    }
  }

  /** The index after moving `child`. */
  function Moved(ix: Index, g: Graph, child: Id, newParent: Id): Index
    requires child in g.nodes
  {
    var k := Key(g.nodes[child].time, child);
    WithChild(if child in g.parent then WithoutChild(ix, g.parent[child], k) else ix, newParent, k)
  }

  lemma MovedLists(ix: Index, g: Graph, child: Id, newParent: Id, q: Id, j: Key)
    requires Inverse(ix, g) && child in g.nodes
    ensures Lists(Moved(ix, g, child, newParent), q, j) <==>
      (Lists(ix, q, j) && j.id != child) || (q == newParent && j == Key(g.nodes[child].time, child))
  {
    var k := Key(g.nodes[child].time, child);
    if child in g.parent {
      WithoutChildLists(ix, g.parent[child], k, q, j);
      WithChildLists(WithoutChild(ix, g.parent[child], k), newParent, k, q, j);
    } else {
      WithChildLists(ix, newParent, k, q, j);
    }
  }

  lemma MovedInverse(ix: Index, g: Graph, child: Id, newParent: Id)
    requires Inverse(ix, g) && child in g.nodes && g.nodes[child].alive
    ensures Inverse(Moved(ix, g, child, newParent), Reparented(g, child, newParent))
  {
    var ix', g' := Moved(ix, g, child, newParent), Reparented(g, child, newParent);
    var k := Key(g.nodes[child].time, child);
    forall q, j ensures Lists(ix', q, j) <==> (Lists(ix, q, j) && j.id != child) || (q == newParent && j == k) {
      MovedLists(ix, g, child, newParent, q, j);
    }
    forall q, j | q in ix' && j in ix'[q] ensures Lists(ix', q, j) {
      if !(q == newParent && j == k) { assert Lists(ix, q, j); }
    }
    forall c | c in g'.parent && c in g'.nodes ensures Lists(ix', g'.parent[c], Key(g'.nodes[c].time, c)) {
      if c != child { assert Lists(ix, g.parent[c], Key(g.nodes[c].time, c)); }
    }
  }

  class LabGraph {
    var checkpoints: map<Id, Node>
    var parent: map<Id, Id>
    var children: Index
    var nextId: Id

    ghost function G(): Graph
      reads this
    {
      Graph(checkpoints, parent)
    }

    /** Ids come from the counter, links stay inside the registry and both maps agree. */
    ghost predicate Consistent()
      reads this
    {
      && (forall x :: x in checkpoints ==> x < nextId)
      && (forall c :: c in parent ==> c in checkpoints && parent[c] in checkpoints)
      && Inverse(children, G())
    }

    ghost predicate Valid()
      reads this
    {
      Consistent() && Ordered(G())
    }

    constructor ()
      ensures Valid() && G() == Graph(map[], map[]) && nextId == 0
    {
      checkpoints, parent, children, nextId := map[], map[], map[], 0;
    }

    /** Register a new checkpoint, under a parent unless it is the root. */
    method RegisterCheckpoint(time: nat, under: Option<Id>) returns (id: Id)
      requires Consistent() && (under.Some? ==> under.value in checkpoints)
      modifies this
      ensures Consistent()
      ensures id == old(nextId) && nextId == id + 1
      ensures G() == Registered(old(G()), id, time, under)
    {
      id := nextId;
      if under.Some? { RegisteredInverse(children, G(), id, time, under.value); }
      nextId := nextId + 1;
      checkpoints := checkpoints[id := Node(time, true)];
      if under.Some? {
        parent := parent[id := under.value];
        children := WithChild(children, under.value, Key(time, id));
      }
    }

    /** The last handle of `x` goes; the maps keep it. */
    method Release(x: Id)
      requires Consistent() && x in checkpoints
      modifies this`checkpoints
      ensures Consistent() && G() == Dropped(old(G()), x)
    {
      checkpoints := checkpoints[x := checkpoints[x].(alive := false)];
      assert forall c :: c in parent ==> Lists(children, parent[c], Key(checkpoints[c].time, c));
    }

    /** Move a live checkpoint under another parent, in both maps. */
    method Reparent(child: Id, newParent: Id)
      requires Consistent() && newParent in checkpoints
      modifies this`parent, this`children
      ensures Consistent() && G() == Reparented(old(G()), child, newParent)
    {
      if child !in checkpoints || !checkpoints[child].alive { return; }
      MovedInverse(children, G(), child, newParent);
      var k := Key(checkpoints[child].time, child);
      if child in parent { children := WithoutChild(children, parent[child], k); }
      parent := parent[child := newParent];
      children := WithChild(children, newParent, k);
    }

    /** The parent, if it can still be upgraded. */
    method Parent(x: Id) returns (p: Option<Id>)
      requires Consistent()
      ensures p == if x in parent && checkpoints[parent[x]].alive then Some(parent[x]) else None
    {
      if x !in parent || !checkpoints[parent[x]].alive { return None; }
      return Some(parent[x]);
    }

    /** Every checkpoint on the walk from `x` that is at or before the target, in walk order. */
    method RewindCandidates(x: Id, target: nat) returns (candidates: seq<Id>)
      requires Valid() && x in checkpoints
      ensures candidates == AtOrBefore(G(), LiveChain(G(), x), target)
    {
      candidates := [];
      var walk := Some(x);
      ghost var g := G();
      while walk.Some?
        invariant walk.Some? ==> walk.value in g.nodes
        invariant candidates + Pending(g, walk, target) == Pending(g, Some(x), target)
        decreases walk.Some?, if walk.Some? then g.nodes[walk.value].time else 0, if walk.Some? then walk.value else 0
      {
        var cp := walk.value;
        PendingStep(g, cp, target);
        if checkpoints[cp].time <= target { candidates := candidates + [cp]; }
        walk := Parent(cp);
      }
    }

    /** The checkpoint on the walk from `x` whose parent on the walk is the nearest at or before the
        target. */
    method LogicalChildAfter(x: Id, target: nat, ancestor: Id, ghost k: nat) returns (child: Option<Id>)
      requires Valid() && x in checkpoints && target < checkpoints[x].time
      requires Nearest(G(), x, target, k) && LiveChain(G(), x)[k] == ancestor
      ensures k > 0 && child == Some(LiveChain(G(), x)[k - 1])
    {
      ghost var c := LiveChain(G(), x);
      assert c[0] == x && k > 0;
      ghost var i := 0;
      var cur := x;
      while true
        invariant 0 <= i < k && cur == c[i]
        decreases k - i
      {
        LiveChainLinks(G(), x, i);
        assert i + 1 < k ==> TimeAt(G(), c, i + 1) > target;
        assert TimeAt(G(), c, i) > target;
        var p := Parent(cur);
        if p.None? { return None; }
        if checkpoints[p.value].time <= target && target < checkpoints[cur].time { return Some(cur); }
        if p.value == ancestor { return None; }
        cur := p.value;
        i := i + 1;
      }
    }

    ghost predicate FirstAt(candidates: seq<Id>, target: nat, i: nat)
      requires i < |candidates| && forall j :: 0 <= j < |candidates| ==> candidates[j] in checkpoints
      reads this
    {
      checkpoints[candidates[i]].time == target && forall j :: 0 <= j < i ==> checkpoints[candidates[j]].time != target
    }

    /** The first of `candidates` at exactly the target. */
    method FindAt(candidates: seq<Id>, target: nat) returns (r: Option<Id>)
      requires forall i :: 0 <= i < |candidates| ==> candidates[i] in checkpoints
      ensures r.None? ==> forall i :: 0 <= i < |candidates| ==> checkpoints[candidates[i]].time != target
      ensures r.Some? ==>
        exists i :: 0 <= i < |candidates| && FirstAt(candidates, target, i) && candidates[i] == r.value
    {
      var i := 0;
      while i < |candidates|
        invariant 0 <= i <= |candidates|
        invariant forall j :: 0 <= j < i ==> checkpoints[candidates[j]].time != target
      {
        if checkpoints[candidates[i]].time == target {
          assert FirstAt(candidates, target, i);
          return Some(candidates[i]);
        }
        i := i + 1;
      }
      return None;
    }

    /** The latest of `candidates`, equal times decided by the larger id. */
    method Latest(candidates: seq<Id>) returns (best: Id)
      requires candidates != [] && forall i :: 0 <= i < |candidates| ==> candidates[i] in checkpoints
      ensures best in candidates
      ensures forall i :: 0 <= i < |candidates| ==> candidates[i] == best || Precedes(G(), candidates[i], best)
    {
      best := candidates[0];
      var i := 1;
      while i < |candidates|
        invariant 1 <= i <= |candidates| && best in candidates[..i]
        invariant forall j :: 0 <= j < i ==> candidates[j] == best || Precedes(G(), candidates[j], best)
      {
        var t, u := checkpoints[best].time, checkpoints[candidates[i]].time;
        if t < u || (t == u && best <= candidates[i]) { best := candidates[i]; }
        i := i + 1;
      }
    }

    /** The checkpoint at the target, if there is one, else the one to replay from. */
    method Choose(x: Id, target: nat) returns (found: Option<Id>, best: Option<Id>, ghost k: nat)
      requires Valid() && x in checkpoints
      ensures found.None? && best.None? <==> NoneBefore(G(), x, target)
      ensures found.Some? ==>
        Nearest(G(), x, target, k) && found.value == LiveChain(G(), x)[k] && checkpoints[found.value].time == target
      ensures found.None? && best.Some? ==> Fills(G(), x, target, k) && best.value == LiveChain(G(), x)[k]
    {
      ghost var g, c := G(), LiveChain(G(), x);
      var candidates := RewindCandidates(x, target);
      k := CandidatesAreSuffix(g, x, target);
      if candidates == [] { return None, None, k; }
      SuffixFacts(g, x, target, k);
      assert c[k..][0] == c[k] && TimeAt(g, c, k) <= target;
      found := FindAt(candidates, target);
      if found.Some? { return found, None, k; }
      var latest := Latest(candidates);
      return None, Some(latest), k;
    }

    /** A new checkpoint between `best` and its child. */
    method InsertBetween(best: Id, child: Id, time: nat) returns (id: Id)
      requires Valid() && Splits(G(), nextId, best, child)
      modifies this
      ensures Consistent() && id == old(nextId) && G() == Inserted(old(G()), id, time, best, child)
      ensures Valid() <==> old(checkpoints[best].time) <= time < old(checkpoints[child].time)
    {
      InsertedOrdered(G(), nextId, time, best, child);
      id := RegisterCheckpoint(time, Some(best));
      Reparent(child, id);
    }

    /** Rewind `x` by `back`. `replay` is the time the replay of a fork of the best candidate ended at,
        or none if it failed. */
    method Rewind(x: Id, back: nat, replay: Option<nat>) returns (r: Outcome, ghost k: nat)
      requires Valid() && x in checkpoints && checkpoints[x].alive
      modifies this
      ensures Consistent()
      ensures var g := old(G()); var c := LiveChain(g, x); var target := Minus(g.nodes[x].time, back);
        match r
        case NoCheckpointBefore => G() == g && NoneBefore(g, x, target)
        case Existing(id) => G() == g && Nearest(g, x, target, k) && id == c[k] && TimeAt(g, c, k) == target
        case ReplayFailed => G() == g && Fills(g, x, target, k) && replay.None?
        case Created(id) =>
          && Fills(g, x, target, k) && k > 0 && replay.Some? && id == old(nextId) && Splits(g, id, c[k], c[k - 1])
          && G() == Inserted(g, id, replay.value, c[k], c[k - 1])
          && (Valid() <==> TimeAt(g, c, k) <= replay.value < TimeAt(g, c, k - 1))
      ensures replay.Some? && InGap(old(G()), x, Minus(old(checkpoints[x].time), back), replay.value) ==>
        Valid() && G() == Rewound(old(G()), old(nextId), x, back, replay.value)
    {
      ghost var g, c := G(), LiveChain(G(), x);
      var target := Minus(checkpoints[x].time, back);
      var found, best;
      found, best, k := Choose(x, target);
      if (found.Some? || best.None?) && replay.Some? { RewoundStays(g, nextId, x, back, replay.value, k); }
      if found.Some? { return Existing(found.value), k; }
      if best.None? { return NoCheckpointBefore, k; }
      if replay.None? { return ReplayFailed, k; }
      GapSplits(g, x, target, k, nextId);
      RewoundFills(g, nextId, x, back, replay.value, k);
      assert c[0] == x && TimeAt(g, c, 0) > target;
      var child := LogicalChildAfter(x, target, best.value, k);
      var id := InsertBetween(best.value, if child.Some? then child.value else x, replay.value);
      r := Created(id);
    }
  }

  /** The candidates a walk at `walk` has yet to collect. */
  ghost function Pending(g: Graph, walk: Option<Id>, target: nat): seq<Id>
    requires Ordered(g) && (walk.Some? ==> walk.value in g.nodes)
  {
    if walk.Some? then AtOrBefore(g, LiveChain(g, walk.value), target) else []
  }

  lemma PendingStep(g: Graph, x: Id, target: nat)
    requires Ordered(g) && x in g.nodes
    ensures Pending(g, Some(x), target) ==
      (if g.nodes[x].time <= target then [x] else []) +
      Pending(g, if x in g.parent && g.nodes[g.parent[x]].alive then Some(g.parent[x]) else None, target)
  {
    if x in g.parent && g.nodes[g.parent[x]].alive {
      assert LiveChain(g, x)[1..] == LiveChain(g, g.parent[x]);
    } else {
      assert LiveChain(g, x) == [x];
      assert AtOrBefore(g, LiveChain(g, x)[1..], target) == [];
    }
  }

  /** The candidates are the walk from the nearest on. */
  lemma {:induction false} CandidatesAreSuffix(g: Graph, x: Id, target: nat) returns (k: nat)
    requires Ordered(g) && x in g.nodes
    ensures var c := LiveChain(g, x);
      k <= |c| && AtOrBefore(g, c, target) == c[k..]
      && (if k < |c| then Nearest(g, x, target, k) else NoneBefore(g, x, target))
  {
    var c := LiveChain(g, x);
    forall i, j | 0 <= i < j < |c| ensures g.nodes[c[j]].time <= g.nodes[c[i]].time { LiveChainDescends(g, x, i, j); }
    k := DescendingSuffix(g, c, target);
  }

  lemma {:induction false} DescendingSuffix(g: Graph, c: seq<Id>, target: nat) returns (k: nat)
    requires forall i :: 0 <= i < |c| ==> c[i] in g.nodes
    requires forall i, j :: 0 <= i < j < |c| ==> g.nodes[c[j]].time <= g.nodes[c[i]].time
    ensures k <= |c| && AtOrBefore(g, c, target) == c[k..]
    ensures forall i :: 0 <= i < k ==> g.nodes[c[i]].time > target
    ensures k < |c| ==> g.nodes[c[k]].time <= target
    decreases |c|
  {
    if c == [] {
      k := 0;
    } else {
      k := DescendingSuffix(g, c[1..], target);
      if g.nodes[c[0]].time <= target {
        assert |c| > 1 ==> c[1..][0] == c[1];
        k := 0;
      } else {
        assert forall i :: 1 <= i < |c| ==> c[1..][i - 1] == c[i];
        k := k + 1;
      }
    }
  }

  /** Along the candidates times do not grow, and every one but the first precedes the first. */
  lemma SuffixFacts(g: Graph, x: Id, target: nat, k: nat)
    requires Ordered(g) && x in g.nodes && Nearest(g, x, target, k)
    ensures var s := LiveChain(g, x)[k..];
      forall j :: 0 < j < |s| ==> Precedes(g, s[j], s[0]) && g.nodes[s[j]].time <= g.nodes[s[0]].time <= target
  {
    var c := LiveChain(g, x);
    forall j | 0 < j < |c[k..]| ensures Precedes(g, c[k..][j], c[k..][0]) { LiveChainDescends(g, x, k, k + j); }
  }

  /** The elements at or before a time, in order. */
  function AtOrBefore(g: Graph, c: seq<Id>, target: nat): seq<Id>
    requires forall i :: 0 <= i < |c| ==> c[i] in g.nodes
  {
    if c == [] then []
    else if g.nodes[c[0]].time <= target then [c[0]] + AtOrBefore(g, c[1..], target)
    else AtOrBefore(g, c[1..], target)
  }
}
