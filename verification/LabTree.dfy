/** The logical checkpoint tree of crates/bedrock-lab/src/inner.rs and what `Checkpoint::rewind` in
    crates/bedrock-lab/src/checkpoint.rs does to it, as values.

    The registry holds weak references, so a checkpoint whose last handle is gone keeps its place in the
    maps but can no longer be upgraded. Time is an instruction count at the tree's one frequency. */
module LabTree {
  import opened Options

  type Id = nat

  datatype Node = Node(time: nat, alive: bool)

  datatype Graph = Graph(nodes: map<Id, Node>, parent: map<Id, Id>)

  /** Earlier, or at the same time and created before. */
  predicate Precedes(g: Graph, a: Id, b: Id)
    requires a in g.nodes && b in g.nodes
  {
    g.nodes[a].time < g.nodes[b].time || (g.nodes[a].time == g.nodes[b].time && a < b)
  }

  /** Every parent is registered and precedes its child. */
  ghost predicate Ordered(g: Graph) {
    forall c :: c in g.parent ==> c in g.nodes && g.parent[c] in g.nodes && Precedes(g, g.parent[c], c)
  }

  /** A checkpoint and all its ancestors, dead ones included. */
  function Chain(g: Graph, x: Id): (s: seq<Id>)
    requires Ordered(g) && x in g.nodes
    ensures s != [] && s[0] == x && forall i :: 0 <= i < |s| ==> s[i] in g.nodes
    decreases g.nodes[x].time, x
  {
    if x in g.parent then [x] + Chain(g, g.parent[x]) else [x]
  }

  /** The ancestors that a walk by `parent()` visits: it stops at the first dead one. */
  function LiveChain(g: Graph, x: Id): (s: seq<Id>)
    requires Ordered(g) && x in g.nodes
    ensures s != [] && s[0] == x && forall i :: 0 <= i < |s| ==> s[i] in g.nodes
    decreases g.nodes[x].time, x
  {
    if x in g.parent && g.nodes[g.parent[x]].alive then [x] + LiveChain(g, g.parent[x]) else [x]
  }

  /** `a` is `x` or an ancestor of `x`. */
  ghost predicate Above(g: Graph, a: Id, x: Id)
    requires Ordered(g) && x in g.nodes
  {
    a in Chain(g, x)
  }

  lemma {:induction false} ChainDescends(g: Graph, x: Id, i: nat)
    requires Ordered(g) && x in g.nodes && 0 < i < |Chain(g, x)|
    ensures Precedes(g, Chain(g, x)[i], x)
    decreases g.nodes[x].time, x
  {
    if i > 1 { ChainDescends(g, g.parent[x], i - 1); }
  }

  lemma {:induction false} LiveChainDescends(g: Graph, x: Id, i: nat, j: nat)
    requires Ordered(g) && x in g.nodes && i < j < |LiveChain(g, x)|
    ensures Precedes(g, LiveChain(g, x)[j], LiveChain(g, x)[i])
    decreases g.nodes[x].time, x
  {
    if i > 0 {
      LiveChainDescends(g, g.parent[x], i - 1, j - 1);
    } else if j > 1 {
      LiveChainDescends(g, g.parent[x], 0, j - 1);
    }
  }

  /** No checkpoint is its own ancestor. */
  lemma TreeIsAcyclic(g: Graph, x: Id)
    requires Ordered(g) && x in g.parent
    ensures x !in Chain(g, g.parent[x])
  {
    var up := Chain(g, g.parent[x]);
    forall i | 0 <= i < |up| ensures up[i] != x {
      assert Chain(g, x)[i + 1] == up[i];
      ChainDescends(g, x, i + 1);
    }
  }

  // Operations

  function Registered(g: Graph, id: Id, time: nat, parent: Option<Id>): Graph {
    Graph(g.nodes[id := Node(time, true)], if parent.Some? then g.parent[id := parent.value] else g.parent)
  }

  /** A child that can no longer be upgraded is left where it is. */
  function Reparented(g: Graph, child: Id, newParent: Id): Graph {
    if child in g.nodes && g.nodes[child].alive then g.(parent := g.parent[child := newParent]) else g
  }

  function Dropped(g: Graph, x: Id): Graph
    requires x in g.nodes
  {
    g.(nodes := g.nodes[x := g.nodes[x].(alive := false)])
  }

  /** A new checkpoint under `best`, then `child` under it. */
  function Inserted(g: Graph, id: Id, time: nat, best: Id, child: Id): Graph {
    Reparented(Registered(g, id, time, Some(best)), child, id)
  }

  lemma RegisteredOrdered(g: Graph, id: Id, time: nat, p: Id)
    requires Ordered(g) && id !in g.nodes && p in g.nodes && p < id
    requires forall x :: x in g.parent ==> g.parent[x] != id
    ensures Ordered(Registered(g, id, time, Some(p))) <==> g.nodes[p].time <= time
  {
    var g' := Registered(g, id, time, Some(p));
    assert id in g'.parent;
    if g.nodes[p].time <= time {
      forall c | c in g'.parent ensures c in g'.nodes && g'.parent[c] in g'.nodes && Precedes(g', g'.parent[c], c) {
        if c != id { assert c in g.parent; }
      }
    }
  }

  lemma DroppedOrdered(g: Graph, x: Id)
    requires Ordered(g) && x in g.nodes
    ensures Ordered(Dropped(g, x))
  {}

  /** Only a new parent that precedes the child keeps the order. */
  lemma ReparentedOrdered(g: Graph, child: Id, p: Id)
    requires Ordered(g) && child in g.nodes && g.nodes[child].alive && p in g.nodes
    ensures Ordered(Reparented(g, child, p)) <==> Precedes(g, p, child)
  {
    var g' := Reparented(g, child, p);
    assert child in g'.parent;
  }

  // Insertion

  /** `id` is new, `child` is live and sits directly under `best`. */
  ghost predicate Splits(g: Graph, id: Id, best: Id, child: Id) {
    && Ordered(g) && id !in g.nodes && (forall x :: x in g.nodes ==> x < id)
    && child in g.nodes && g.nodes[child].alive && child in g.parent && g.parent[child] == best
  }

  /** An inserted checkpoint at time `time` keeps the tree ordered exactly when the replay did not end
      before its origin and ended strictly before the child. */
  lemma InsertedOrdered(g: Graph, id: Id, time: nat, best: Id, child: Id)
    requires Splits(g, id, best, child)
    ensures Ordered(Inserted(g, id, time, best, child)) <==> g.nodes[best].time <= time < g.nodes[child].time
  {
    var r := Registered(g, id, time, Some(best));
    var g' := Inserted(g, id, time, best, child);
    assert g'.parent == g.parent[id := best][child := id];
    if Ordered(g') {
      assert id in g'.parent && g'.parent[id] == best && child in g'.parent && g'.parent[child] == id;
      assert Precedes(g', best, id) && Precedes(g', id, child);
    }
    if g.nodes[best].time <= time < g.nodes[child].time {
      forall c | c in g'.parent ensures c in g'.nodes && g'.parent[c] in g'.nodes && Precedes(g', g'.parent[c], c) {
        if c != id && c != child { assert c in g.parent; }
      }
    }
  }

  /** An insertion that kept the order. */
  ghost predicate Inserts(g: Graph, id: Id, time: nat, best: Id, child: Id) {
    Splits(g, id, best, child) && g.nodes[best].time <= time < g.nodes[child].time
  }

  /** A chain through `child` gets the new checkpoint right after it. */
  lemma {:induction false} InsertedInChain(g: Graph, id: Id, time: nat, best: Id, child: Id, x: Id, i: nat)
    requires Inserts(g, id, time, best, child) && x in g.nodes && i < |Chain(g, x)| && Chain(g, x)[i] == child
    ensures Ordered(Inserted(g, id, time, best, child))
    ensures Chain(Inserted(g, id, time, best, child), x) == Chain(g, x)[..i + 1] + [id] + Chain(g, x)[i + 1..]
    decreases i
  {
    var g' := Inserted(g, id, time, best, child);
    InsertedOrdered(g, id, time, best, child);
    if i == 0 {
      ChildChain(g, id, time, best, child);
    } else {
      var p := g.parent[x];
      ChainDescends(g, x, i);
      InsertedInChain(g, id, time, best, child, p, i - 1);
      assert Chain(g', x) == [x] + Chain(g', p);
      assert Chain(g, x)[..i + 1] == [x] + Chain(g, p)[..i];
      assert Chain(g, x)[i + 1..] == Chain(g, p)[i..];
    }
  }

  /** Any other chain is as it was. */
  lemma {:induction false} InsertedOffChain(g: Graph, id: Id, time: nat, best: Id, child: Id, x: Id)
    requires Inserts(g, id, time, best, child) && x in g.nodes && child !in Chain(g, x)
    ensures Ordered(Inserted(g, id, time, best, child))
    ensures Chain(Inserted(g, id, time, best, child), x) == Chain(g, x)
    decreases g.nodes[x].time, x
  {
    InsertedOrdered(g, id, time, best, child);
    if x in g.parent { InsertedOffChain(g, id, time, best, child, g.parent[x]); }
  }

  lemma ChildChain(g: Graph, id: Id, time: nat, best: Id, child: Id)
    requires Inserts(g, id, time, best, child)
    ensures var g' := Inserted(g, id, time, best, child);
      && Ordered(g') && Chain(g', child) == [child, id] + Chain(g, best)
      && Chain(g, child)[..1] == [child] && Chain(g, child)[1..] == Chain(g, best)
  {
    var g' := Inserted(g, id, time, best, child);
    InsertedOrdered(g, id, time, best, child);
    InsertedBelow(g, id, time, best, child, best);
    assert Chain(g', id) == [id] + Chain(g', best);
    assert Chain(g', child) == [child] + Chain(g', id);
  }

  /** Above the insertion nothing changed. */
  lemma {:induction false} InsertedBelow(g: Graph, id: Id, time: nat, best: Id, child: Id, x: Id)
    requires Inserts(g, id, time, best, child) && x in g.nodes && Precedes(g, x, child)
    ensures Ordered(Inserted(g, id, time, best, child)) && Chain(Inserted(g, id, time, best, child), x) == Chain(g, x)
    decreases g.nodes[x].time, x
  {
    InsertedOrdered(g, id, time, best, child);
    if x in g.parent { InsertedBelow(g, id, time, best, child, g.parent[x]); }
  }

  /** Every ancestor relation between old checkpoints is kept and none is added; the new checkpoint is
      above exactly `child` and its descendants, and below exactly `best` and its ancestors. */
  lemma InsertionKeepsAncestry(g: Graph, id: Id, time: nat, best: Id, child: Id, a: Id, x: Id)
    requires Inserts(g, id, time, best, child) && a in g.nodes && x in g.nodes
    ensures var g' := Inserted(g, id, time, best, child);
      && Ordered(g')
      && (Above(g', a, x) <==> Above(g, a, x))
      && (Above(g', id, x) <==> Above(g, child, x))
      && (Above(g', a, id) <==> Above(g, a, best))
  {
    var g' := Inserted(g, id, time, best, child);
    InsertedBelow(g, id, time, best, child, best);
    assert Chain(g', id) == [id] + Chain(g', best);
    if child in Chain(g, x) {
      var i :| 0 <= i < |Chain(g, x)| && Chain(g, x)[i] == child;
      InsertedInChain(g, id, time, best, child, x, i);
      assert Chain(g, x) == Chain(g, x)[..i + 1] + Chain(g, x)[i + 1..];
    } else {
      InsertedOffChain(g, id, time, best, child, x);
    }
  }
}
