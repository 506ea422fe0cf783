/** What a rewind replays from and where it puts the result. */
module LabRewind {
  import opened LabTree
  import opened Options

  /** `VirtTime - VirtDuration` saturates. */
  function Minus(time: nat, back: nat): nat { if back <= time then time - back else 0 }

  function TimeAt(g: Graph, c: seq<Id>, i: nat): nat
    requires i < |c| && c[i] in g.nodes
  {
    g.nodes[c[i]].time
  }

  /** `k` is the first checkpoint on the walk from `x` at or before `target`. */
  ghost predicate Nearest(g: Graph, x: Id, target: nat, k: nat)
    requires Ordered(g) && x in g.nodes
  {
    var c := LiveChain(g, x);
    k < |c| && TimeAt(g, c, k) <= target && forall j :: 0 <= j < k ==> TimeAt(g, c, j) > target
  }

  /** Nothing on the walk is early enough. */
  ghost predicate NoneBefore(g: Graph, x: Id, target: nat)
    requires Ordered(g) && x in g.nodes
  {
    var c := LiveChain(g, x);
    forall j :: 0 <= j < |c| ==> TimeAt(g, c, j) > target
  }

  /** From the nearest checkpoint on, everything on the walk is early enough, and the nearest is the
      latest of them, equal times decided by the larger id. */
  lemma NearestIsLatest(g: Graph, x: Id, target: nat, k: nat, j: nat)
    requires Ordered(g) && x in g.nodes && Nearest(g, x, target, k) && k < j < |LiveChain(g, x)|
    ensures TimeAt(g, LiveChain(g, x), j) <= target && Precedes(g, LiveChain(g, x)[j], LiveChain(g, x)[k])
  {
    LiveChainDescends(g, x, k, j);
  }

  lemma NearestIsUnique(g: Graph, x: Id, target: nat, j: nat, k: nat)
    requires Ordered(g) && x in g.nodes && Nearest(g, x, target, j) && Nearest(g, x, target, k)
    ensures j == k
  {
    var c := LiveChain(g, x);
    assert TimeAt(g, c, j) <= target && TimeAt(g, c, k) <= target;
  }

  lemma LiveChainLinks(g: Graph, x: Id, i: nat)
    requires Ordered(g) && x in g.nodes && i + 1 < |LiveChain(g, x)|
    ensures var c := LiveChain(g, x);
      c[i] in g.parent && g.parent[c[i]] == c[i + 1] && g.nodes[c[i + 1]].alive
    decreases g.nodes[x].time, x
  {
    if i > 0 { LiveChainLinks(g, g.parent[x], i - 1); }
  }

  lemma LiveChainAlive(g: Graph, x: Id, i: nat)
    requires Ordered(g) && x in g.nodes && g.nodes[x].alive && i < |LiveChain(g, x)|
    ensures g.nodes[LiveChain(g, x)[i]].alive
  {
    if i > 0 { LiveChainLinks(g, x, i - 1); }
  }

  // The walk against the whole ancestry

  /** The walk is the ancestry up to the first dead ancestor. */
  lemma {:induction false} LiveChainIsPrefix(g: Graph, x: Id)
    requires Ordered(g) && x in g.nodes
    ensures LiveChain(g, x) <= Chain(g, x)
    ensures |LiveChain(g, x)| < |Chain(g, x)| ==> !g.nodes[Chain(g, x)[|LiveChain(g, x)|]].alive
    decreases g.nodes[x].time, x
  {
    if x in g.parent && g.nodes[g.parent[x]].alive { LiveChainIsPrefix(g, g.parent[x]); }
  }

  /** `j` is the nearest live ancestor at or before `target`, looking through dead ones. */
  ghost predicate NearestLive(g: Graph, x: Id, target: nat, j: nat)
    requires Ordered(g) && x in g.nodes
  {
    var c := Chain(g, x);
    && j < |c| && g.nodes[c[j]].alive && TimeAt(g, c, j) <= target
    && forall i :: 0 <= i < j ==> !(g.nodes[c[i]].alive && TimeAt(g, c, i) <= target)
  }

  /** The walk finds the nearest live ancestor at or before the target exactly when no checkpoint
      between the two is dead; otherwise it finds nothing at all. */
  lemma NearestLiveFoundExactly(g: Graph, x: Id, target: nat, j: nat)
    requires Ordered(g) && x in g.nodes && g.nodes[x].alive && NearestLive(g, x, target, j)
    ensures var c := Chain(g, x);
      && (Nearest(g, x, target, j) <==> forall i :: 0 <= i < j ==> g.nodes[c[i]].alive)
      && (!Nearest(g, x, target, j) ==> NoneBefore(g, x, target))
      && (Nearest(g, x, target, j) ==> LiveChain(g, x)[j] == c[j])
  {
    var c, l := Chain(g, x), LiveChain(g, x);
    LiveChainIsPrefix(g, x);
    forall i | 0 <= i < |l| ensures l[i] == c[i] && g.nodes[c[i]].alive { LiveChainAlive(g, x, i); }
    if j < |l| {
      assert forall i :: 0 <= i < j ==> g.nodes[c[i]].alive && TimeAt(g, l, i) > target;
    } else {
      assert !g.nodes[c[|l|]].alive;
      assert |l| < j;
    }
  }

  // Inserting

  /** The two ends of the gap a rewind fills are parent and child, so the insertion point exists and the
      child is never the starting checkpoint by default. */
  lemma GapSplits(g: Graph, x: Id, target: nat, k: nat, id: Id)
    requires Ordered(g) && x in g.nodes && g.nodes[x].alive && target <= g.nodes[x].time
    requires Nearest(g, x, target, k) && TimeAt(g, LiveChain(g, x), k) < target
    requires id !in g.nodes && forall y :: y in g.nodes ==> y < id
    ensures k > 0 && Splits(g, id, LiveChain(g, x)[k], LiveChain(g, x)[k - 1])
    ensures TimeAt(g, LiveChain(g, x), k) < target < TimeAt(g, LiveChain(g, x), k - 1)
  {
    LiveChainLinks(g, x, k - 1);
    LiveChainAlive(g, x, k - 1);
  }

  lemma {:induction false} InsertedLiveBelow(g: Graph, id: Id, time: nat, best: Id, child: Id, x: Id)
    requires Inserts(g, id, time, best, child) && x in g.nodes && Precedes(g, x, child)
    ensures Ordered(Inserted(g, id, time, best, child))
    ensures LiveChain(Inserted(g, id, time, best, child), x) == LiveChain(g, x)
    decreases g.nodes[x].time, x
  {
    InsertedOrdered(g, id, time, best, child);
    if x in g.parent && g.nodes[g.parent[x]].alive { InsertedLiveBelow(g, id, time, best, child, g.parent[x]); }
  }

  /** The walk from the child now passes through the new checkpoint. */
  lemma InsertedLiveChild(g: Graph, id: Id, time: nat, best: Id, child: Id)
    requires Inserts(g, id, time, best, child) && g.nodes[best].alive
    ensures Ordered(Inserted(g, id, time, best, child))
    ensures LiveChain(Inserted(g, id, time, best, child), child) == [child, id] + LiveChain(g, best)
  {
    var g' := Inserted(g, id, time, best, child);
    InsertedOrdered(g, id, time, best, child);
    InsertedLiveBelow(g, id, time, best, child, best);
    assert LiveChain(g', id) == [id] + LiveChain(g', best);
    assert LiveChain(g', child) == [child] + LiveChain(g', id);
  }

  /** So does the walk from any descendant that reaches the child. */
  lemma {:induction false} InsertedLiveChain(g: Graph, id: Id, time: nat, best: Id, child: Id, x: Id, i: nat)
    requires Inserts(g, id, time, best, child) && g.nodes[best].alive
    requires x in g.nodes && i < |LiveChain(g, x)| && LiveChain(g, x)[i] == child
    ensures Ordered(Inserted(g, id, time, best, child))
    ensures LiveChain(Inserted(g, id, time, best, child), x) ==
      LiveChain(g, x)[..i + 1] + [id] + LiveChain(g, x)[i + 1..]
    decreases i
  {
    var g' := Inserted(g, id, time, best, child);
    InsertedOrdered(g, id, time, best, child);
    if i == 0 {
      InsertedLiveChild(g, id, time, best, child);
      assert LiveChain(g, child)[..1] == [child] && LiveChain(g, child)[1..] == LiveChain(g, best);
    } else {
      var p := g.parent[x];
      LiveChainDescends(g, x, 0, i);
      InsertedLiveChain(g, id, time, best, child, p, i - 1);
      assert LiveChain(g', x) == [x] + LiveChain(g', p);
      assert LiveChain(g, x)[..i + 1] == [x] + LiveChain(g, p)[..i];
      assert LiveChain(g, x)[i + 1..] == LiveChain(g, p)[i..];
    }
  }

  /** The gap a rewind of `x` to `target` fills, if it makes a new checkpoint. */
  ghost predicate Fills(g: Graph, x: Id, target: nat, k: nat)
    requires Ordered(g) && x in g.nodes
  {
    Nearest(g, x, target, k) && TimeAt(g, LiveChain(g, x), k) < target
  }

  /** The walk after a rewind whose replay ended at `at`: one step longer, the new checkpoint at `k`. */
  lemma RewoundWalk(g: Graph, id: Id, x: Id, at: nat, k: nat, g': Graph)
    requires Ordered(g) && x in g.nodes && 0 < k < |LiveChain(g, x)|
    requires Inserts(g, id, at, LiveChain(g, x)[k], LiveChain(g, x)[k - 1])
    requires g' == Inserted(g, id, at, LiveChain(g, x)[k], LiveChain(g, x)[k - 1])
    ensures Ordered(g') && x in g'.nodes && g'.nodes[x] == g.nodes[x]
    ensures var c, c' := LiveChain(g, x), LiveChain(g', x);
      && |c'| == |c| + 1 && c'[k] == id && TimeAt(g', c', k) == at
      && (forall j :: 0 <= j < k ==> c'[j] == c[j] && TimeAt(g', c', j) == TimeAt(g, c, j))
      && c'[k + 1] == c[k] && TimeAt(g', c', k + 1) == TimeAt(g, c, k)
  {
    var c := LiveChain(g, x);
    LiveChainLinks(g, x, k - 1);
    InsertedLiveChain(g, id, at, c[k], c[k - 1], x, k - 1);
    var c' := LiveChain(g', x);
    assert c' == c[..k] + [id] + c[k..];
    forall j | 0 <= j < k ensures c'[j] == c[j] && TimeAt(g', c', j) == TimeAt(g, c, j) {
      assert g'.nodes[c[j]] == g.nodes[c[j]];
    }
  }

  /** Main result: after a rewind whose replay ended anywhere in the gap, the same rewind finds the
      checkpoint it made if and only if the replay ended at exactly the target. A replay that ended early
      leaves a gap above the new checkpoint, one that ended late leaves a gap below it, and the second
      rewind replays again. */
  lemma RewindAgainExactly(g: Graph, id: Id, x: Id, target: nat, at: nat, k: nat)
    requires Ordered(g) && x in g.nodes && Fills(g, x, target, k) && k > 0
    requires Inserts(g, id, at, LiveChain(g, x)[k], LiveChain(g, x)[k - 1])
    ensures var c := LiveChain(g, x); var g' := Inserted(g, id, at, c[k], c[k - 1]);
      && Ordered(g') && x in g'.nodes && g'.nodes[x] == g.nodes[x]
      && (at == target ==> Nearest(g', x, target, k) && LiveChain(g', x)[k] == id)
      && (at < target ==> Fills(g', x, target, k) && LiveChain(g', x)[k] == id)
      && (at > target ==> Fills(g', x, target, k + 1) && LiveChain(g', x)[k + 1] == c[k])
      && (at == target <==> forall j: nat :: !Fills(g', x, target, j))
  {
    var c := LiveChain(g, x);
    var g' := Inserted(g, id, at, c[k], c[k - 1]);
    RewoundWalk(g, id, x, at, k, g');
    if at == target {
      assert Nearest(g', x, target, k);
      forall j: nat | Nearest(g', x, target, j) ensures j == k { NearestIsUnique(g', x, target, j, k); }
    } else if at < target {
      assert Fills(g', x, target, k);
    } else {
      assert Fills(g', x, target, k + 1);
    }
  }

  // Whole histories

  datatype Op =
    | Checkpoint(origin: Id, time: nat)   // freeze a branch of `origin` at `time`
    | Drop(x: Id)                         // the last handle goes
    | Rewind(x: Id, back: nat, at: nat)   // with a replay that ends at `at`

  datatype Lab = Lab(g: Graph, nextId: Id)

  ghost predicate Valid(s: Lab) { Ordered(s.g) && forall x :: x in s.g.nodes ==> x < s.nextId }

  /** Where a replay may end: anywhere in the gap it fills, before or after the target. */
  ghost predicate InGap(g: Graph, x: Id, target: nat, at: nat)
    requires Ordered(g) && x in g.nodes
  {
    forall k: nat :: k > 0 && Fills(g, x, target, k) ==>
      TimeAt(g, LiveChain(g, x), k) <= at < TimeAt(g, LiveChain(g, x), k - 1)
  }

  ghost predicate Enabled(s: Lab, op: Op) {
    match op
    case Checkpoint(origin, time) => origin in s.g.nodes && s.g.nodes[origin].alive && s.g.nodes[origin].time <= time
    case Drop(x) => x in s.g.nodes
    case Rewind(x, back, at) =>
      x in s.g.nodes && s.g.nodes[x].alive && Ordered(s.g) && InGap(s.g, x, Minus(s.g.nodes[x].time, back), at)
  }

  /** The graph after a rewind whose replay, if there is one, ended at `at`. */
  ghost function Rewound(g: Graph, nextId: Id, x: Id, back: nat, at: nat): Graph
    requires Ordered(g) && x in g.nodes
  {
    var target := Minus(g.nodes[x].time, back);
    if k :| 0 < k < |LiveChain(g, x)| && Fills(g, x, target, k) then
      Inserted(g, nextId, at, LiveChain(g, x)[k], LiveChain(g, x)[k - 1])
    else g
  }

  lemma RewoundFills(g: Graph, nextId: Id, x: Id, back: nat, at: nat, k: nat)
    requires Ordered(g) && x in g.nodes && Fills(g, x, Minus(g.nodes[x].time, back), k) && k > 0
    ensures Rewound(g, nextId, x, back, at) == Inserted(g, nextId, at, LiveChain(g, x)[k], LiveChain(g, x)[k - 1])
  {
    var target := Minus(g.nodes[x].time, back);
    forall j | 0 < j < |LiveChain(g, x)| && Fills(g, x, target, j) ensures j == k {
      NearestIsUnique(g, x, target, j, k);
    }
  }

  lemma RewoundStays(g: Graph, nextId: Id, x: Id, back: nat, at: nat, k: nat)
    requires Ordered(g) && x in g.nodes
    requires var target := Minus(g.nodes[x].time, back);
      NoneBefore(g, x, target) || (Nearest(g, x, target, k) && TimeAt(g, LiveChain(g, x), k) == target)
    ensures Rewound(g, nextId, x, back, at) == g
  {
    var target := Minus(g.nodes[x].time, back);
    forall j: nat | Fills(g, x, target, j) && Nearest(g, x, target, k) ensures j == k {
      NearestIsUnique(g, x, target, j, k);
    }
  }

  ghost function Apply(s: Lab, op: Op): Lab
    requires Valid(s) && Enabled(s, op)
  {
    match op
    case Checkpoint(origin, time) => Lab(Registered(s.g, s.nextId, time, Some(origin)), s.nextId + 1)
    case Drop(x) => s.(g := Dropped(s.g, x))
    case Rewind(x, back, at) =>
      var g' := Rewound(s.g, s.nextId, x, back, at);
      Lab(g', if g' == s.g then s.nextId else s.nextId + 1)
  }

  /** What a rewind does to the tree: nothing, or one insertion into a gap of the walk. */
  lemma RewoundInserts(s: Lab, x: Id, back: nat, at: nat) returns (made: bool, best: Id, child: Id)
    requires Valid(s) && Enabled(s, Rewind(x, back, at))
    ensures var g' := Rewound(s.g, s.nextId, x, back, at);
      if made then Inserts(s.g, s.nextId, at, best, child) && g' == Inserted(s.g, s.nextId, at, best, child)
      else g' == s.g
  {
    var g, target := s.g, Minus(s.g.nodes[x].time, back);
    var c := LiveChain(g, x);
    made, best, child := false, x, x;
    if k :| 0 < k < |c| && Fills(g, x, target, k) {
      GapSplits(g, x, target, k, s.nextId);
      forall j | 0 < j < |c| && Fills(g, x, target, j) ensures j == k { NearestIsUnique(g, x, target, j, k); }
      made, best, child := true, c[k], c[k - 1];
    }
  }

  lemma StepKeepsValid(s: Lab, op: Op)
    requires Valid(s) && Enabled(s, op)
    ensures Valid(Apply(s, op))
  {
    match op
    case Checkpoint(origin, time) => RegisteredOrdered(s.g, s.nextId, time, origin);
    case Drop(x) => DroppedOrdered(s.g, x);
    case Rewind(x, back, at) =>
      var made, best, child := RewoundInserts(s, x, back, at);
      if made { InsertedOrdered(s.g, s.nextId, at, best, child); }
  }

  /** Every checkpoint keeps its time and its ancestors. */
  ghost predicate KeepsAncestry(s: Lab, s': Lab) {
    && Valid(s) && Valid(s') && s.g.nodes.Keys <= s'.g.nodes.Keys && s.nextId <= s'.nextId
    && (forall x :: x in s.g.nodes ==> s'.g.nodes[x].time == s.g.nodes[x].time)
    && forall a, x :: a in s.g.nodes && x in s.g.nodes ==> (Above(s'.g, a, x) <==> Above(s.g, a, x))
  }

  lemma {:induction false} RegisteredChain(g: Graph, id: Id, time: nat, p: Id, x: Id)
    requires Ordered(g) && Ordered(Registered(g, id, time, Some(p))) && id !in g.nodes && x in g.nodes
    ensures Chain(Registered(g, id, time, Some(p)), x) == Chain(g, x)
    decreases g.nodes[x].time, x
  {
    if x in g.parent { RegisteredChain(g, id, time, p, g.parent[x]); }
  }

  lemma {:induction false} DroppedChain(g: Graph, y: Id, x: Id)
    requires Ordered(g) && y in g.nodes && Ordered(Dropped(g, y)) && x in g.nodes
    ensures Chain(Dropped(g, y), x) == Chain(g, x)
    decreases g.nodes[x].time, x
  {
    if x in g.parent { DroppedChain(g, y, g.parent[x]); }
  }

  lemma StepKeepsAncestry(s: Lab, op: Op)
    requires Valid(s) && Enabled(s, op)
    ensures KeepsAncestry(s, Apply(s, op))
  {
    var s' := Apply(s, op);
    StepKeepsValid(s, op);
    var made, best, child := false, 0, 0;
    if op.Rewind? { made, best, child := RewoundInserts(s, op.x, op.back, op.at); }
    forall a, x | a in s.g.nodes && x in s.g.nodes ensures Above(s'.g, a, x) <==> Above(s.g, a, x) {
      match op
      case Checkpoint(origin, time) => RegisteredChain(s.g, s.nextId, time, origin, x);
      case Drop(y) => DroppedChain(s.g, y, x);
      case Rewind(y, back, at) =>
        if made { InsertionKeepsAncestry(s.g, s.nextId, at, best, child, a, x); }
    }
  }

  ghost predicate Runs(s: Lab, ops: seq<Op>)
    requires Valid(s)
    decreases |ops|
  {
    ops == [] || (Enabled(s, ops[0]) && (StepKeepsValid(s, ops[0]); Runs(Apply(s, ops[0]), ops[1..])))
  }

  ghost function After(s: Lab, ops: seq<Op>): Lab
    requires Valid(s) && Runs(s, ops)
    decreases |ops|
  {
    if ops == [] then s else StepKeepsValid(s, ops[0]); After(Apply(s, ops[0]), ops[1..])
  }

  /** Over every history of checkpoints, drops and rewinds, whether the replays end before, at or after
      their targets, as long as they end in the gap, the tree stays ordered, hence acyclic with
      times that never go back from parent to child, and no checkpoint ever gains or loses an ancestor
      among those that existed: rewinds only insert. */
  lemma {:induction false} HistoryKeepsAncestry(s: Lab, ops: seq<Op>)
    requires Valid(s) && Runs(s, ops)
    ensures KeepsAncestry(s, After(s, ops))
    decreases |ops|
  {
    if ops != [] {
      StepKeepsAncestry(s, ops[0]);
      HistoryKeepsAncestry(Apply(s, ops[0]), ops[1..]);
    }
  }

  // A history in which the same rewind inserts twice

  ghost function OneChild(): Lab { Lab(Graph(map[0 := Node(0, true), 1 := Node(10, true)], map[1 := 0]), 2) }

  ghost function Once(): Lab {
    Lab(Graph(map[0 := Node(0, true), 1 := Node(10, true), 2 := Node(3, true)], map[1 := 2, 2 := 0]), 3)
  }

  ghost function Twice(): Lab {
    Lab(Graph(map[0 := Node(0, true), 1 := Node(10, true), 2 := Node(3, true), 3 := Node(4, true)],
        map[1 := 3, 3 := 2, 2 := 0]), 4)
  }

  /** A rewind of the later checkpoint to 5 whose replay ends at 3. */
  lemma FirstRewind()
    ensures Valid(OneChild()) && Enabled(OneChild(), Rewind(1, 5, 3)) && Apply(OneChild(), Rewind(1, 5, 3)) == Once()
  {
    var g := OneChild().g;
    assert LiveChain(g, 0) == [0];
    assert LiveChain(g, 1) == [1, 0];
    assert TimeAt(g, [1, 0], 0) == 10 && TimeAt(g, [1, 0], 1) == 0;
    assert Fills(g, 1, 5, 1);
    forall k: nat | Fills(g, 1, 5, k) ensures k == 1 { NearestIsUnique(g, 1, 5, k, 1); }
    RewoundFills(g, 2, 1, 5, 3, 1);
    assert Inserted(g, 2, 3, 0, 1) == Once().g;
  }

  /** The same rewind again, with a replay that ends at 4. */
  lemma SecondRewind()
    ensures Valid(Once()) && Enabled(Once(), Rewind(1, 5, 4)) && Apply(Once(), Rewind(1, 5, 4)) == Twice()
  {
    var g := Once().g;
    assert LiveChain(g, 0) == [0];
    assert LiveChain(g, 2) == [2, 0];
    assert LiveChain(g, 1) == [1, 2, 0];
    assert TimeAt(g, [1, 2, 0], 0) == 10 && TimeAt(g, [1, 2, 0], 1) == 3;
    assert Fills(g, 1, 5, 1);
    forall k: nat | Fills(g, 1, 5, k) ensures k == 1 { NearestIsUnique(g, 1, 5, k, 1); }
    RewoundFills(g, 3, 1, 5, 4, 1);
    assert Inserted(g, 3, 4, 2, 1) == Twice().g;
  }

  /** Two rewinds to the same target leave two checkpoints, neither of them at the target. */
  lemma EarlyReplaysInsertTwice()
    ensures Valid(OneChild()) && Runs(OneChild(), [Rewind(1, 5, 3), Rewind(1, 5, 4)])
    ensures After(OneChild(), [Rewind(1, 5, 3), Rewind(1, 5, 4)]) == Twice()
  {
    var a, b := Rewind(1, 5, 3), Rewind(1, 5, 4);
    FirstRewind();
    SecondRewind();
    StepKeepsValid(Once(), b);
    RunsCons(Once(), b, []);
    RunsCons(OneChild(), a, [b]);
    assert [b] + [] == [b] && [a] + [b] == [a, b];
  }

  // A history in which a dropped checkpoint hides a live one

  /** A lab with its initial checkpoint. */
  ghost function Initial(): Lab { Lab(Graph(map[0 := Node(0, true)], map[]), 1) }

  ghost function Hidden(): Lab {
    Lab(Graph(map[0 := Node(0, true), 1 := Node(10, false), 2 := Node(20, true)], map[1 := 0, 2 := 1]), 3)
  }

  lemma HiddenSteps()
    ensures Valid(Initial()) && Enabled(Initial(), Checkpoint(0, 10))
    ensures var s1 := Apply(Initial(), Checkpoint(0, 10));
      && s1 == Lab(Graph(map[0 := Node(0, true), 1 := Node(10, true)], map[1 := 0]), 2) &&
        Enabled(s1, Checkpoint(1, 20))
      && var s2 := Apply(s1, Checkpoint(1, 20));
        && s2 == Lab(Graph(map[0 := Node(0, true), 1 := Node(10, true), 2 := Node(20, true)], map[1 := 0, 2 := 1]), 3)
        && Enabled(s2, Drop(1)) && Apply(s2, Drop(1)) == Hidden()
  {
    var m0 := map[0 := Node(0, true)];
    assert m0[1 := Node(10, true)] == map[0 := Node(0, true), 1 := Node(10, true)];
    var m2 := map[0 := Node(0, true), 1 := Node(10, true), 2 := Node(20, true)];
    assert m2[1 := Node(10, false)] == Hidden().g.nodes;
  }

  /** A checkpoint at 10, one of its branches at 20, and the last handle of the first goes. */
  lemma HiddenIsReached()
    ensures Valid(Initial()) && Runs(Initial(), [Checkpoint(0, 10), Checkpoint(1, 20), Drop(1)])
    ensures After(Initial(), [Checkpoint(0, 10), Checkpoint(1, 20), Drop(1)]) == Hidden()
  {
    var s0 := Initial();
    var a, b, c := Checkpoint(0, 10), Checkpoint(1, 20), Drop(1);
    HiddenSteps();
    StepKeepsValid(s0, a);
    var s1 := Apply(s0, a);
    StepKeepsValid(s1, b);
    var s2 := Apply(s1, b);
    StepKeepsValid(s2, c);
    RunsCons(s2, c, []);
    RunsCons(s1, b, [c]);
    RunsCons(s0, a, [b, c]);
    assert [c] + [] == [c] && [b] + [c] == [b, c] && [a] + [b, c] == [a, b, c];
  }

  lemma RunsCons(s: Lab, op: Op, rest: seq<Op>)
    requires Valid(s) && Enabled(s, op) && Valid(Apply(s, op)) && Runs(Apply(s, op), rest)
    ensures Runs(s, [op] + rest) && After(s, [op] + rest) == After(Apply(s, op), rest)
  {
    assert ([op] + rest)[1..] == rest;
  }

  /** A dropped checkpoint cuts its descendants off from a live ancestor that is early enough: the
      registry's references, and a checkpoint's reference to its replay parent, are weak. */
  lemma DeadCheckpointHidesAncestor()
    ensures Valid(Initial()) && Runs(Initial(), [Checkpoint(0, 10), Checkpoint(1, 20), Drop(1)])
    ensures var s := After(Initial(), [Checkpoint(0, 10), Checkpoint(1, 20), Drop(1)]);
      Valid(s) && 2 in s.g.nodes && s.g.nodes[2].alive && NearestLive(s.g, 2, 5, 2) && NoneBefore(s.g, 2, 5)
  {
    HiddenIsReached();
    var g := Hidden().g;
    assert Chain(g, 0) == [0];
    assert Chain(g, 1) == [1, 0];
    assert Chain(g, 2) == [2, 1, 0];
    assert LiveChain(g, 2) == [2];
  }
}
