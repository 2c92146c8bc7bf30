/** Kahn's algorithm with a min-heap on step numbers, and the states derived
    over its order. */
module PlanCheck {
  import opened PlanGraph

  // ---- counting needs

  ghost function Occ(ids: seq<string>, x: string): nat {
    if ids == [] then 0 else Occ(ids[..|ids| - 1], x) + if ids[|ids| - 1] == x then 1 else 0
  }

  /** Needs, counted as often as listed, that are not placed yet. */
  ghost function Waiting(needs: seq<string>, order: seq<Step>): nat {
    if needs == [] then 0
    else Waiting(needs[..|needs| - 1], order) + if Listed(order, needs[|needs| - 1]) then 0 else 1
  }

  function Repeat(x: string, n: nat): (r: seq<string>)
    ensures |r| == n && forall i :: 0 <= i < n ==> r[i] == x
  {
    seq(n, _ => x)
  }

  /** The steps that need `id`, each as often as it lists it. */
  ghost function Deps(steps: seq<Step>, id: string): seq<string> {
    if steps == [] then []
    else
      var s := steps[|steps| - 1];
      Deps(steps[..|steps| - 1], id) + Repeat(s.id, Occ(s.needs, id))
  }

  lemma {:induction false} OccSplit(a: seq<string>, b: seq<string>, x: string)
    ensures Occ(a + b, x) == Occ(a, x) + Occ(b, x)
    decreases |b|
  {
    if b == [] {
      assert a + b == a;
    } else {
      OccSplit(a, b[..|b| - 1], x);
      assert (a + b)[..|a + b| - 1] == a + b[..|b| - 1];
    }
  }

  lemma {:induction false} OccRepeat(y: string, n: nat, x: string)
    ensures Occ(Repeat(y, n), x) == if x == y then n else 0
    decreases n
  {
    if n != 0 {
      OccRepeat(y, n - 1, x);
      assert Repeat(y, n)[..n - 1] == Repeat(y, n - 1);
    }
  }

  lemma {:induction false} OccPrefix(ids: seq<string>, j: nat, x: string)
    requires j <= |ids|
    ensures Occ(ids[..j], x) <= Occ(ids, x)
  {
    assert ids == ids[..j] + ids[j..];
    OccSplit(ids[..j], ids[j..], x);
  }

  lemma ListedLonger(steps: seq<Step>, d: string)
    requires steps != []
    ensures Listed(steps[..|steps| - 1], d) ==> Listed(steps, d)
  {
    var init := steps[..|steps| - 1];
    if i :| 0 <= i < |init| && init[i].id == d {
      assert steps[i].id == d;
    }
  }

  lemma {:induction false} DepsOfNone(steps: seq<Step>, id: string, d: string)
    requires !Listed(steps, d)
    ensures Occ(Deps(steps, id), d) == 0
    decreases |steps|
  {
    if steps != [] {
      var init, s := steps[..|steps| - 1], steps[|steps| - 1];
      ListedLonger(steps, d);
      DepsOfNone(init, id, d);
      OccSplit(Deps(init, id), Repeat(s.id, Occ(s.needs, id)), d);
      OccRepeat(s.id, Occ(s.needs, id), d);
    }
  }

  lemma {:induction false} DepsOcc(steps: seq<Step>, id: string, t: Step)
    requires DistinctIds(steps) && t in steps
    ensures Occ(Deps(steps, id), t.id) == Occ(t.needs, id)
    decreases |steps|
  {
    var init, s := steps[..|steps| - 1], steps[|steps| - 1];
    OccSplit(Deps(init, id), Repeat(s.id, Occ(s.needs, id)), t.id);
    OccRepeat(s.id, Occ(s.needs, id), t.id);
    if t == s {
      DepsOfNone(init, id, t.id);
    } else {
      assert DistinctIds(init) by {
        assert forall i, j :: 0 <= i < j < |init| ==> init[i] == steps[i] && init[j] == steps[j];
      }
      assert t in init by {
        assert steps == init + [s];
      }
      DepsOcc(init, id, t);
    }
  }

  lemma {:induction false} DepsKnown(steps: seq<Step>, id: string, d: string)
    requires d in Deps(steps, id)
    ensures Listed(steps, d)
    decreases |steps|
  {
    var init, s := steps[..|steps| - 1], steps[|steps| - 1];
    if d in Deps(init, id) {
      DepsKnown(init, id, d);
      var i :| 0 <= i < |init| && init[i].id == d;
      assert steps[i].id == d;
    } else {
      assert s.id == d;
    }
  }

  lemma {:induction false} WaitingPlaced(needs: seq<string>, order: seq<Step>, s: Step)
    requires !Listed(order, s.id)
    ensures Waiting(needs, order + [s]) == Waiting(needs, order) - Occ(needs, s.id)
    decreases |needs|
  {
    if needs != [] {
      WaitingPlaced(needs[..|needs| - 1], order, s);
      ListedMore(order, s, needs[|needs| - 1]);
    }
  }

  lemma ListedMore(order: seq<Step>, s: Step, id: string)
    ensures Listed(order + [s], id) <==> Listed(order, id) || s.id == id
  {
    var more := order + [s];
    if i :| 0 <= i < |order| && order[i].id == id {
      assert more[i].id == id;
    }
    assert more[|order|].id == s.id;
  }

  lemma {:induction false} WaitingNone(needs: seq<string>, order: seq<Step>)
    ensures Waiting(needs, order) == 0 <==> forall k :: 0 <= k < |needs| ==> Listed(order, needs[k])
    decreases |needs|
  {
    if needs != [] {
      WaitingNone(needs[..|needs| - 1], order);
      assert forall k :: 0 <= k < |needs| - 1 ==> needs[k] == needs[..|needs| - 1][k];
    }
  }

  // ---- the heap

  ghost predicate Sorted(heap: seq<Step>) {
    forall i, j :: 0 <= i < j < |heap| ==> heap[i].number < heap[j].number
  }

  function Push(heap: seq<Step>, s: Step): (r: seq<Step>)
    ensures |r| == |heap| + 1 && forall x :: x in r <==> x == s || x in heap
  {
    if heap == [] || s.number < heap[0].number then [s] + heap else [heap[0]] + Push(heap[1..], s)
  }

  lemma {:induction false} PushSorted(heap: seq<Step>, s: Step)
    requires Sorted(heap) && forall x :: x in heap ==> x.number != s.number
    ensures Sorted(Push(heap, s))
    decreases |heap|
  {
    if heap != [] && heap[0].number < s.number {
      PushSorted(heap[1..], s);
      var r := Push(heap[1..], s);
      forall j | 0 <= j < |r| ensures heap[0].number < r[j].number {
        assert r[j] in r;
      }
    }
  }

  /** The heap holds exactly the unplaced steps whose count is zero. */
  ghost predicate Heaped(heap: seq<Step>, steps: seq<Step>, order: seq<Step>, indegree: map<string, int>) {
    && Sorted(heap)
    && (forall s :: s in steps ==> s.id in indegree)
    && forall s :: s in heap <==> s in steps && !Listed(order, s.id) && indegree[s.id] == 0
  }

  ghost predicate Counted(steps: seq<Step>, order: seq<Step>, indegree: map<string, int>) {
    forall s :: s in steps ==> s.id in indegree && indegree[s.id] == Waiting(s.needs, order)
  }

  ghost predicate Indexed(steps: seq<Step>, byId: map<string, Step>) {
    && (forall s :: s in steps ==> s.id in byId && byId[s.id] == s)
    && forall id :: id in byId ==> Listed(steps, id)
  }

  method ById(steps: seq<Step>) returns (byId: map<string, Step>)
    requires DistinctIds(steps)
    ensures Indexed(steps, byId)
  {
    byId := map[];
    var k := 0;
    while k < |steps|
      invariant 0 <= k <= |steps|
      invariant forall i :: 0 <= i < k ==> steps[i].id in byId && byId[steps[i].id] == steps[i]
      invariant forall id :: id in byId ==> Listed(steps, id)
    {
      byId := byId[steps[k].id := steps[k]];
      k := k + 1;
    }
  }

  /** One step's needs, entered into the lists of the steps it needs. */
  method AddNeeds(steps: seq<Step>, s: Step, byId: map<string, Step>, before: map<string, seq<string>>)
      returns (known: int, dependents: map<string, seq<string>>)
    requires ValidGraph(steps) && Indexed(steps, byId) && s in steps
    requires forall t :: t in steps ==> t.id in before
    ensures known == Waiting(s.needs, [])
    ensures forall t :: t in steps ==>
      t.id in dependents && dependents[t.id] == before[t.id] + Repeat(s.id, Occ(s.needs, t.id))
  {
    dependents := before;
    known := 0;
    var j := 0;
    assert s.needs[..0] == [];
    while j < |s.needs|
      invariant 0 <= j <= |s.needs| && known == Waiting(s.needs[..j], [])
      invariant forall t :: t in steps ==>
        t.id in dependents && dependents[t.id] == before[t.id] + Repeat(s.id, Occ(s.needs[..j], t.id))
    {
      var need := s.needs[j];
      OneNeed(s.needs, j);
      assert need in s.needs;
      assert Listed(steps, need);
      if need in byId {
        known := known + 1;
        forall t | t in steps
          ensures before[t.id] + Repeat(s.id, Occ(s.needs[..j + 1], t.id)) ==
            if t.id == need then before[t.id] + Repeat(s.id, Occ(s.needs[..j], t.id)) + [s.id]
            else before[t.id] + Repeat(s.id, Occ(s.needs[..j], t.id))
        {
          OneNeedOcc(s.needs, j, t.id);
        }
        dependents := dependents[need := dependents[need] + [s.id]];
      }
      j := j + 1;
    }
    assert s.needs[..j] == s.needs;
  }

  lemma OneNeed(needs: seq<string>, j: nat)
    requires j < |needs|
    ensures Waiting(needs[..j + 1], []) == Waiting(needs[..j], []) + 1
  {
    assert needs[..j + 1][..j] == needs[..j];
  }

  lemma OneNeedOcc(needs: seq<string>, j: nat, x: string)
    requires j < |needs|
    ensures Occ(needs[..j + 1], x) == Occ(needs[..j], x) + if needs[j] == x then 1 else 0
  {
    assert needs[..j + 1][..j] == needs[..j];
  }

  /** Indegrees, and who depends on whom. */
  method Edges(steps: seq<Step>, byId: map<string, Step>)
      returns (indegree: map<string, int>, dependents: map<string, seq<string>>)
    requires ValidGraph(steps) && Indexed(steps, byId)
    ensures Counted(steps, [], indegree)
    ensures forall s :: s in steps ==> s.id in dependents && dependents[s.id] == Deps(steps, s.id)
  {
    hide Waiting, Deps, Occ, Indexed;
    indegree, dependents := map[], map[];
    var k := 0;
    while k < |steps|
      invariant 0 <= k <= |steps|
      invariant forall i :: 0 <= i < k ==> steps[i].id in dependents && dependents[steps[i].id] == []
    {
      dependents := dependents[steps[k].id := []];
      k := k + 1;
    }
    NoDeps(steps);
    k := 0;
    while k < |steps|
      invariant 0 <= k <= |steps|
      invariant forall i :: 0 <= i < k ==>
        steps[i].id in indegree && indegree[steps[i].id] == Waiting(steps[i].needs, [])
      invariant forall s :: s in steps ==> s.id in dependents && dependents[s.id] == Deps(steps[..k], s.id)
    {
      var s := steps[k];
      var known;
      MoreDeps(steps, k);
      known, dependents := AddNeeds(steps, s, byId, dependents);
      indegree := indegree[s.id := known];
      k := k + 1;
    }
    assert steps[..k] == steps;
  }

  lemma NoDeps(steps: seq<Step>)
    ensures forall s :: s in steps ==> Deps(steps[..0], s.id) == []
  {
  }

  lemma MoreDeps(steps: seq<Step>, k: nat)
    requires k < |steps|
    ensures forall id :: Deps(steps[..k + 1], id) == Deps(steps[..k], id) + Repeat(steps[k].id, Occ(steps[k].needs, id))
  {
    assert steps[..k + 1][..k] == steps[..k];
  }

  method FirstHeap(steps: seq<Step>, indegree: map<string, int>) returns (heap: seq<Step>)
    requires ValidGraph(steps) && Counted(steps, [], indegree)
    ensures Heaped(heap, steps, [], indegree)
  {
    heap := [];
    var k := 0;
    while k < |steps|
      invariant 0 <= k <= |steps| && Sorted(heap)
      invariant forall s :: s in heap <==> s in steps[..k] && indegree[s.id] == 0
    {
      assert steps[..k + 1] == steps[..k] + [steps[k]];
      if indegree[steps[k].id] == 0 {
        forall x | x in heap ensures x.number != steps[k].number {
          assert x in steps[..k];
        }
        PushSorted(heap, steps[k]);
        heap := Push(heap, steps[k]);
      }
      k := k + 1;
    }
    assert steps[..k] == steps;
  }

  // ---- one turn

  /** Counts part of the way through the dependents of the step just placed. */
  ghost predicate Halfway(steps: seq<Step>, order: seq<Step>, done: seq<string>, indegree: map<string, int>) {
    forall t :: t in steps ==> t.id in indegree && indegree[t.id] == Waiting(t.needs, order) - Occ(done, t.id)
  }

  lemma {:induction false} OccWaiting(needs: seq<string>, order: seq<Step>, x: string)
    requires !Listed(order, x)
    ensures Occ(needs, x) <= Waiting(needs, order)
    decreases |needs|
  {
    if needs != [] {
      OccWaiting(needs[..|needs| - 1], order, x);
    }
  }

  /** The dependent whose count goes down next: still waiting, not placed. */
  lemma NextDependent(steps: seq<Step>, order: seq<Step>, s: Step, j: nat) returns (t: Step)
    requires ValidGraph(steps) && Greedy(steps, order) && Smallest(steps, order, s)
    requires var deps := Deps(steps, s.id); j < |deps|
    ensures var deps := Deps(steps, s.id);
      && t in steps && t.id == deps[j]
      && Occ(deps[..j], t.id) + 1 == Occ(deps[..j + 1], t.id) <= Waiting(t.needs, order)
      && !Listed(order + [s], t.id)
  {
    var deps := Deps(steps, s.id);
    assert deps[j] in deps;
    DepsKnown(steps, s.id, deps[j]);
    var i :| 0 <= i < |steps| && steps[i].id == deps[j];
    t := steps[i];
    assert deps[..j + 1][..j] == deps[..j];
    OccPrefix(deps, j + 1, t.id);
    DepsOcc(steps, s.id, t);
    OccWaiting(t.needs, order, s.id);
    PlacedWaitsNot(steps, order, s, t);
    ListedMore(order, s, t.id);
  }

  /** A placed step, or the one being placed, waits for nothing. */
  lemma PlacedWaitsNot(steps: seq<Step>, order: seq<Step>, s: Step, t: Step)
    requires DistinctIds(steps) && Greedy(steps, order) && Smallest(steps, order, s) && t in steps
    ensures Listed(order, t.id) || s.id == t.id ==> Waiting(t.needs, order) == 0
  {
    if s.id == t.id {
      SameStep(steps, s, t);
      WaitingNone(t.needs, order);
    } else if k :| 0 <= k < |order| && order[k].id == t.id {
      assert Smallest(steps, order[..k], order[k]);
      SameStep(steps, order[k], t);
      forall m | 0 <= m < |t.needs| ensures Listed(order, t.needs[m]) {
        assert Listed(order[..k], t.needs[m]);
        var i :| 0 <= i < k && order[..k][i].id == t.needs[m];
        assert order[i].id == t.needs[m];
      }
      WaitingNone(t.needs, order);
    }
  }

  lemma OccMore(ids: seq<string>, j: nat)
    requires j < |ids|
    ensures forall x :: Occ(ids[..j + 1], x) == Occ(ids[..j], x) + if x == ids[j] then 1 else 0
  {
    assert ids[..j + 1][..j] == ids[..j];
  }

  /** One count less: the heap gains the step when it was the last. */
  lemma CountedDown(steps: seq<Step>, placed: seq<Step>, t: Step, indegree: map<string, int>, heap: seq<Step>)
    requires DistinctIds(steps) && DistinctNumbers(steps) && Heaped(heap, steps, placed, indegree)
    requires t in steps && !Listed(placed, t.id) && 1 <= indegree[t.id]
    ensures var d := indegree[t.id := indegree[t.id] - 1];
      Heaped(if d[t.id] == 0 then Push(heap, t) else heap, steps, placed, d)
  {
    hide Listed;
    var d := indegree[t.id := indegree[t.id] - 1];
    forall s | s in steps && s != t ensures s.id != t.id && s.number != t.number {
      if s.id == t.id {
        SameStep(steps, s, t);
      }
      var i :| 0 <= i < |steps| && steps[i] == s;
      var j :| 0 <= j < |steps| && steps[j] == t;
      assert i != j;
    }
    assert t !in heap;
    PushSorted(heap, t);
  }

  lemma HalfwayMore(steps: seq<Step>, order: seq<Step>, deps: seq<string>, j: nat, indegree: map<string, int>)
    requires j < |deps| && Halfway(steps, order, deps[..j], indegree) && deps[j] in indegree
    ensures Halfway(steps, order, deps[..j + 1], indegree[deps[j] := indegree[deps[j]] - 1])
  {
    OccMore(deps, j);
  }

  lemma HalfwayStart(steps: seq<Step>, order: seq<Step>, deps: seq<string>, indegree: map<string, int>)
    requires Counted(steps, order, indegree)
    ensures Halfway(steps, order, deps[..0], indegree)
  {
  }

  lemma HalfwayEnd(steps: seq<Step>, order: seq<Step>, s: Step, indegree: map<string, int>)
    requires DistinctIds(steps) && !Listed(order, s.id) && Halfway(steps, order, Deps(steps, s.id), indegree)
    ensures Counted(steps, order + [s], indegree)
  {
    forall t | t in steps ensures indegree[t.id] == Waiting(t.needs, order + [s]) {
      DepsOcc(steps, s.id, t);
      WaitingPlaced(t.needs, order, s);
    }
  }

  /** Counts down the dependents of the step just placed. */
  method Release(steps: seq<Step>, byId: map<string, Step>, ghost order: seq<Step>, s: Step, deps: seq<string>,
                 before: map<string, int>, popped: seq<Step>)
      returns (indegree: map<string, int>, heap: seq<Step>)
    requires ValidGraph(steps) && Indexed(steps, byId) && Greedy(steps, order) && Smallest(steps, order, s)
    requires deps == Deps(steps, s.id) && Counted(steps, order, before) && Heaped(popped, steps, order + [s], before)
    ensures Counted(steps, order + [s], indegree) && Heaped(heap, steps, order + [s], indegree)
  {
    hide Occ, Waiting, Deps, Greedy, Listed, Heaped, Met;
    indegree, heap := before, popped;
    var j := 0;
    HalfwayStart(steps, order, deps, before);
    while j < |deps|
      invariant 0 <= j <= |deps|
      invariant Halfway(steps, order, deps[..j], indegree) && Heaped(heap, steps, order + [s], indegree)
    {
      var dep := deps[j];
      ghost var t := NextDependent(steps, order, s, j);
      CountedDown(steps, order + [s], t, indegree, heap);
      HalfwayMore(steps, order, deps, j, indegree);
      indegree := indegree[dep := indegree[dep] - 1];
      if indegree[dep] == 0 {
        heap := Push(heap, byId[dep]);
      }
      j := j + 1;
    }
    assert deps[..j] == deps;
    HalfwayEnd(steps, order, s, indegree);
  }

  // ---- the whole run

  /** The top of the heap is the ready step with the smallest number. */
  lemma TopIsSmallest(steps: seq<Step>, order: seq<Step>, indegree: map<string, int>, heap: seq<Step>)
    requires Counted(steps, order, indegree) && Heaped(heap, steps, order, indegree)
    ensures forall s :: Ready(steps, order, s) <==> s in heap
    ensures heap != [] ==> Smallest(steps, order, heap[0])
  {
    hide Listed;
    forall s ensures Ready(steps, order, s) <==> s in heap {
      if s in steps {
        WaitingNone(s.needs, order);
      }
    }
    if heap != [] {
      assert heap[0] in heap;
    }
  }

  lemma Popped(steps: seq<Step>, order: seq<Step>, indegree: map<string, int>, heap: seq<Step>)
    requires DistinctIds(steps) && Heaped(heap, steps, order, indegree) && heap != []
    ensures Heaped(heap[1..], steps, order + [heap[0]], indegree)
  {
    var s := heap[0];
    assert s in heap && heap == [s] + heap[1..];
    forall t ensures t in heap[1..] <==> t in steps && !Listed(order + [s], t.id) && indegree[t.id] == 0 {
      ListedMore(order, s, t.id);
      if t in steps && t.id == s.id {
        SameStep(steps, s, t);
        NotAgain(heap);
      } else if t in heap[1..] {
        assert t in heap;
      }
    }
  }

  lemma NotAgain(heap: seq<Step>)
    requires Sorted(heap) && heap != []
    ensures heap[0] !in heap[1..]
  {
    forall i | 0 <= i < |heap| - 1 ensures heap[1..][i] != heap[0] {
      assert heap[0].number < heap[i + 1].number;
    }
  }

  /** A dependency order with the smallest number first wherever there is a
      choice, exactly when the needs form no cycle; otherwise the ids, in the
      plan's order, of the steps whose needs run into a cycle. */
  method TopoOrder(steps: seq<Step>) returns (order: seq<Step>, left: seq<string>)
    requires ValidGraph(steps)
    ensures left == [] <==> !exists w :: Cycle(steps, w)
    ensures left == [] ==> Greedy(steps, order) && |order| == |steps| && forall s :: s in steps <==> s in order
    ensures left != [] ==> order == []
    ensures left == TangledIds(steps, |steps|)
  {
    hide Counted, Heaped, Greedy, Smallest, Ready, Waiting, Deps, Walk;
    var byId := ById(steps);
    var indegree, dependents := Edges(steps, byId);
    var heap := FirstHeap(steps, indegree);
    order := [];
    NothingPlaced(steps);
    while heap != []
      invariant Greedy(steps, order) && Counted(steps, order, indegree) && Heaped(heap, steps, order, indegree)
      decreases |steps| - |order|
    {
      var s := heap[0];
      TopIsSmallest(steps, order, indegree, heap);
      Popped(steps, order, indegree, heap);
      GreedyMore(steps, order, s);
      CountPlaced(steps, order + [s]);
      SmallestKnown(steps, order, s);
      indegree, heap := Release(steps, byId, order, s, dependents[s.id], indegree, heap[1..]);
      order := order + [s];
    }
    TopIsSmallest(steps, order, indegree, heap);
    CountPlaced(steps, order);
    UnplacedTangled(steps, order, |steps|);
    assert steps[..|steps|] == steps;
    left := [];
    if |order| != |steps| {
      left := Left(steps, order);
      ghost var t :| t in steps && t !in order;
      Unlisted(steps, order, t);
      ghost var w := StuckHasCycle(steps, order, t);
      assert Cycle(steps, w);
      order := [];
    } else {
      AllPlaced(steps, order);
    }
  }

  lemma NothingPlaced(steps: seq<Step>)
    ensures Greedy(steps, [])
  {
  }

  lemma SmallestKnown(steps: seq<Step>, order: seq<Step>, s: Step)
    requires Smallest(steps, order, s)
    ensures s in steps && !Listed(order, s.id)
  {
  }

  lemma AllPlaced(steps: seq<Step>, order: seq<Step>)
    requires DistinctIds(steps) && Greedy(steps, order) && |order| == |steps|
    ensures forall w :: !Cycle(steps, w)
    ensures forall s :: s in steps <==> s in order
  {
    CountPlaced(steps, order);
    forall k | 0 <= k < |order| ensures order[k] in steps {
      assert Smallest(steps, order[..k], order[k]);
    }
    forall w ensures !Cycle(steps, w) {
      NoCycleWhenOrdered(steps, order, w);
    }
  }

  /** The ids of the steps not placed, in the plan's order. */
  function Unplaced(steps: seq<Step>, order: seq<Step>): (left: seq<string>)
    ensures left == [] <==> forall i :: 0 <= i < |steps| ==> steps[i] in order
  {
    if steps == [] then []
    else
      var s := steps[|steps| - 1];
      Unplaced(steps[..|steps| - 1], order) + if s in order then [] else [s.id]
  }

  method Left(steps: seq<Step>, order: seq<Step>) returns (left: seq<string>)
    ensures left == Unplaced(steps, order)
  {
    left := [];
    var k := 0;
    assert steps[..0] == [];
    while k < |steps|
      invariant 0 <= k <= |steps| && left == Unplaced(steps[..k], order)
    {
      assert steps[..k + 1][..k] == steps[..k];
      if steps[k] !in order {
        left := left + [steps[k].id];
      }
      k := k + 1;
    }
    assert steps[..k] == steps;
  }

  lemma {:induction false} UnplacedTangled(steps: seq<Step>, order: seq<Step>, k: nat)
    requires DistinctIds(steps) && NeedsKnown(steps) && Greedy(steps, order) && Stuck(steps, order) && k <= |steps|
    ensures Unplaced(steps[..k], order) == TangledIds(steps, k)
    decreases k
  {
    hide DistinctIds, NeedsKnown, Greedy, Stuck, Tangled;
    if k != 0 {
      UnplacedTangled(steps, order, k - 1);
      LeftIsTangled(steps, order, steps[k - 1]);
      assert steps[..k][..k - 1] == steps[..k - 1];
    }
  }

  // ---- validation and states

  datatype GraphError = DuplicateId(at: nat) | DuplicateNumber(at: nat) | UnknownNeed(at: nat, need: string)

  /** What each error says of the plan. */
  ghost predicate Fault(steps: seq<Step>, e: GraphError) {
    match e
    case DuplicateId(k) => k < |steps| && Listed(steps[..k], steps[k].id)
    case DuplicateNumber(k) => k < |steps| && Numbered(steps[..k], steps[k].number)
    case UnknownNeed(k, n) => k < |steps| && n in steps[k].needs && !Listed(steps, n)
  }

  /** The errors of the first `k` steps against those before each. */
  ghost function Repeated(steps: seq<Step>, k: nat): seq<GraphError>
    requires k <= |steps|
  {
    if k == 0 then []
    else
      Repeated(steps, k - 1)
      + (if Fault(steps, DuplicateId(k - 1)) then [DuplicateId(k - 1)] else [])
      + (if Fault(steps, DuplicateNumber(k - 1)) then [DuplicateNumber(k - 1)] else [])
  }

  /** The errors of the first `j` needs of a step. */
  ghost function UnknownOf(steps: seq<Step>, needs: seq<string>, at: nat): seq<GraphError> {
    if needs == [] then []
    else
      var n := needs[|needs| - 1];
      UnknownOf(steps, needs[..|needs| - 1], at) + if Listed(steps, n) then [] else [UnknownNeed(at, n)]
  }

  ghost function Unknown(steps: seq<Step>, k: nat): seq<GraphError>
    requires k <= |steps|
  {
    if k == 0 then [] else Unknown(steps, k - 1) + UnknownOf(steps, steps[k - 1].needs, k - 1)
  }

  /** Every error that is in the plan, each duplicate before any unknown need
      and otherwise in the plan's order. */
  ghost function Errors(steps: seq<Step>): seq<GraphError> {
    Repeated(steps, |steps|) + Unknown(steps, |steps|)
  }

  lemma {:induction false} RepeatedAre(steps: seq<Step>, k: nat, e: GraphError)
    requires k <= |steps|
    ensures e in Repeated(steps, k) <==> !e.UnknownNeed? && e.at < k && Fault(steps, e)
    decreases k
  {
    hide Fault;
    if k != 0 {
      RepeatedAre(steps, k - 1, e);
    }
  }

  lemma {:induction false} UnknownOfAre(steps: seq<Step>, needs: seq<string>, at: nat, e: GraphError)
    ensures e in UnknownOf(steps, needs, at) <==>
      e.UnknownNeed? && e.at == at && e.need in needs && !Listed(steps, e.need)
    decreases |needs|
  {
    hide Listed;
    if needs != [] {
      UnknownOfAre(steps, needs[..|needs| - 1], at, e);
      assert needs == needs[..|needs| - 1] + [needs[|needs| - 1]];
    }
  }

  lemma {:induction false} UnknownAre(steps: seq<Step>, k: nat, e: GraphError)
    requires k <= |steps|
    ensures e in Unknown(steps, k) <==> e.UnknownNeed? && e.at < k && Fault(steps, e)
    decreases k
  {
    hide Listed;
    if k != 0 {
      UnknownAre(steps, k - 1, e);
      UnknownOfAre(steps, steps[k - 1].needs, k - 1, e);
    }
  }

  /** The errors reported are exactly the faults of the plan, and a plan has
      none exactly when it is valid. */
  lemma {:induction false} ErrorsAreFaults(steps: seq<Step>)
    ensures forall e :: e in Errors(steps) <==> Fault(steps, e)
    ensures Errors(steps) == [] <==> ValidGraph(steps)
  {
    hide Repeated, Unknown;
    forall e ensures e in Errors(steps) <==> Fault(steps, e) {
      RepeatedAre(steps, |steps|, e);
      UnknownAre(steps, |steps|, e);
    }
    if Errors(steps) == [] {
      NoFaults(steps);
    } else {
      SomeFault(steps, Errors(steps)[0]);
    }
  }

  lemma NoFaults(steps: seq<Step>)
    requires forall e :: !Fault(steps, e)
    ensures ValidGraph(steps)
  {
    forall i, j | 0 <= i < j < |steps| ensures steps[i].id != steps[j].id && steps[i].number != steps[j].number {
      assert !Fault(steps, DuplicateId(j)) && !Fault(steps, DuplicateNumber(j));
      assert steps[..j][i] == steps[i];
    }
    forall s, n | s in steps && n in s.needs ensures Listed(steps, n) {
      var k :| 0 <= k < |steps| && steps[k] == s;
      assert !Fault(steps, UnknownNeed(k, n));
    }
  }

  lemma SomeFault(steps: seq<Step>, e: GraphError)
    requires Fault(steps, e)
    ensures !ValidGraph(steps)
  {
    match e
    case DuplicateId(k) =>
      var i :| 0 <= i < k && steps[..k][i].id == steps[k].id;
      assert steps[i].id == steps[k].id;
    case DuplicateNumber(k) =>
      var i :| 0 <= i < k && steps[..k][i].number == steps[k].number;
      assert steps[i].number == steps[k].number;
    case UnknownNeed(k, n) =>
      assert steps[k] in steps;
  }

  ghost predicate Ids(ids: set<string>, steps: seq<Step>) {
    forall id :: id in ids <==> Listed(steps, id)
  }

  ghost predicate Numbered(steps: seq<Step>, n: int) {
    exists i :: 0 <= i < |steps| && steps[i].number == n
  }

  ghost predicate Numbers(numbers: set<int>, steps: seq<Step>) {
    forall n :: n in numbers <==> Numbered(steps, n)
  }

  lemma SeenMore(ids: set<string>, numbers: set<int>, before: seq<Step>, s: Step)
    requires Ids(ids, before) && Numbers(numbers, before)
    ensures Ids(ids + {s.id}, before + [s]) && Numbers(numbers + {s.number}, before + [s])
  {
    var more := before + [s];
    forall id ensures Listed(more, id) <==> Listed(before, id) || id == s.id {
      ListedMore(before, s, id);
    }
    forall n ensures Numbered(more, n) <==> Numbered(before, n) || n == s.number {
      NumberedMore(before, s, n);
    }
  }

  lemma NumberedMore(before: seq<Step>, s: Step, n: int)
    ensures Numbered(before + [s], n) <==> Numbered(before, n) || s.number == n
  {
    var more := before + [s];
    if i :| 0 <= i < |before| && before[i].number == n {
      assert more[i].number == n;
    }
    assert more[|before|].number == s.number;
  }

  method Duplicates(steps: seq<Step>) returns (errors: seq<GraphError>, ids: set<string>)
    ensures errors == Repeated(steps, |steps|)
    ensures Ids(ids, steps)
  {
    hide Listed, Numbered;
    errors, ids := [], {};
    var numbers: set<int>, k := {}, 0;
    NoneSeen(steps);
    while k < |steps|
      invariant 0 <= k <= |steps| && Ids(ids, steps[..k]) && Numbers(numbers, steps[..k])
      invariant errors == Repeated(steps, k)
    {
      var s := steps[k];
      if s.id in ids {
        errors := errors + [DuplicateId(k)];
      }
      if s.number in numbers {
        errors := errors + [DuplicateNumber(k)];
      }
      SeenMore(ids, numbers, steps[..k], s);
      assert steps[..k + 1] == steps[..k] + [s];
      ids, numbers := ids + {s.id}, numbers + {s.number};
      k := k + 1;
    }
    assert steps[..k] == steps;
  }

  lemma NoneSeen(steps: seq<Step>)
    ensures Ids({}, steps[..0]) && Numbers({}, steps[..0])
  {
  }

  method UnknownNeeds(ghost steps: seq<Step>, s: Step, at: nat, ids: set<string>) returns (errors: seq<GraphError>)
    requires Ids(ids, steps)
    ensures errors == UnknownOf(steps, s.needs, at)
  {
    hide Listed;
    errors := [];
    var j := 0;
    assert s.needs[..0] == [];
    while j < |s.needs|
      invariant 0 <= j <= |s.needs| && errors == UnknownOf(steps, s.needs[..j], at)
    {
      assert s.needs[..j + 1][..j] == s.needs[..j];
      if s.needs[j] !in ids {
        errors := errors + [UnknownNeed(at, s.needs[j])];
      }
      j := j + 1;
    }
    assert s.needs[..j] == s.needs;
  }

  /** Every fault and nothing else; no error exactly when the graph is valid. */
  method ValidateGraph(steps: seq<Step>) returns (errors: seq<GraphError>)
    ensures errors == Errors(steps)
    ensures forall e :: e in errors <==> Fault(steps, e)
    ensures errors == [] <==> ValidGraph(steps)
  {
    hide Fault, Listed, ValidGraph, UnknownOf, Repeated;
    var duplicates, ids := Duplicates(steps);
    var unknown, k := [], 0;
    while k < |steps|
      invariant 0 <= k <= |steps| && unknown == Unknown(steps, k)
    {
      var more := UnknownNeeds(steps, steps[k], k, ids);
      unknown := unknown + more;
      k := k + 1;
    }
    errors := duplicates + unknown;
    ErrorsAreFaults(steps);
  }

  /** Evidence files that are absent or empty. */
  function Absent(evidence: seq<string>, present: string -> bool): (r: seq<string>)
    ensures r == [] <==> forall i :: 0 <= i < |evidence| ==> present(evidence[i])
  {
    if evidence == [] then []
    else
      var e := evidence[|evidence| - 1];
      Absent(evidence[..|evidence| - 1], present) + if present(e) then [] else [e]
  }

  function Derived(s: Step, absent: seq<string>, needsDone: bool): State {
    if absent == [] && needsDone then Done
    else if s.blocked then Blocked
    else if s.attended && absent != [] && needsDone then AwaitingEvidence
    else if needsDone then IsReady
    else Pending
  }

  lemma DerivedIs(order: seq<Step>, k: nat, present: string -> bool, needsDone: bool)
    requires k < |order| && (needsDone <==> NeedsDone(order, k, present))
    ensures Derived(order[k], Absent(order[k].evidence, present), needsDone) == StateAt(order, k, present)
  {
  }

  /** The state of every step of an order, from evidence and needs alone. */
  method ComputeStates(order: seq<Step>, present: string -> bool)
      returns (states: map<string, State>, missing: map<string, seq<string>>)
    requires DistinctIds(order)
    ensures forall k :: 0 <= k < |order| ==>
      order[k].id in states && states[order[k].id] == StateAt(order, k, present)
    ensures forall k :: 0 <= k < |order| ==>
      order[k].id in missing && missing[order[k].id] == Absent(order[k].evidence, present)
  {
    hide StateAt, Listed, Derived, NeedsDone, Absent;
    states, missing := map[], map[];
    var k := 0;
    while k < |order|
      invariant 0 <= k <= |order|
      invariant forall i :: 0 <= i < k ==> order[i].id in states && states[order[i].id] == StateAt(order, i, present)
      invariant forall id :: id in states ==> Listed(order[..k], id)
      invariant forall i :: 0 <= i < k ==>
        order[i].id in missing && missing[order[i].id] == Absent(order[i].evidence, present)
    {
      var s := order[k];
      var absent := Absent(s.evidence, present);
      missing := missing[s.id := absent];
      var needsDone := AllDone(order, k, states, present);
      DerivedIs(order, k, present, needsDone);
      var later := states[s.id := Derived(s, absent, needsDone)];
      StillListed(order, k, states, later);
      states := later;
      k := k + 1;
    }
  }

  lemma StillListed(order: seq<Step>, k: nat, states: map<string, State>, later: map<string, State>)
    requires k < |order| && forall id :: id in states ==> Listed(order[..k], id)
    requires forall id :: id in later ==> id in states || id == order[k].id
    ensures forall id :: id in later ==> Listed(order[..k + 1], id)
  {
    hide Listed;
    assert order[..k + 1] == order[..k] + [order[k]];
    forall id | id in later ensures Listed(order[..k + 1], id) {
      ListedMore(order[..k], order[k], id);
    }
  }

  method AllDone(order: seq<Step>, k: nat, states: map<string, State>, present: string -> bool) returns (all: bool)
    requires DistinctIds(order) && k < |order|
    requires forall i :: 0 <= i < k ==> order[i].id in states && states[order[i].id] == StateAt(order, i, present)
    requires forall id :: id in states ==> Listed(order[..k], id)
    ensures all <==> NeedsDone(order, k, present)
  {
    var needs, m := order[k].needs, 0;
    while m < |needs|
      invariant 0 <= m <= |needs|
      invariant forall i :: 0 <= i < m ==> NeedDone(order, k, needs[i], present)
    {
      NeedState(order, k, needs[m], states, present);
      if needs[m] !in states || states[needs[m]] != Done {
        return false;
      }
      m := m + 1;
    }
    all := true;
  }

  lemma NeedState(order: seq<Step>, k: nat, n: string, states: map<string, State>, present: string -> bool)
    requires DistinctIds(order) && k < |order|
    requires forall i :: 0 <= i < k ==> order[i].id in states && states[order[i].id] == StateAt(order, i, present)
    requires forall id :: id in states ==> Listed(order[..k], id)
    ensures NeedDone(order, k, n, present) <==> n in states && states[n] == Done
  {
    if n in states {
      var j :| 0 <= j < k && order[..k][j].id == n;
      assert order[j].id == n;
    }
  }
}
