/** Plan steps and their needs: what a dependency order is, and when the needs
    form a cycle. */
module PlanGraph {

  datatype Step = Step(id: string, number: int, needs: seq<string>, evidence: seq<string>, attended: bool, blocked: bool)

  ghost predicate Listed(order: seq<Step>, id: string) {
    exists i :: 0 <= i < |order| && order[i].id == id
  }

  ghost predicate DistinctIds(steps: seq<Step>) {
    forall i, j :: 0 <= i < j < |steps| ==> steps[i].id != steps[j].id
  }

  ghost predicate DistinctNumbers(steps: seq<Step>) {
    forall i, j :: 0 <= i < j < |steps| ==> steps[i].number != steps[j].number
  }

  ghost predicate NeedsKnown(steps: seq<Step>) {
    forall s, n :: s in steps && n in s.needs ==> Listed(steps, n)
  }

  /** What validate_graph checks. */
  ghost predicate ValidGraph(steps: seq<Step>) {
    DistinctIds(steps) && DistinctNumbers(steps) && NeedsKnown(steps)
  }

  ghost predicate Met(s: Step, order: seq<Step>) {
    forall k :: 0 <= k < |s.needs| ==> Listed(order, s.needs[k])
  }

  ghost predicate Ready(steps: seq<Step>, order: seq<Step>, s: Step) {
    s in steps && !Listed(order, s.id) && Met(s, order)
  }

  /** Each place holds the ready step with the smallest number. */
  ghost predicate Greedy(steps: seq<Step>, order: seq<Step>) {
    forall k :: 0 <= k < |order| ==> Smallest(steps, order[..k], order[k])
  }

  ghost predicate Smallest(steps: seq<Step>, before: seq<Step>, s: Step) {
    Ready(steps, before, s) && forall t :: Ready(steps, before, t) ==> s.number <= t.number
  }

  /** A chain of needs: each step needs the next. */
  ghost predicate Walk(steps: seq<Step>, w: seq<Step>) {
    && w != []
    && (forall i :: 0 <= i < |w| ==> w[i] in steps)
    && forall i :: 0 <= i < |w| - 1 ==> w[i + 1].id in w[i].needs
  }

  ghost predicate Cycle(steps: seq<Step>, w: seq<Step>) {
    Walk(steps, w) && 2 <= |w| && w[0] == w[|w| - 1]
  }

  // ---- a greedy order

  lemma GreedyDistinct(steps: seq<Step>, order: seq<Step>, i: nat, j: nat)
    requires Greedy(steps, order) && i < j < |order|
    ensures order[i].id != order[j].id && order[i] in steps && order[j] in steps
  {
    assert Smallest(steps, order[..i], order[i]) && Smallest(steps, order[..j], order[j]);
    assert order[..j][i] == order[i];
  }

  lemma GreedyMore(steps: seq<Step>, order: seq<Step>, s: Step)
    requires Greedy(steps, order) && Smallest(steps, order, s)
    ensures Greedy(steps, order + [s])
  {
    var more := order + [s];
    forall k | 0 <= k < |more| ensures Smallest(steps, more[..k], more[k]) {
      if k < |order| {
        assert more[..k] == order[..k];
      } else {
        assert more[..k] == order;
      }
    }
  }

  lemma SameStep(steps: seq<Step>, s: Step, t: Step)
    requires DistinctIds(steps) && s in steps && t in steps && s.id == t.id
    ensures s == t
  {
  }

  /** Needs come strictly earlier. */
  lemma NeedEarlier(steps: seq<Step>, order: seq<Step>, k: nat, n: string) returns (j: nat)
    requires Greedy(steps, order) && k < |order| && n in order[k].needs
    ensures j < k && order[j].id == n
  {
    assert Smallest(steps, order[..k], order[k]);
    var m :| 0 <= m < |order[k].needs| && order[k].needs[m] == n;
    assert Listed(order[..k], order[k].needs[m]);
    j :| 0 <= j < k && order[..k][j].id == n;
  }

  /** Along a walk positions fall. */
  lemma {:induction false} WalkFalls(steps: seq<Step>, order: seq<Step>, w: seq<Step>, k: nat) returns (j: nat)
    requires DistinctIds(steps) && Greedy(steps, order) && Walk(steps, w) && k < |order| && order[k] == w[0]
    ensures j < |order| && order[j] == w[|w| - 1] && (2 <= |w| ==> j < k) && j <= k
    decreases |w|
  {
    if |w| == 1 {
      j := k;
    } else {
      var m := NeedEarlier(steps, order, k, w[1].id);
      assert Smallest(steps, order[..m], order[m]);
      assert w[1] in steps;
      SameStep(steps, order[m], w[1]);
      assert Walk(steps, w[1..]) by {
        forall i | 0 <= i < |w[1..]| - 1 ensures w[1..][i + 1].id in w[1..][i].needs {
          assert w[i + 2].id in w[i + 1].needs;
        }
      }
      j := WalkFalls(steps, order, w[1..], m);
    }
  }

  lemma {:induction false} NoCycleWhenOrdered(steps: seq<Step>, order: seq<Step>, w: seq<Step>)
    requires DistinctIds(steps) && Greedy(steps, order) && forall s :: s in steps ==> s in order
    ensures !Cycle(steps, w)
  {
    if Cycle(steps, w) {
      assert w[0] in steps;
      var k :| 0 <= k < |order| && order[k] == w[0];
      var j := WalkFalls(steps, order, w, k);
      GreedyDistinct(steps, order, j, k);
    }
  }

  // ---- when it gets stuck

  /** More places than values: two are equal. */
  lemma {:induction false} Pigeons(w: seq<Step>, pool: seq<Step>) returns (i: nat, j: nat)
    requires |pool| < |w| && forall k :: 0 <= k < |w| ==> w[k] in pool
    ensures i < j < |w| && w[i] == w[j]
    decreases |pool|
  {
    assert w[0] in pool;
    var p, rest := pool[0], pool[1..];
    assert pool == [p] + rest;
    if a :| 0 <= a < |w| && w[a] == p {
      if b :| 0 <= b < |w| && b != a && w[b] == p {
        i, j := if a < b then a else b, if a < b then b else a;
      } else {
        OthersIn(w, pool, a);
        i, j := Pigeons(w[..a] + w[a + 1..], rest);
        i, j := if i < a then i else i + 1, if j < a then j else j + 1;
      }
    } else {
      forall k | 0 <= k < |w| ensures w[k] in rest {
        assert w[k] in pool;
      }
      i, j := Pigeons(w, rest);
    }
  }

  lemma OthersIn(w: seq<Step>, pool: seq<Step>, a: nat)
    requires pool != [] && a < |w| && w[a] == pool[0] && forall k :: 0 <= k < |w| ==> w[k] in pool
    requires forall k :: 0 <= k < |w| && k != a ==> w[k] != pool[0]
    ensures var v := w[..a] + w[a + 1..]; forall k :: 0 <= k < |v| ==> v[k] in pool[1..]
  {
    var v := w[..a] + w[a + 1..];
    assert pool == [pool[0]] + pool[1..];
    forall k | 0 <= k < |v| ensures v[k] in pool[1..] {
      assert v[k] == if k < a then w[k] else w[k + 1];
    }
  }

  ghost predicate Stuck(steps: seq<Step>, order: seq<Step>) {
    forall s :: !Ready(steps, order, s)
  }

  lemma StuckNeed(steps: seq<Step>, order: seq<Step>, s: Step) returns (t: Step)
    requires NeedsKnown(steps) && Stuck(steps, order) && s in steps && !Listed(order, s.id)
    ensures t in steps && !Listed(order, t.id) && t.id in s.needs
  {
    assert !Ready(steps, order, s);
    assert !Met(s, order);
    var k :| 0 <= k < |s.needs| && !Listed(order, s.needs[k]);
    assert s.needs[k] in s.needs;
    assert Listed(steps, s.needs[k]);
    var i :| 0 <= i < |steps| && steps[i].id == s.needs[k];
    t := steps[i];
  }

  lemma {:induction false} StuckWalk(steps: seq<Step>, order: seq<Step>, s: Step, n: nat) returns (w: seq<Step>)
    requires NeedsKnown(steps) && Stuck(steps, order) && s in steps && !Listed(order, s.id)
    ensures |w| == n + 1 && Walk(steps, w) && w[0] == s
    decreases n
  {
    if n == 0 {
      w := [s];
    } else {
      var t := StuckNeed(steps, order, s);
      var v := StuckWalk(steps, order, t, n - 1);
      w := [s] + v;
      WalkFront(steps, s, v);
    }
  }

  lemma WalkFront(steps: seq<Step>, s: Step, v: seq<Step>)
    requires s in steps && Walk(steps, v) && v[0].id in s.needs
    ensures var w := [s] + v; Walk(steps, w) && w[0] == s && w[|w| - 1] == v[|v| - 1]
  {
    var w := [s] + v;
    forall i | 0 <= i < |w| - 1 ensures w[i + 1].id in w[i].needs {
      assert i != 0 ==> w[i] == v[i - 1];
    }
  }

  /** When no step is ready and one is not placed, the needs form a cycle. */
  lemma {:induction false} StuckHasCycle(steps: seq<Step>, order: seq<Step>, s: Step) returns (w: seq<Step>)
    requires NeedsKnown(steps) && Stuck(steps, order) && s in steps && !Listed(order, s.id)
    ensures Cycle(steps, w)
  {
    var v := StuckWalk(steps, order, s, |steps|);
    var i, j := Pigeons(v, steps);
    w := v[i..j + 1];
    forall k | 0 <= k < |w| - 1 ensures w[k + 1].id in w[k].needs {
      assert w[k] == v[i + k] && w[k + 1] == v[i + k + 1];
    }
  }

  ghost predicate Returns(w: seq<Step>) {
    exists i, j :: 0 <= i < j < |w| && w[i] == w[j]
  }

  /** The step's needs, directly or not, run into a cycle. */
  ghost predicate Tangled(steps: seq<Step>, s: Step) {
    exists w :: Walk(steps, w) && w[0] == s && Returns(w)
  }

  /** The ids, in the plan's order, of the steps that no order can place. */
  ghost function TangledIds(steps: seq<Step>, k: nat): seq<string>
    requires k <= |steps|
  {
    if k == 0 then []
    else TangledIds(steps, k - 1) + if Tangled(steps, steps[k - 1]) then [steps[k - 1].id] else []
  }

  lemma PartOfWalk(steps: seq<Step>, w: seq<Step>, i: nat, j: nat)
    requires Walk(steps, w) && i <= j < |w|
    ensures Walk(steps, w[i..j + 1])
  {
    var v := w[i..j + 1];
    forall k | 0 <= k < |v| - 1 ensures v[k + 1].id in v[k].needs {
      assert w[i + k + 1].id in w[i + k].needs;
    }
  }

  /** What is left when no step is ready is exactly what is tangled. */
  lemma {:induction false} LeftIsTangled(steps: seq<Step>, order: seq<Step>, s: Step)
    requires DistinctIds(steps) && NeedsKnown(steps) && Greedy(steps, order) && Stuck(steps, order) && s in steps
    ensures s !in order <==> Tangled(steps, s)
  {
    hide Ready, Smallest, NeedsKnown, Met;
    if k :| 0 <= k < |order| && order[k] == s {
      if w :| Walk(steps, w) && w[0] == s && Returns(w) {
        var i, j :| 0 <= i < j < |w| && w[i] == w[j];
        PartOfWalk(steps, w, 0, i);
        PartOfWalk(steps, w, i, j);
        var a := WalkFalls(steps, order, w[0..i + 1], k);
        var b := WalkFalls(steps, order, w[i..j + 1], a);
        GreedyDistinct(steps, order, b, a);
      }
    } else {
      Unlisted(steps, order, s);
      var w := StuckWalk(steps, order, s, |steps|);
      var i, j := Pigeons(w, steps);
      assert Returns(w);
    }
  }

  lemma Unlisted(steps: seq<Step>, order: seq<Step>, t: Step)
    requires DistinctIds(steps) && Greedy(steps, order) && t in steps && t !in order
    ensures !Listed(order, t.id)
  {
    if i :| 0 <= i < |order| && order[i].id == t.id {
      assert Smallest(steps, order[..i], order[i]);
      SameStep(steps, order[i], t);
    }
  }

  /** As many placed as there are steps means all of them. */
  lemma CountPlaced(steps: seq<Step>, order: seq<Step>)
    requires DistinctIds(steps) && Greedy(steps, order)
    ensures |order| <= |steps|
    ensures |order| == |steps| <==> forall s :: s in steps ==> s in order
  {
    forall k | 0 <= k < |order| ensures order[k] in steps {
      assert Smallest(steps, order[..k], order[k]);
    }
    if |steps| < |order| {
      var i, j := Pigeons(order, steps);
      GreedyDistinct(steps, order, i, j);
    }
    if s :| s in steps && s !in order {
      if |order| == |steps| {
        var w := order + [s];
        var i, j := Pigeons(w, steps);
        if j < |order| {
          GreedyDistinct(steps, order, i, j);
        }
      }
    } else if |order| < |steps| {
      var i, j := Pigeons(steps, order);
    }
  }

  // ---- states

  datatype State = Done | Blocked | AwaitingEvidence | IsReady | Pending

  predicate HasEvidence(s: Step, present: string -> bool) {
    forall i :: 0 <= i < |s.evidence| ==> present(s.evidence[i])
  }

  /** Whether `n` is done among the first `k` steps. */
  ghost predicate NeedDone(order: seq<Step>, k: nat, n: string, present: string -> bool)
    requires k <= |order|
    decreases k, 0
  {
    exists j :: 0 <= j < k && order[j].id == n && IsDone(order, j, present)
  }

  ghost predicate IsDone(order: seq<Step>, k: nat, present: string -> bool)
    requires k < |order|
    decreases k, 1
  {
    HasEvidence(order[k], present) && NeedsDone(order, k, present)
  }

  ghost predicate NeedsDone(order: seq<Step>, k: nat, present: string -> bool)
    requires k < |order|
    decreases k, 1, 0
  {
    forall m :: 0 <= m < |order[k].needs| ==> NeedDone(order, k, order[k].needs[m], present)
  }

  ghost function StateAt(order: seq<Step>, k: nat, present: string -> bool): State
    requires k < |order|
  {
    if IsDone(order, k, present) then Done
    else if order[k].blocked then Blocked
    else if order[k].attended && !HasEvidence(order[k], present) && NeedsDone(order, k, present) then AwaitingEvidence
    else if NeedsDone(order, k, present) then IsReady
    else Pending
  }

  /** Over a complete order a step is done exactly when its own evidence and
      that of everything it needs, directly or not, is present. */
  lemma {:induction false} DoneMeansAllEvidence(steps: seq<Step>, order: seq<Step>, k: nat, present: string -> bool)
    requires DistinctIds(steps) && Greedy(steps, order) && (forall s :: s in steps ==> s in order) && k < |order|
    ensures IsDone(order, k, present) <==>
      forall w :: Walk(steps, w) && w[0] == order[k] ==> HasEvidence(w[|w| - 1], present)
    decreases k
  {
    if IsDone(order, k, present) {
      forall w | Walk(steps, w) && w[0] == order[k] ensures HasEvidence(w[|w| - 1], present) {
        DoneAlong(steps, order, k, w, present);
      }
    } else {
      var w := MissingAlong(steps, order, k, present);
    }
  }

  /** All that a step needs, directly or not, has its evidence. */
  ghost predicate NeedsMet(steps: seq<Step>, s: Step, present: string -> bool) {
    forall w :: Walk(steps, w) && w[0] == s && 2 <= |w| ==> HasEvidence(w[|w| - 1], present)
  }

  lemma {:induction false} NeedsMean(steps: seq<Step>, order: seq<Step>, k: nat, present: string -> bool)
    requires DistinctIds(steps) && Greedy(steps, order) && k < |order|
    ensures NeedsDone(order, k, present) <==> NeedsMet(steps, order[k], present)
  {
    hide HasEvidence, Greedy, Walk;
    PlacedKnown(steps, order, k);
    if NeedsDone(order, k, present) {
      forall w: seq<Step> | Walk(steps, w) && 2 <= |w| && w[0] == order[k] ensures HasEvidence(w[|w| - 1], present) {
        FirstNeed(steps, w);
        var m :| 0 <= m < |order[k].needs| && order[k].needs[m] == w[1].id;
        assert NeedDone(order, k, order[k].needs[m], present);
        var j :| 0 <= j < k && order[j].id == w[1].id && IsDone(order, j, present);
        PlacedKnown(steps, order, j);
        SameStep(steps, order[j], w[1]);
        WalkTail(steps, w);
        DoneAlong(steps, order, j, w[1..], present);
      }
    } else {
      var m :| 0 <= m < |order[k].needs| && !NeedDone(order, k, order[k].needs[m], present);
      var j := NeedEarlier(steps, order, k, order[k].needs[m]);
      assert !IsDone(order, j, present);
      var v := MissingAlong(steps, order, j, present);
      MadeOf(steps, v);
      WalkFront(steps, order[k], v);
      assert |[order[k]] + v| >= 2;
    }
  }

  lemma FirstNeed(steps: seq<Step>, w: seq<Step>)
    requires Walk(steps, w) && 2 <= |w|
    ensures w[1].id in w[0].needs && w[1] in steps
  {
  }

  lemma MadeOf(steps: seq<Step>, w: seq<Step>)
    requires Walk(steps, w)
    ensures w != []
  {
  }

  /** The five states, each by evidence alone: its own and that of what the step
      needs. */
  lemma {:induction false} StatesMean(steps: seq<Step>, order: seq<Step>, k: nat, present: string -> bool)
    requires DistinctIds(steps) && Greedy(steps, order) && k < |order|
    ensures var s, own, met := order[k], HasEvidence(order[k], present), NeedsMet(steps, order[k], present);
      && (StateAt(order, k, present) == Done <==> own && met)
      && (StateAt(order, k, present) == Blocked <==> !(own && met) && s.blocked)
      && (StateAt(order, k, present) == AwaitingEvidence <==> !s.blocked && met && !own && s.attended)
      && (StateAt(order, k, present) == IsReady <==> !s.blocked && met && !own && !s.attended)
      && (StateAt(order, k, present) == Pending <==> !s.blocked && !met)
  {
    hide HasEvidence, NeedsMet, NeedsDone;
    NeedsMean(steps, order, k, present);
  }

  lemma {:induction false} DoneAlong(steps: seq<Step>, order: seq<Step>, k: nat, w: seq<Step>, present: string -> bool)
    requires DistinctIds(steps) && Greedy(steps, order) && k < |order| && IsDone(order, k, present)
    requires Walk(steps, w) && w[0] == order[k]
    ensures HasEvidence(w[|w| - 1], present)
    decreases |w|
  {
    if 2 <= |w| {
      assert w[1].id in w[0].needs;
      var m :| 0 <= m < |order[k].needs| && order[k].needs[m] == w[1].id;
      assert NeedDone(order, k, order[k].needs[m], present);
      var j :| 0 <= j < k && order[j].id == w[1].id && IsDone(order, j, present);
      assert Smallest(steps, order[..j], order[j]);
      SameStep(steps, order[j], w[1]);
      WalkTail(steps, w);
      DoneAlong(steps, order, j, w[1..], present);
    }
  }

  lemma WalkTail(steps: seq<Step>, w: seq<Step>)
    requires Walk(steps, w) && 2 <= |w|
    ensures Walk(steps, w[1..])
  {
    forall i | 0 <= i < |w[1..]| - 1 ensures w[1..][i + 1].id in w[1..][i].needs {
      assert w[i + 2].id in w[i + 1].needs;
    }
  }

  lemma {:induction false} MissingAlong(steps: seq<Step>, order: seq<Step>, k: nat, present: string -> bool)
      returns (w: seq<Step>)
    requires Greedy(steps, order) && k < |order| && !IsDone(order, k, present)
    ensures Walk(steps, w) && w[0] == order[k] && !HasEvidence(w[|w| - 1], present)
    decreases k
  {
    hide HasEvidence, Greedy;
    PlacedKnown(steps, order, k);
    if !HasEvidence(order[k], present) {
      w := [order[k]];
    } else {
      var m :| 0 <= m < |order[k].needs| && !NeedDone(order, k, order[k].needs[m], present);
      var n := order[k].needs[m];
      var j := NeedEarlier(steps, order, k, n);
      assert !IsDone(order, j, present);
      var v := MissingAlong(steps, order, j, present);
      WalkFront(steps, order[k], v);
      w := [order[k]] + v;
    }
  }

  lemma PlacedKnown(steps: seq<Step>, order: seq<Step>, k: nat)
    requires Greedy(steps, order) && k < |order|
    ensures order[k] in steps
  {
    assert Smallest(steps, order[..k], order[k]);
  }
}
