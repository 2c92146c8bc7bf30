/** What the media queue does send: tokens are never lost below the cap, silence
    spends them down to less than one datagram, and every datagram goes to the
    transfer whose turn it is. */
module MediaLaws {
  import opened Wrappers
  import opened Powers
  import opened MediaQueue

  /** A datagram: four bytes, the block and one more. */
  function Datagram(cfg: Config): nat {
    5 + cfg.blockSize
  }

  // ---- tokens

  /** Budget for `ms` milliseconds. */
  function Earned(cfg: Config, ms: int): real {
    (cfg.budget * ms) as real / 1000.0
  }

  lemma EarnedIs(cfg: Config, ms: int)
    ensures Earned(cfg, ms) == Credit(cfg, ms)
  {
    assert (cfg.budget * ms) as real == cfg.budget as real * ms as real;
  }

  /** Elapsed time earns its budget, up to one second's worth; no time, or a first
      tick, earns nothing. */
  lemma {:induction false} Earns(cfg: Config, q: Queue, now: int)
    requires Solvent(cfg, q)
    ensures var tokens := Clocked(cfg, q, now).tokens;
      if q.lastTick.Some? && q.lastTick.value < now then
        var more := q.tokens + Earned(cfg, now - q.lastTick.value);
        if more <= cfg.budget as real then tokens == more else tokens == cfg.budget as real
      else tokens == q.tokens
  {
    if q.lastTick.Some? {
      EarnedIs(cfg, now - q.lastTick.value);
    }
  }

  /** A silent tick with something to send leaves less than one datagram's tokens,
      and has sent all the others. */
  lemma {:induction false} SilenceDrains(cfg: Config, q: Queue, now: int)
    requires Solvent(cfg, q) && Active(q.transfers) != []
    ensures var r, tokens := Ticked(cfg, q, now, false), Clocked(cfg, q, now).tokens;
      && 0.0 <= r.tokens < Datagram(cfg) as real
      && q.emitted <= r.emitted && (r.emitted - q.emitted) % Datagram(cfg) == 0
      && (r.emitted - q.emitted) as real + r.tokens == tokens
  {
    hide Emits, Affordable, Active;
    AccruedBounds(cfg, q, now);
    var q1, active := Clocked(cfg, q, now), Active(q.transfers);
    var n := Affordable(cfg, q1.tokens);
    EmitsSpends(cfg, q1, active, n);
    Multiple(n, Datagram(cfg));
  }

  lemma Multiple(n: nat, d: nat)
    requires 1 <= d
    ensures 0 <= n * d && (n * d) % d == 0
  {
    Quotient(n * d, d, n, 0);
  }

  // ---- spans

  /** At no tick of the span the bucket has more than it can hold. */
  ghost predicate NeverOver(cfg: Config, q: Queue, events: seq<Event>) {
    events == [] || (
      && NeverOver(cfg, q, events[..|events| - 1])
      && var before, e := Run(cfg, q, events[..|events| - 1]), events[|events| - 1];
         e.Tick? && before.lastTick.Some? && before.lastTick.value < e.now ==>
           before.tokens + Earned(cfg, e.now - before.lastTick.value) <= cfg.budget as real)
  }

  /** One event: bytes out and tokens left are what was left before and what the
      time earned, less only what the bucket could not hold. */
  lemma StepEarns(cfg: Config, q: Queue, t: int, e: Event)
    requires Solvent(cfg, q) && q.lastTick == Some(t) && (e.Tick? ==> t <= e.now)
    ensures var r := Step(cfg, q, e); var later := if e.Tick? then e.now else t;
      && Solvent(cfg, r) && r.lastTick == Some(later)
      && r.emitted as real + r.tokens <= q.emitted as real + q.tokens + Earned(cfg, later - t)
      && (r.emitted as real + r.tokens == q.emitted as real + q.tokens + Earned(cfg, later - t) <==>
            !(e.Tick? && t < e.now && cfg.budget as real < q.tokens + Earned(cfg, e.now - t)))
  {
    hide Ticked, Earned, Clocked;
    EarnedNothing(cfg);
    if e.Tick? {
      TickSpends(cfg, q, e.now, e.speaking);
      Earns(cfg, q, e.now);
    }
  }

  lemma EarnedNothing(cfg: Config)
    ensures Earned(cfg, 0) == 0.0
  {
  }

  lemma EarnedAdds(cfg: Config, x: int, y: int)
    ensures Earned(cfg, x) + Earned(cfg, y) == Earned(cfg, x + y)
  {
    EarnedIs(cfg, x);
    EarnedIs(cfg, y);
    EarnedIs(cfg, x + y);
    CreditAdds(cfg, x, y);
  }

  /** Over a span nothing is lost if and only if the bucket never runs over. */
  lemma {:induction false} SpanConserves(cfg: Config, q: Queue, t: int, events: seq<Event>)
    requires Solvent(cfg, q) && q.lastTick == Some(t) && Forward(t, events)
    ensures var r := Run(cfg, q, events);
      && Solvent(cfg, r) && r.lastTick == Some(Latest(t, events))
      && r.emitted as real + r.tokens <= q.emitted as real + q.tokens + Earned(cfg, Latest(t, events) - t)
      && (r.emitted as real + r.tokens == q.emitted as real + q.tokens + Earned(cfg, Latest(t, events) - t)
          <==> NeverOver(cfg, q, events))
    decreases |events|
  {
    hide Step, Earned, Solvent;
    EarnedNothing(cfg);
    if events != [] {
      var init, e := events[..|events| - 1], events[|events| - 1];
      SpanConserves(cfg, q, t, init);
      StepEarns(cfg, Run(cfg, q, init), Latest(t, init), e);
      EarnedAdds(cfg, Latest(t, init) - t, Latest(t, events) - Latest(t, init));
    }
  }

  /** On every run: from one tick to a later silent one with something to send,
      while the bucket never runs over, all that the time earned has gone out but
      less than one datagram. */
  lemma {:induction false} Throughput(cfg: Config, events: seq<Event>, i: nat, j: nat)
    requires i < j < |events| && events[i].Tick? && Forward(events[i].now, events[i + 1..j + 1])
    requires events[j].Tick? && !events[j].speaking && Active(Run(cfg, Start(), events[..j]).transfers) != []
    requires NeverOver(cfg, Run(cfg, Start(), events[..i + 1]), events[i + 1..j + 1])
    ensures var before, after := Run(cfg, Start(), events[..i + 1]), Run(cfg, Start(), events[..j + 1]);
      var earned := before.tokens + Earned(cfg, events[j].now - events[i].now);
      earned - Datagram(cfg) as real < (after.emitted - before.emitted) as real <= earned
  {
    hide Step, Earned, Active, Ticked;
    var before, span := Run(cfg, Start(), events[..i + 1]), events[i + 1..j + 1];
    AlwaysSolvent(cfg, events[..i + 1]);
    AlwaysSolvent(cfg, events[..j]);
    TickedAt(cfg, events, i);
    TickedAt(cfg, events, j);
    SpanConserves(cfg, before, events[i].now, span);
    assert events[..j + 1] == events[..i + 1] + span;
    RunSplit(cfg, Start(), events[..i + 1], span);
    assert span[|span| - 1] == events[j];
    SilenceDrains(cfg, Run(cfg, Start(), events[..j]), events[j].now);
  }

  lemma TickedAt(cfg: Config, events: seq<Event>, i: nat)
    requires i < |events| && events[i].Tick?
    ensures var r := Run(cfg, Start(), events[..i + 1]);
      r == Ticked(cfg, Run(cfg, Start(), events[..i]), events[i].now, events[i].speaking) && r.lastTick == Some(events[i].now)
  {
    hide Active, Emits, Affordable;
    assert events[..i + 1][..i] == events[..i];
    var q := Run(cfg, Start(), events[..i]);
    AlwaysSolvent(cfg, events[..i]);
    TickSpends(cfg, q, events[i].now, events[i].speaking);
  }

  /** A first datagram after a second of silence: one transfer, budget 300, blocks of
      48: five datagrams of 53 bytes. */
  lemma {:induction false} FiveDatagrams(cfg: Config)
    requires cfg == Config(300, 48)
    ensures Run(cfg, Start(), [Enqueue, Tick(0, false), Tick(1000, false)]).emitted == 265
  {
    hide Ticked, Active;
    var q0 := Enqueued(Start());
    var q1 := Ticked(cfg, q0, 0, false);
    ThreeEvents(cfg);
    OneActive();
    SilenceDrains(cfg, q0, 0);
    TickKeeps(cfg, q0, 0, false);
    Earns(cfg, q0, 0);
    TickSpends(cfg, q0, 0, false);
    SilenceDrains(cfg, q1, 1000);
    Earns(cfg, q1, 1000);
    FiveOf((Ticked(cfg, q1, 1000, false).emitted - q1.emitted), 53);
  }

  lemma FiveOf(x: int, d: int)
    requires d == 53 && 0 <= x && x % d == 0 && 247 < x <= 300
    ensures x == 265
  {
  }

  lemma ThreeEvents(cfg: Config)
    ensures Run(cfg, Start(), [Enqueue, Tick(0, false), Tick(1000, false)]) ==
      Ticked(cfg, Ticked(cfg, Enqueued(Start()), 0, false), 1000, false)
  {
    hide Ticked, Enqueued;
    var a, b, c := Enqueue, Tick(0, false), Tick(1000, false);
    assert [a, b, c][..2] == [a, b] && [a, b][..1] == [a] && [a][..0] == [];
    assert Run(cfg, Start(), [a]) == Enqueued(Start());
    assert Run(cfg, Start(), [a, b]) == Ticked(cfg, Enqueued(Start()), 0, false);
  }

  lemma OneActive()
    ensures Active(Enqueued(Start()).transfers) != [] && Active([]) == []
  {
    var ts := Enqueued(Start()).transfers;
    assert ts == [Transfer(1, false, 0)] && ts[..0] == [];
  }

  // ---- which transfers

  /** The positions of all transfers not done, in order. */
  lemma {:induction false} ActiveAll(ts: seq<Transfer>)
    ensures forall i :: i in Active(ts) <==> 0 <= i < |ts| && !ts[i].done
    decreases |ts|
  {
    if ts != [] {
      ActiveAll(ts[..|ts| - 1]);
    }
  }

  /** A tick changes no transfer but in what it has sent. */
  lemma {:induction false} TickKeeps(cfg: Config, q: Queue, now: int, speaking: bool)
    ensures var r := Ticked(cfg, q, now, speaking);
      && |r.transfers| == |q.transfers| && r.nextId == q.nextId
      && forall i :: 0 <= i < |r.transfers| ==> r.transfers[i].id == q.transfers[i].id && r.transfers[i].done == q.transfers[i].done
    ensures Active(Ticked(cfg, q, now, speaking).transfers) == Active(q.transfers)
  {
    hide Active, Affordable, Emits;
    var q1, active := Clocked(cfg, q, now), Active(q.transfers);
    if !speaking && active != [] {
      EmitsKeep(cfg, q1, active, Affordable(cfg, q1.tokens));
    }
    SameActive(Ticked(cfg, q, now, speaking).transfers, q.transfers);
  }

  lemma {:induction false} SameActive(a: seq<Transfer>, b: seq<Transfer>)
    requires |a| == |b| && forall i :: 0 <= i < |a| ==> a[i].done == b[i].done
    ensures Active(a) == Active(b)
    decreases |a|
  {
    if a != [] {
      SameActive(a[..|a| - 1], b[..|b| - 1]);
    }
  }

  lemma {:induction false} EmitsKeep(cfg: Config, q: Queue, active: seq<nat>, n: nat)
    requires active != [] && forall k :: 0 <= k < |active| ==> active[k] < |q.transfers|
    ensures var r := Emits(cfg, q, active, n);
      && |r.transfers| == |q.transfers| && r.nextId == q.nextId
      && forall i :: 0 <= i < |r.transfers| ==> r.transfers[i].id == q.transfers[i].id && r.transfers[i].done == q.transfers[i].done
    decreases n
  {
    if n != 0 {
      EmitsKeep(cfg, q, active, n - 1);
    }
  }

  /** The place in the round after `k` more turns. */
  function Place(q: Queue, m: nat, k: nat): nat
    requires 1 <= m
  {
    ((if m <= q.cursor then 0 else q.cursor) + k) % m
  }

  /** Datagrams go out in turn: the `k`-th of a tick goes to the transfer `k` places
      on from where the last one stopped. */
  lemma {:induction false} InTurn(cfg: Config, q: Queue, active: seq<nat>, n: nat, k: nat)
    requires active != [] && (forall i :: 0 <= i < |active| ==> active[i] < |q.transfers|) && k < n
    ensures Place(q, |active|, k) < |active|
    ensures Tags(cfg, q, active, n)[k] == q.transfers[active[Place(q, |active|, k)]].id
    decreases n
  {
    hide Emits;
    if k < n - 1 {
      InTurn(cfg, q, active, n - 1, k);
    } else {
      CursorAfter(cfg, q, active, k);
      EmitsKeep(cfg, q, active, k);
    }
  }

  lemma {:induction false} CursorAfter(cfg: Config, q: Queue, active: seq<nat>, n: nat)
    requires active != [] && forall i :: 0 <= i < |active| ==> active[i] < |q.transfers|
    ensures var c := Emits(cfg, q, active, n).cursor;
      Place(q, |active|, n) == if |active| <= c then 0 else c
    decreases n
  {
    var m := |active|;
    var start := if m <= q.cursor then 0 else q.cursor;
    if n == 0 {
      Turned(start, m);
    } else {
      CursorAfter(cfg, q, active, n - 1);
      NextPlace(start + n - 1, m);
    }
  }

  lemma Turned(x: nat, m: nat)
    requires x < m
    ensures x % m == x
  {
  }

  lemma NextPlace(x: nat, m: nat)
    requires 1 <= m
    ensures (x + 1) % m == if x % m + 1 < m then x % m + 1 else 0
  {
    var r := x % m;
    assert x == x / m * m + r;
    if r + 1 < m {
      Quotient(x + 1, m, x / m, r + 1);
    } else {
      assert x + 1 == (x / m + 1) * m;
      Quotient(x + 1, m, x / m + 1, 0);
    }
  }

  /** Each datagram that carries a transfer's id is one more it has sent. */
  function Tagged(out: seq<nat>, id: nat): nat {
    if out == [] then 0 else Tagged(out[..|out| - 1], id) + if out[|out| - 1] == id then 1 else 0
  }

  ghost predicate DistinctTransfers(ts: seq<Transfer>) {
    forall i, j :: 0 <= i < j < |ts| ==> ts[i].id != ts[j].id
  }

  lemma TurnSends(cfg: Config, q: Queue, active: seq<nat>, i: nat)
    requires active != [] && (forall k :: 0 <= k < |active| ==> active[k] < |q.transfers|) && i < |q.transfers|
    ensures |Emit(cfg, q, active).transfers| == |q.transfers|
    ensures Emit(cfg, q, active).transfers[i].sent ==
      q.transfers[i].sent + if active[if |active| <= q.cursor then 0 else q.cursor] == i then 1 else 0
  {
  }

  lemma {:induction false} SentIsTagged(cfg: Config, q: Queue, active: seq<nat>, n: nat, i: nat)
    requires active != [] && (forall k :: 0 <= k < |active| ==> active[k] < |q.transfers|)
    requires DistinctTransfers(q.transfers) && i < |q.transfers|
    ensures |Emits(cfg, q, active, n).transfers| == |q.transfers|
    ensures Emits(cfg, q, active, n).transfers[i].sent ==
      q.transfers[i].sent + Tagged(Tags(cfg, q, active, n), q.transfers[i].id)
    decreases n
  {
    hide Emit;
    if n != 0 {
      SentIsTagged(cfg, q, active, n - 1, i);
      TurnSends(cfg, Emits(cfg, q, active, n - 1), active, i);
      EmitsKeep(cfg, q, active, n - 1);
      var before, out := Emits(cfg, q, active, n - 1), Tags(cfg, q, active, n);
      assert out[..n - 1] == Tags(cfg, q, active, n - 1);
      var at := active[if |active| <= before.cursor then 0 else before.cursor];
      if at < i {
        assert q.transfers[at].id != q.transfers[i].id;
      } else if i < at {
        assert q.transfers[i].id != q.transfers[at].id;
      }
    }
  }

  // ---- enqueue and completion

  /** A new transfer stands last, has sent nothing, waits for its turn, and has an
      id no other has. */
  lemma {:induction false} NewTransfer(q: Queue)
    requires forall i :: 0 <= i < |q.transfers| ==> q.transfers[i].id < q.nextId
    ensures var r := Enqueued(q); var n := |q.transfers|;
      && |r.transfers| == n + 1 && r.transfers[..n] == q.transfers && r.transfers[n].sent == 0
      && Active(r.transfers) == Active(q.transfers) + [n]
      && (forall i :: 0 <= i < n ==> r.transfers[i].id != r.transfers[n].id)
      && r.transfers[n].id == q.nextId == r.nextId - 1
      && r.tokens == q.tokens && r.lastTick == q.lastTick && r.cursor == q.cursor && r.emitted == q.emitted
  {
    var r := Enqueued(q);
    assert r.transfers[..|r.transfers| - 1] == q.transfers;
  }

  /** The transfers not done, in order. */
  function Unfinished(ts: seq<Transfer>): seq<Transfer> {
    if ts == [] then [] else (if ts[0].done then [] else [ts[0]]) + Unfinished(ts[1..])
  }

  function Without(ts: seq<Transfer>, id: nat): seq<Transfer> {
    if ts == [] then [] else (if ts[0].id == id then [] else [ts[0]]) + Without(ts[1..], id)
  }

  lemma {:induction false} MarkedUnfinished(ts: seq<Transfer>, id: nat)
    ensures Unfinished(Marked(ts, id)) == Without(Unfinished(ts), id)
    decreases |ts|
  {
    if ts != [] {
      MarkedUnfinished(ts[1..], id);
      assert Marked(ts, id)[1..] == Marked(ts[1..], id);
      if !ts[0].done {
        assert Unfinished(ts)[1..] == Unfinished(ts[1..]);
      } else {
        assert Unfinished(ts) == Unfinished(ts[1..]);
      }
    }
  }

  lemma {:induction false} TrimmedUnfinished(ts: seq<Transfer>)
    ensures Unfinished(Trimmed(ts)) == Unfinished(ts)
    ensures Trimmed(ts) != [] ==> !Trimmed(ts)[0].done
    decreases |ts|
  {
    if ts != [] && ts[0].done {
      TrimmedUnfinished(ts[1..]);
      assert Unfinished(ts) == Unfinished(ts[1..]);
    }
  }

  /** An acknowledgement takes exactly the transfers of its id off the unfinished
      ones, and no finished one stays at the head. */
  lemma {:induction false} CompletedExactly(q: Queue, id: nat)
    ensures var r := Completed(q, id);
      && Unfinished(r.transfers) == Without(Unfinished(q.transfers), id)
      && (r.transfers != [] ==> !r.transfers[0].done)
      && r == q.(transfers := r.transfers)
  {
    MarkedUnfinished(q.transfers, id);
    TrimmedUnfinished(Marked(q.transfers, id));
  }

  lemma {:induction false} WithoutNone(ts: seq<Transfer>, id: nat)
    ensures forall t :: t in Without(ts, id) <==> t in ts && t.id != id
    decreases |ts|
  {
    if ts != [] {
      WithoutNone(ts[1..], id);
      assert ts == [ts[0]] + ts[1..];
    }
  }

  /** After an acknowledgement, at whatever point of a run, no transfer of its id is
      unfinished, and every other still is. */
  lemma {:induction false} AcknowledgedIsFinished(cfg: Config, events: seq<Event>, id: nat)
    ensures var before, after := Run(cfg, Start(), events), Run(cfg, Start(), events + [Complete(id)]);
      forall t :: t in Unfinished(after.transfers) <==> t in Unfinished(before.transfers) && t.id != id
  {
    hide Completed, Unfinished;
    assert (events + [Complete(id)])[..|events|] == events;
    var before := Run(cfg, Start(), events);
    CompletedExactly(before, id);
    WithoutNone(Unfinished(before.transfers), id);
  }

  ghost predicate GoodIds(q: Queue) {
    DistinctTransfers(q.transfers) && forall i :: 0 <= i < |q.transfers| ==> q.transfers[i].id < q.nextId
  }

  lemma StepIds(cfg: Config, q: Queue, e: Event)
    requires GoodIds(q)
    ensures GoodIds(Step(cfg, q, e))
  {
    hide Ticked, Trimmed;
    match e
    case Tick(now, speaking) => TickKeeps(cfg, q, now, speaking);
    case Enqueue =>
    case Complete(id) =>
      var ts := Marked(q.transfers, id);
      TrimmedSuffix(ts);
      SuffixIds(ts, |ts| - |Trimmed(ts)|, q.nextId);
  }

  lemma SuffixIds(ts: seq<Transfer>, k: nat, n: nat)
    requires k <= |ts| && DistinctTransfers(ts) && forall i :: 0 <= i < |ts| ==> ts[i].id < n
    ensures DistinctTransfers(ts[k..]) && forall i :: 0 <= i < |ts[k..]| ==> ts[k..][i].id < n
  {
  }

  /** On every run ids are distinct and below the next one. */
  lemma {:induction false} IdsDistinct(cfg: Config, events: seq<Event>)
    ensures GoodIds(Run(cfg, Start(), events))
    decreases |events|
  {
    hide Step, GoodIds;
    if events == [] {
      NoIds();
    } else {
      IdsDistinct(cfg, events[..|events| - 1]);
      StepIds(cfg, Run(cfg, Start(), events[..|events| - 1]), events[|events| - 1]);
    }
  }

  lemma NoIds()
    ensures GoodIds(Start())
  {
  }

  lemma {:induction false} TrimmedSuffix(ts: seq<Transfer>)
    ensures |Trimmed(ts)| <= |ts| && Trimmed(ts) == ts[|ts| - |Trimmed(ts)|..]
    decreases |ts|
  {
    if ts != [] && ts[0].done {
      TrimmedSuffix(ts[1..]);
    }
  }
}
