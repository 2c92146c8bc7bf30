/** Media datagrams in the silences: a token bucket and a round robin over the
    transfers in progress. */
module MediaQueue {
  import opened Wrappers

  /** `sent` counts the datagrams a transfer has handed out. */
  datatype Transfer = Transfer(id: nat, done: bool, sent: nat)

  datatype Queue = Queue(
    transfers: seq<Transfer>,
    nextId: nat,
    lastTick: Option<int>,
    tokens: real,
    cursor: nat,
    emitted: nat)

  datatype Config = Config(budget: nat, blockSize: nat)

  function Size(cfg: Config): nat {
    4 + cfg.blockSize + 1
  }

  function Start(): Queue {
    Queue([], 1, None, 0.0, 0, 0)
  }

  /** Positions of the transfers not yet marked done. */
  function Active(ts: seq<Transfer>): (a: seq<nat>)
    ensures forall k :: 0 <= k < |a| ==> a[k] < |ts| && !ts[a[k]].done
  {
    if ts == [] then []
    else Active(ts[..|ts| - 1]) + if ts[|ts| - 1].done then [] else [|ts| - 1]
  }

  /** The budget for a stretch of milliseconds. */
  function Credit(cfg: Config, ms: int): real {
    cfg.budget as real * ms as real / 1000.0
  }

  /** What the clock adds: budget by elapsed time, at most one second's worth. */
  function Accrued(cfg: Config, tokens: real, last: Option<int>, now: int): real {
    if last == None || now <= last.value then tokens
    else
      var more := tokens + Credit(cfg, now - last.value);
      if more > cfg.budget as real then cfg.budget as real else more
  }

  /** One datagram of the transfer whose turn it is. */
  function Emit(cfg: Config, q: Queue, active: seq<nat>): Queue
    requires active != [] && forall k :: 0 <= k < |active| ==> active[k] < |q.transfers|
  {
    var c := if |active| <= q.cursor then 0 else q.cursor;
    var i := active[c];
    var t := q.transfers[i];
    q.(transfers := q.transfers[i := t.(sent := t.sent + 1)],
       tokens := q.tokens - Size(cfg) as real,
       cursor := c + 1,
       emitted := q.emitted + Size(cfg))
  }

  function Emits(cfg: Config, q: Queue, active: seq<nat>, n: nat): (r: Queue)
    requires active != [] && forall k :: 0 <= k < |active| ==> active[k] < |q.transfers|
    ensures |r.transfers| == |q.transfers|
  {
    if n == 0 then q else Emit(cfg, Emits(cfg, q, active, n - 1), active)
  }

  /** The datagrams the tokens pay for. */
  function Affordable(cfg: Config, tokens: real): (n: nat)
    ensures tokens - (n * Size(cfg)) as real < Size(cfg) as real
    ensures 0.0 <= tokens ==> 0.0 <= tokens - (n * Size(cfg)) as real
    decreases tokens.Floor
  {
    if tokens < Size(cfg) as real then 0 else 1 + Affordable(cfg, tokens - Size(cfg) as real)
  }

  /** The ids of `n` datagrams in the order they go out. */
  function Tags(cfg: Config, q: Queue, active: seq<nat>, n: nat): (out: seq<nat>)
    requires active != [] && forall k :: 0 <= k < |active| ==> active[k] < |q.transfers|
    ensures |out| == n
  {
    if n == 0 then []
    else
      var before := Emits(cfg, q, active, n - 1);
      Tags(cfg, q, active, n - 1) + [before.transfers[active[if |active| <= before.cursor then 0 else before.cursor]].id]
  }

  function Clocked(cfg: Config, q: Queue, now: int): Queue {
    q.(lastTick := Some(now), tokens := Accrued(cfg, q.tokens, q.lastTick, now))
  }

  function Ticked(cfg: Config, q: Queue, now: int, speaking: bool): Queue {
    var q1, active := Clocked(cfg, q, now), Active(q.transfers);
    if speaking || active == [] then q1 else Emits(cfg, q1, active, Affordable(cfg, q1.tokens))
  }

  function Enqueued(q: Queue): Queue {
    q.(transfers := q.transfers + [Transfer(q.nextId, false, 0)], nextId := q.nextId + 1)
  }

  function Marked(ts: seq<Transfer>, id: nat): (r: seq<Transfer>)
    ensures |r| == |ts| && forall i :: 0 <= i < |r| ==> r[i] == if ts[i].id == id then ts[i].(done := true) else ts[i]
  {
    seq(|ts|, i requires 0 <= i < |ts| => if ts[i].id == id then ts[i].(done := true) else ts[i])
  }

  /** Finished transfers leave from the head only. */
  function Trimmed(ts: seq<Transfer>): seq<Transfer> {
    if ts != [] && ts[0].done then Trimmed(ts[1..]) else ts
  }

  function Completed(q: Queue, id: nat): Queue {
    q.(transfers := Trimmed(Marked(q.transfers, id)))
  }

  // ---- the rate

  datatype Event = Tick(now: int, speaking: bool) | Enqueue | Complete(id: nat)

  function Step(cfg: Config, q: Queue, e: Event): Queue {
    match e
    case Tick(now, speaking) => Ticked(cfg, q, now, speaking)
    case Enqueue => Enqueued(q)
    case Complete(id) => Completed(q, id)
  }

  function Run(cfg: Config, q: Queue, events: seq<Event>): Queue {
    if events == [] then q else Step(cfg, Run(cfg, q, events[..|events| - 1]), events[|events| - 1])
  }

  ghost predicate Solvent(cfg: Config, q: Queue) {
    0.0 <= q.tokens <= cfg.budget as real && (q.lastTick == None ==> q.tokens == 0.0)
  }

  lemma {:induction false} EmitsSpends(cfg: Config, q: Queue, active: seq<nat>, n: nat)
    requires active != [] && forall k :: 0 <= k < |active| ==> active[k] < |q.transfers|
    ensures var r := Emits(cfg, q, active, n);
      && r.emitted == q.emitted + n * Size(cfg)
      && r.tokens == q.tokens - (n * Size(cfg)) as real
      && r.lastTick == q.lastTick && r.nextId == q.nextId
    decreases n
  {
    if n != 0 {
      EmitsSpends(cfg, q, active, n - 1);
      assert (n - 1) * Size(cfg) + Size(cfg) == n * Size(cfg);
    }
  }

  lemma AccruedBounds(cfg: Config, q: Queue, now: int)
    requires Solvent(cfg, q)
    ensures var t := Clocked(cfg, q, now).tokens;
      && 0.0 <= t <= cfg.budget as real
      && (q.lastTick.Some? && q.lastTick.value <= now ==>
            t <= q.tokens + Credit(cfg, now - q.lastTick.value))
  {
    if q.lastTick.Some? && q.lastTick.value < now {
      NotNegative(cfg, now - q.lastTick.value);
    }
  }

  lemma NotNegative(cfg: Config, ms: nat)
    ensures 0.0 <= Credit(cfg, ms)
  {
    var a, b := cfg.budget as real, ms as real;
    assert 0.0 <= a * b;
  }

  /** A tick spends no more than the tokens it had. */
  lemma {:induction false} TickSpends(cfg: Config, q: Queue, now: int, speaking: bool)
    requires Solvent(cfg, q)
    ensures var r := Ticked(cfg, q, now, speaking);
      && Solvent(cfg, r) && r.lastTick == Some(now)
      && r.emitted as real + r.tokens == q.emitted as real + Clocked(cfg, q, now).tokens
      && (speaking ==> r.emitted == q.emitted && r.transfers == q.transfers)
  {
    hide Emits, Affordable, Active;
    AccruedBounds(cfg, q, now);
    var q1, active := Clocked(cfg, q, now), Active(q.transfers);
    if !speaking && active != [] {
      EmitsSpends(cfg, q1, active, Affordable(cfg, q1.tokens));
    }
  }

  /** The times of the ticks, from `t` on, never go back. */
  ghost predicate Forward(t: int, events: seq<Event>) {
    events == [] || (
      Forward(t, events[..|events| - 1])
      && (events[|events| - 1].Tick? ==> Latest(t, events[..|events| - 1]) <= events[|events| - 1].now))
  }

  function Latest(t: int, events: seq<Event>): int {
    if events == [] then t
    else if events[|events| - 1].Tick? then events[|events| - 1].now
    else Latest(t, events[..|events| - 1])
  }

  lemma {:induction false} RunSpends(cfg: Config, q: Queue, t: int, events: seq<Event>)
    requires Solvent(cfg, q) && q.lastTick == Some(t) && Forward(t, events)
    ensures var r := Run(cfg, q, events);
      && Solvent(cfg, r) && r.lastTick == Some(Latest(t, events))
      && r.emitted as real + r.tokens <=
           q.emitted as real + q.tokens + Credit(cfg, Latest(t, events) - t)
    decreases |events|
  {
    hide Ticked, Credit, Clocked;
    CreditNothing(cfg);
    if events != [] {
      var init, e := events[..|events| - 1], events[|events| - 1];
      RunSpends(cfg, q, t, init);
      var before := Run(cfg, q, init);
      if e.Tick? {
        TickSpends(cfg, before, e.now, e.speaking);
        AccruedBounds(cfg, before, e.now);
        CreditAdds(cfg, Latest(t, init) - t, e.now - Latest(t, init));
      }
    }
  }

  lemma CreditNothing(cfg: Config)
    ensures Credit(cfg, 0) == 0.0
  {
  }

  lemma CreditAdds(cfg: Config, x: int, y: int)
    ensures Credit(cfg, x) + Credit(cfg, y) == Credit(cfg, x + y)
  {
    var b := cfg.budget as real;
    assert b * x as real + b * y as real == b * (x + y) as real;
  }

  lemma {:induction false} RunSplit(cfg: Config, q: Queue, before: seq<Event>, after: seq<Event>)
    ensures Run(cfg, q, before + after) == Run(cfg, Run(cfg, q, before), after)
    decreases |after|
  {
    hide Step;
    if after == [] {
      assert before + after == before;
    } else {
      RunSplit(cfg, q, before, after[..|after| - 1]);
      assert (before + after)[..|before + after| - 1] == before + after[..|after| - 1];
    }
  }

  /** Every reachable queue is solvent. */
  lemma {:induction false} AlwaysSolvent(cfg: Config, events: seq<Event>)
    ensures Solvent(cfg, Run(cfg, Start(), events))
    decreases |events|
  {
    hide Ticked;
    if events != [] {
      var e := events[|events| - 1];
      AlwaysSolvent(cfg, events[..|events| - 1]);
      if e.Tick? {
        TickSpends(cfg, Run(cfg, Start(), events[..|events| - 1]), e.now, e.speaking);
      }
    }
  }

  /** On every run, from any tick to any later one, both included, at most one
      second's budget plus the budget for the time between goes out, if the
      clock does not go back between them. */
  lemma {:induction false} RateBound(cfg: Config, events: seq<Event>, i: nat, j: nat)
    requires i < j <= |events| && events[i].Tick? && Forward(events[i].now, events[i + 1..j])
    ensures var t := events[i].now;
      (Run(cfg, Start(), events[..j]).emitted - Run(cfg, Start(), events[..i]).emitted) as real <=
        cfg.budget as real + Credit(cfg, Latest(t, events[i + 1..j]) - t)
  {
    hide Ticked, Run, Clocked, Solvent;
    var q, e, span := Run(cfg, Start(), events[..i]), events[i], events[i + 1..j];
    AlwaysSolvent(cfg, events[..i]);
    SpanBound(cfg, q, e.now, e.speaking, span);
    assert events[..i + 1] == events[..i] + [e];
    assert events[..j] == events[..i + 1] + span;
    RunOne(cfg, q, e);
    RunSplit(cfg, Start(), events[..i], [e]);
    RunSplit(cfg, Start(), events[..i + 1], span);
  }

  lemma RunOne(cfg: Config, q: Queue, e: Event)
    ensures Run(cfg, q, [e]) == Step(cfg, q, e)
  {
    assert [e][..0] == [];
  }

  lemma {:induction false} SpanBound(cfg: Config, q: Queue, now: int, speaking: bool, events: seq<Event>)
    requires Solvent(cfg, q) && Forward(now, events)
    ensures var r := Run(cfg, Ticked(cfg, q, now, speaking), events);
      (r.emitted - q.emitted) as real <=
        cfg.budget as real + Credit(cfg, Latest(now, events) - now)
  {
    hide Ticked, Run, Clocked;
    TickSpends(cfg, q, now, speaking);
    AccruedBounds(cfg, q, now);
    RunSpends(cfg, Ticked(cfg, q, now, speaking), now, events);
  }

  // ---- fair turns

  function Turn(cursor: nat, m: nat): nat {
    if m <= cursor then 0 else cursor
  }

  /** How many places after the starting turn `s` place `k` comes. */
  function Behind(k: nat, s: nat, m: nat): int {
    if k < s then k - s + m else k - s
  }

  /** After `r` full rounds and `j` turns more, counted from turn `s`. */
  ghost predicate Rounds(base: seq<Transfer>, q: Queue, active: seq<nat>, s: nat, r: nat, j: nat) {
    && |q.transfers| == |base| && s < |active| && j < |active|
    && (forall k :: 0 <= k < |active| ==> active[k] < |base|)
    && (forall k :: 0 <= k < |active| ==>
          q.transfers[active[k]].sent == base[active[k]].sent + r + if Behind(k, s, |active|) < j then 1 else 0)
    && Turn(q.cursor, |active|) == (if s + j < |active| then s + j else s + j - |active|)
  }

  ghost predicate Rising(active: seq<nat>) {
    forall i, k :: 0 <= i < k < |active| ==> active[i] < active[k]
  }

  lemma EmitRounds(cfg: Config, base: seq<Transfer>, q: Queue, active: seq<nat>, s: nat, r: nat, j: nat)
    requires Rounds(base, q, active, s, r, j) && Rising(active)
    ensures var after := Emit(cfg, q, active);
      if j + 1 < |active| then Rounds(base, after, active, s, r, j + 1) else Rounds(base, after, active, s, r + 1, 0)
  {
    var m, after := |active|, Emit(cfg, q, active);
    var c := Turn(q.cursor, m);
    assert Behind(c, s, m) == j;
    forall k | 0 <= k < m ensures after.transfers[active[k]].sent == q.transfers[active[k]].sent + if k == c then 1 else 0 {
      if k < c {
        assert active[k] < active[c];
      } else if c < k {
        assert active[c] < active[k];
      }
    }
    forall k | 0 <= k < m && k != c ensures Behind(k, s, m) != j {
    }
  }

  lemma RoundsActive(base: seq<Transfer>, q: Queue, active: seq<nat>, s: nat, r: nat, j: nat)
    requires Rounds(base, q, active, s, r, j)
    ensures active != [] && forall k :: 0 <= k < |active| ==> active[k] < |q.transfers|
  {
  }

  lemma {:induction false} EmitsRounds(cfg: Config, base: seq<Transfer>, q: Queue, active: seq<nat>, s: nat, r: nat, j: nat, n: nat)
      returns (r': nat, j': nat)
    requires Rounds(base, q, active, s, r, j) && Rising(active)
    ensures Rounds(base, Emits(cfg, q, active, n), active, s, r', j')
    decreases n
  {
    hide Emit, Rounds;
    RoundsActive(base, q, active, s, r, j);
    if n == 0 {
      r', j' := r, j;
    } else {
      r', j' := EmitsRounds(cfg, base, q, active, s, r, j, n - 1);
      EmitRounds(cfg, base, Emits(cfg, q, active, n - 1), active, s, r', j');
      r', j' := if j' + 1 < |active| then r' else r' + 1, if j' + 1 < |active| then j' + 1 else 0;
    }
  }

  lemma {:induction false} ActiveRising(ts: seq<Transfer>)
    ensures Rising(Active(ts))
    decreases |ts|
  {
    if ts != [] {
      ActiveRising(ts[..|ts| - 1]);
    }
  }

  lemma {:induction false} SameActive(ts: seq<Transfer>, us: seq<Transfer>)
    requires |ts| == |us| && forall i :: 0 <= i < |ts| ==> ts[i].done == us[i].done
    ensures Active(ts) == Active(us)
    decreases |ts|
  {
    if ts != [] {
      SameActive(ts[..|ts| - 1], us[..|us| - 1]);
    }
  }

  lemma {:induction false} EmitsDone(cfg: Config, q: Queue, active: seq<nat>, n: nat)
    requires active != [] && forall k :: 0 <= k < |active| ==> active[k] < |q.transfers|
    ensures var r := Emits(cfg, q, active, n);
      |r.transfers| == |q.transfers| && forall i :: 0 <= i < |r.transfers| ==> r.transfers[i].done == q.transfers[i].done
    decreases n
  {
    if n != 0 {
      EmitsDone(cfg, q, active, n - 1);
    }
  }

  ghost predicate OnlyTicks(events: seq<Event>) {
    forall i :: 0 <= i < |events| ==> events[i].Tick?
  }

  /** Over any ticks, spoken over or not, while the transfers stay the same. */
  lemma {:induction false} TicksRounds(cfg: Config, q: Queue, events: seq<Event>) returns (r: nat, j: nat)
    requires OnlyTicks(events) && Active(q.transfers) != []
    ensures var after, active := Run(cfg, q, events), Active(q.transfers);
      && Rounds(q.transfers, after, active, Turn(q.cursor, |active|), r, j)
      && Active(after.transfers) == active
    decreases |events|
  {
    hide Emits, Affordable, Active;
    var active := Active(q.transfers);
    if events == [] {
      r, j := 0, 0;
    } else {
      var init, e := events[..|events| - 1], events[|events| - 1];
      r, j := TicksRounds(cfg, q, init);
      var before := Clocked(cfg, Run(cfg, q, init), e.now);
      if !e.speaking {
        var n := Affordable(cfg, before.tokens);
        ActiveRising(q.transfers);
        r, j := EmitsRounds(cfg, q.transfers, before, active, Turn(q.cursor, |active|), r, j, n);
        EmitsDone(cfg, before, active, n);
        SameActive(Emits(cfg, before, active, n).transfers, before.transfers);
      }
    }
  }

  /** While the active set is unchanged no transfer gets two turns more than another. */
  lemma {:induction false} FairTurns(cfg: Config, q: Queue, events: seq<Event>, a: nat, b: nat)
    requires OnlyTicks(events) && a < |Active(q.transfers)| && b < |Active(q.transfers)|
    ensures var after, x, y := Run(cfg, q, events).transfers, Active(q.transfers)[a], Active(q.transfers)[b];
      && |after| == |q.transfers|
      && -1 <= (after[x].sent - q.transfers[x].sent) - (after[y].sent - q.transfers[y].sent) <= 1
  {
    hide Run, Active;
    var r, j := TicksRounds(cfg, q, events);
  }

  // ---- the object

  class MediaTransferQueue {
    const cfg: Config
    var queue: seq<Transfer>
    var nextId: nat
    var lastTick: Option<int>
    var tokens: real
    var cursor: nat
    var bytesEmitted: nat

    constructor (cfg: Config)
      ensures this.cfg == cfg && State() == Start()
    {
      this.cfg := cfg;
      queue, nextId, lastTick, tokens, cursor, bytesEmitted := [], 1, None, 0.0, 0, 0;
    }

    ghost function State(): Queue
      reads this
    {
      Queue(queue, nextId, lastTick, tokens, cursor, bytesEmitted)
    }

    method Enqueue() returns (id: nat)
      modifies this
      ensures State() == Enqueued(old(State())) && id == old(nextId)
    {
      id := nextId;
      queue := queue + [Transfer(id, false, 0)];
      nextId := nextId + 1;
    }

    method MarkComplete(id: nat)
      modifies this
      ensures State() == Completed(old(State()), id)
    {
      var ts, i := queue, 0;
      while i < |ts|
        invariant 0 <= i <= |ts| == |queue| && unchanged(this)
        invariant forall k :: 0 <= k < i ==> ts[k] == Marked(queue, id)[k]
        invariant forall k :: i <= k < |ts| ==> ts[k] == queue[k]
      {
        if ts[i].id == id {
          ts := ts[i := ts[i].(done := true)];
        }
        i := i + 1;
      }
      assert ts == Marked(queue, id);
      while ts != [] && ts[0].done
        invariant unchanged(this) && Trimmed(ts) == Trimmed(Marked(queue, id))
        decreases |ts|
      {
        ts := ts[1..];
      }
      queue := ts;
    }

    /** One datagram: its transfer's turn, its cost, the next turn. */
    method SendOne(active: seq<nat>) returns (id: nat)
      requires active != [] && forall k :: 0 <= k < |active| ==> active[k] < |queue|
      modifies this
      ensures State() == Emit(cfg, old(State()), active)
      ensures id == old(queue)[active[Turn(old(cursor), |active|)]].id
    {
      if |active| <= cursor {
        cursor := 0;
      }
      var i := active[cursor];
      var t := queue[i];
      id := t.id;
      queue := queue[i := t.(sent := t.sent + 1)];
      tokens := tokens - Size(cfg) as real;
      bytesEmitted := bytesEmitted + Size(cfg);
      cursor := cursor + 1;
    }

    method SendAll(active: seq<nat>) returns (out: seq<nat>)
      requires active != [] && forall k :: 0 <= k < |active| ==> active[k] < |queue|
      modifies this
      ensures State() == Emits(cfg, old(State()), active, Affordable(cfg, old(tokens)))
      ensures out == Tags(cfg, old(State()), active, Affordable(cfg, old(tokens)))
    {
      hide Emit, Emits, Tags, Affordable, Turn;
      out := [];
      ghost var q1, n := State(), 0;
      NothingSent(cfg, q1, active);
      AffordStep(cfg, tokens);
      while tokens >= Size(cfg) as real
        invariant 0 <= n && |queue| == |q1.transfers| && State() == Emits(cfg, q1, active, n)
        invariant out == Tags(cfg, q1, active, n)
        invariant n + Affordable(cfg, tokens) == Affordable(cfg, q1.tokens)
        decreases Affordable(cfg, tokens)
      {
        AffordStep(cfg, tokens);
        OneSent(cfg, q1, active, n);
        var id := SendOne(active);
        EmitCost(cfg, Emits(cfg, q1, active, n), active);
        out := out + [id];
        n := n + 1;
      }
      AffordStep(cfg, tokens);
    }

    /** The ids of the transfers whose datagrams go out now, in order. */
    method TickNow(now: int, speaking: bool) returns (out: seq<nat>)
      modifies this
      ensures State() == Ticked(cfg, old(State()), now, speaking)
      ensures out == if speaking || Active(old(queue)) == [] then []
        else Tags(cfg, Clocked(cfg, old(State()), now), Active(old(queue)),
                  Affordable(cfg, Clocked(cfg, old(State()), now).tokens))
      ensures speaking ==> out == [] && bytesEmitted == old(bytesEmitted)
    {
      hide Active, Emits, Tags, Affordable;
      tokens := Accrued(cfg, tokens, lastTick, now);
      lastTick := Some(now);
      out := [];
      if speaking || queue == [] {
        NoneActive();
        return;
      }
      var active := Active(queue);
      if active != [] {
        out := SendAll(active);
      }
    }
  }

  lemma NoneActive()
    ensures Active([]) == []
  {
  }

  lemma NothingSent(cfg: Config, q: Queue, active: seq<nat>)
    requires active != [] && forall k :: 0 <= k < |active| ==> active[k] < |q.transfers|
    ensures Emits(cfg, q, active, 0) == q && Tags(cfg, q, active, 0) == []
  {
  }

  lemma OneSent(cfg: Config, q: Queue, active: seq<nat>, n: nat)
    requires active != [] && forall k :: 0 <= k < |active| ==> active[k] < |q.transfers|
    ensures var before := Emits(cfg, q, active, n);
      && Emits(cfg, q, active, n + 1) == Emit(cfg, before, active)
      && Tags(cfg, q, active, n + 1) ==
           Tags(cfg, q, active, n) + [before.transfers[active[Turn(before.cursor, |active|)]].id]
  {
    hide Emit;
  }

  lemma EmitCost(cfg: Config, q: Queue, active: seq<nat>)
    requires active != [] && forall k :: 0 <= k < |active| ==> active[k] < |q.transfers|
    ensures Emit(cfg, q, active).tokens == q.tokens - Size(cfg) as real
    ensures |Emit(cfg, q, active).transfers| == |q.transfers|
  {
  }

  lemma AffordStep(cfg: Config, tokens: real)
    ensures Affordable(cfg, tokens) ==
      if tokens < Size(cfg) as real then 0 else 1 + Affordable(cfg, tokens - Size(cfg) as real)
  {
  }
}
