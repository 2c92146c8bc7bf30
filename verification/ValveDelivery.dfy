/** Delivery of one payload's fragments in any order, with duplicates, among
    the client's polls and the traffic of other sessions. */
module ValveDelivery {
  import opened Wrappers
  import opened Base32
  import opened QueryNames
  import opened Fragments
  import opened ValveServer

  /** A poll carries the empty payload's only fragment. */
  predicate IsPoll(q: Query) {
    q.seqNo == 0 && q.chunk == [0, 0]
  }

  predicate Own(e: Event, s: string) {
    e.Receive? && e.q.session == s
  }

  /** What a session should have: the numbers seen since it last completed or
      expired, whether a poll put number 0 there, when the last query came, and
      what it completed. */
  datatype Progress = Progress(seen: set<int>, polled: bool, last: nat, done: seq<seq<byte>>)

  ghost predicate Full(seen: set<int>, n: nat) {
    forall k :: 0 <= k < n ==> k in seen
  }

  /** No number below a seen one is missing. */
  ghost predicate Gapless(seen: set<int>) {
    forall k, i :: k in seen && 0 <= i <= k ==> i in seen
  }

  ghost function StillSeen(ttl: int, p: Progress, now: nat): set<int> {
    if ttl < now - p.last then {} else p.seen
  }

  ghost function StillPolled(ttl: int, p: Progress, now: nat): bool {
    p.polled && now - p.last <= ttl
  }

  /** Whether number 0 is a poll's once the query is in. */
  ghost function NowPolled(ttl: int, p: Progress, e: Event): bool
    requires e.Receive?
  {
    if e.q.seqNo == 0 then IsPoll(e.q) else StillPolled(ttl, p, e.now)
  }

  ghost function Next(ttl: int, s: string, payload: seq<byte>, n: nat, p: Progress, e: Event): Progress {
    if !Own(e, s) then p
    else
      var seen := StillSeen(ttl, p, e.now) + {e.q.seqNo};
      if NowPolled(ttl, p, e) then
        if Gapless(seen) then Progress({}, false, e.now, p.done + [[]]) else Progress(seen, true, e.now, p.done)
      else
        if Full(seen, n) then Progress({}, false, e.now, p.done + [payload]) else Progress(seen, false, e.now, p.done)
  }

  /** The simple form: a set of numbers that empties when it expires, fills, or,
      holding a poll, has no gap. */
  ghost function Expected(ttl: int, s: string, payload: seq<byte>, n: nat, events: seq<Event>): Progress {
    if events == [] then Progress({}, false, 0, [])
    else Next(ttl, s, payload, n, Expected(ttl, s, payload, n, events[..|events| - 1]), events[|events| - 1])
  }

  // ---- the clock

  function Clock(events: seq<Event>): nat {
    if events == [] then 0
    else
      match events[|events| - 1]
      case Receive(_, now) => now
      case Live(now) => now
      case _ => Clock(events[..|events| - 1])
  }

  /** The clock never goes back. */
  ghost predicate Clocked(events: seq<Event>) {
    forall k :: 0 <= k < |events| ==> Clock(events[..k]) <= Clock(events[..k + 1])
  }

  /** A session's queries are polls or carry fragments of one payload. */
  ghost predicate Honest(events: seq<Event>, s: string, c: seq<seq<byte>>) {
    forall k :: 0 <= k < |events| ==> Genuine(events[k], s, c)
  }

  predicate Carries(q: Query, c: seq<seq<byte>>, k: int) {
    q.seqNo == k && 0 <= k < |c| && q.chunk == c[k]
  }

  ghost predicate Genuine(e: Event, s: string, c: seq<seq<byte>>) {
    Own(e, s) ==> IsPoll(e.q) || Carries(e.q, c, e.q.seqNo)
  }

  // ---- the server keeps to the simple form

  ghost predicate Holds(m: Chunks, seen: set<int>) {
    forall k: nat :: k in m <==> k in seen
  }

  /** Fragments of the payload, but for a poll's number 0. */
  ghost predicate HoldsOnly(m: Chunks, c: seq<seq<byte>>, seen: set<int>, polled: bool) {
    && Holds(m, seen) && (forall k :: k in seen ==> 0 <= k)
    && (polled ==> 0 in m && m[0] == [0, 0])
    && forall k :: k in m && !(polled && k == 0) ==> k < |c| && m[k] == c[k]
  }

  ghost predicate Vacant(p: Progress) {
    (forall k :: k !in p.seen) && !p.polled
  }

  ghost predicate Kept(sessions: map<string, Buf>, s: string, c: seq<seq<byte>>, p: Progress, ttl: int, clock: nat) {
    && p.last <= clock
    && if s in sessions then
         sessions[s].lastSeen == p.last && HoldsOnly(sessions[s].chunks, c, p.seen, p.polled)
       else Vacant(p) || ttl < clock - p.last
  }

  lemma CollectedKept(sessions: map<string, Buf>, s: string, c: seq<seq<byte>>, p: Progress, ttl: int,
                      clock: nat, now: nat)
    requires Kept(sessions, s, c, p, ttl, clock) && clock <= now
    ensures Kept(Collected(sessions, now, ttl), s, c, p, ttl, now)
  {
    hide HoldsOnly, Vacant;
  }

  /** What a session's buffer holds once the query is in. */
  lemma ReceivedHolds(sessions: map<string, Buf>, s: string, c: seq<seq<byte>>, p: Progress, ttl: int,
                      clock: nat, q: Query, now: nat)
    requires Kept(sessions, s, c, p, ttl, clock) && clock <= now && q.session == s
    requires IsPoll(q) || Carries(q, c, q.seqNo)
    ensures HoldsOnly(Received(Collected(sessions, now, ttl), q), c, StillSeen(ttl, p, now) + {q.seqNo},
                      NowPolled(ttl, p, Receive(q, now)))
  {
  }

  ghost predicate On(t: Trace, s: string, c: seq<seq<byte>>, p: Progress, ttl: int, clock: nat) {
    Kept(t.st.sessions, s, c, p, ttl, clock) && t.completed == p.done
  }

  lemma FullContiguous(m: Chunks, seen: set<int>, n: nat)
    requires Holds(m, seen)
    ensures Contiguous(m, n) <==> Full(seen, n)
  {
  }

  /** What a buffer assembles to, by the numbers it holds. */
  lemma HeldAssembles(m: Chunks, c: seq<seq<byte>>, payload: seq<byte>, seen: set<int>, polled: bool)
    requires Cut(c, payload) && HoldsOnly(m, c, seen, polled)
    ensures polled ==> TryAssemble(m) == if Gapless(seen) then Ok([]) else WireError
    ensures !polled && Full(seen, |c|) ==> TryAssemble(m) == Ok(payload)
    ensures !polled && !Full(seen, |c|) ==> !TryAssemble(m).Ok?
  {
    hide TryAssemble, Frame, SplitChunks;
    if polled {
      PollAssembles(m);
      assert Gapless(seen) <==> NoGap(m);
    } else {
      assert From(m, c);
      AssemblesExactly(m, c, payload);
      FullContiguous(m, seen, |c|);
    }
  }

  lemma ReceiveOwn(cfg: Config, s: string, c: seq<seq<byte>>, payload: seq<byte>, t: Trace, p: Progress,
                   clock: nat, q: Query, now: nat)
    requires Cut(c, payload) && On(t, s, c, p, cfg.ttl, clock) && clock <= now
    requires q.session == s && (IsPoll(q) || Carries(q, c, q.seqNo))
    ensures On(Taken(cfg, s, t, q, now), s, c, Next(cfg.ttl, s, payload, |c|, p, Receive(q, now)), cfg.ttl, now)
  {
    hide Cut, HoldsOnly, Full, Gapless, TryAssemble, Collected, Received, Fits, Leftover, StillSeen, NowPolled, IsPoll, Carries;
    var live := Collected(t.st.sessions, now, cfg.ttl);
    var m, seen := Received(live, q), StillSeen(cfg.ttl, p, now) + {q.seqNo};
    ReceivedHolds(t.st.sessions, s, c, p, cfg.ttl, clock, q, now);
    HeldAssembles(m, c, payload, seen, NowPolled(cfg.ttl, p, Receive(q, now)));
    var r := Stored(cfg, t.st, q, now);
    match TryAssemble(m)
    case Ok(x) => assert r.complete[|t.st.complete|..] == [(s, x)];
    case _ => assert r.complete[|t.st.complete|..] == [];
  }

  lemma ReceiveOther(cfg: Config, s: string, c: seq<seq<byte>>, t: Trace, p: Progress, clock: nat, q: Query, now: nat)
    requires On(t, s, c, p, cfg.ttl, clock) && clock <= now && q.session != s
    ensures On(Taken(cfg, s, t, q, now), s, c, p, cfg.ttl, now)
  {
    hide HoldsOnly, Vacant, TryAssemble, Collected, Fits, Leftover, Received;
    CollectedKept(t.st.sessions, s, c, p, cfg.ttl, clock, now);
  }

  lemma StepOn(cfg: Config, s: string, c: seq<seq<byte>>, payload: seq<byte>, t: Trace, p: Progress,
               clock: nat, e: Event, after: nat)
    requires Cut(c, payload) && On(t, s, c, p, cfg.ttl, clock) && Genuine(e, s, c) && clock <= after
    requires match e
      case Receive(_, now) => after == now
      case Live(now) => after == now
      case _ => after == clock
    ensures On(Step(cfg, s, t, e), s, c, Next(cfg.ttl, s, payload, |c|, p, e), cfg.ttl, after)
  {
    hide Cut, HoldsOnly, Full, Gapless, Taken, Collected, StillSeen, NowPolled, Vacant, IsPoll, Carries;
    match e
    case Receive(q, now) =>
      if q.session == s {
        ReceiveOwn(cfg, s, c, payload, Settled(t), p, clock, q, now);
      } else {
        ReceiveOther(cfg, s, c, Settled(t), p, clock, q, now);
      }
    case Live(now) =>
      CollectedKept(t.st.sessions, s, c, p, cfg.ttl, clock, now);
    case _ =>
  }

  /** On every run the session completes exactly what the simple form says, in
      that order: the payload, or nothing but a poll's empty one. */
  lemma {:induction false} CompletesExactly(cfg: Config, s: string, c: seq<seq<byte>>, payload: seq<byte>,
                                            events: seq<Event>)
    requires Cut(c, payload) && Honest(events, s, c) && Clocked(events)
    ensures Ran(cfg, s, events).completed == Expected(cfg.ttl, s, payload, |c|, events).done
    ensures On(Ran(cfg, s, events), s, c, Expected(cfg.ttl, s, payload, |c|, events), cfg.ttl, Clock(events))
    decreases |events|
  {
    hide Cut, HoldsOnly, Genuine, Step, Next;
    if events != [] {
      var init, e := events[..|events| - 1], events[|events| - 1];
      ClockedPrefix(events);
      assert Genuine(e, s, c);
      CompletesExactly(cfg, s, c, payload, init);
      StepOn(cfg, s, c, payload, Ran(cfg, s, init), Expected(cfg.ttl, s, payload, |c|, init), Clock(init), e, Clock(events));
    }
  }

  lemma ClockedPrefix(events: seq<Event>)
    requires Clocked(events) && events != []
    ensures var init := events[..|events| - 1]; Clocked(init) && Clock(init) <= Clock(events)
  {
    var init := events[..|events| - 1];
    assert events[..|events|] == events;
    assert Clock(events[..|events| - 1]) <= Clock(events[..|events| - 1 + 1]);
    forall k | 0 <= k < |init| ensures Clock(init[..k]) <= Clock(init[..k + 1]) {
      assert init[..k] == events[..k] && init[..k + 1] == events[..k + 1];
    }
  }

  // ---- what the simple form says

  ghost predicate Arrived(events: seq<Event>, s: string, c: seq<seq<byte>>, k: int) {
    exists i :: 0 <= i < |events| && Own(events[i], s) && Carries(events[i].q, c, k)
  }

  lemma ArrivedMore(events: seq<Event>, s: string, c: seq<seq<byte>>, k: int)
    requires events != []
    ensures var e := events[|events| - 1];
      Arrived(events, s, c, k) <==> Arrived(events[..|events| - 1], s, c, k) || (Own(e, s) && Carries(e.q, c, k))
  {
    var init := events[..|events| - 1];
    if i :| 0 <= i < |events| && Own(events[i], s) && Carries(events[i].q, c, k) {
      if i < |init| {
        assert Own(init[i], s) && Carries(init[i].q, c, k);
      }
    }
    if i :| 0 <= i < |init| && Own(init[i], s) && Carries(init[i].q, c, k) {
      assert Own(events[i], s) && Carries(events[i].q, c, k);
    }
  }

  /** Only the empty payload's first fragment is a poll's. */
  lemma PollChunk(c: seq<seq<byte>>, payload: seq<byte>)
    requires Cut(c, payload)
    ensures 1 <= |c| && (c[0] == [0, 0] <==> payload == []) && (payload == [] ==> |c| == 1)
  {
    CutShape(c, payload);
    PiecesOf(Frame(payload).value);
  }

  /** A number that is seen came with its fragment, unless a poll put it there. */
  ghost predicate Real(p: Progress, c: seq<seq<byte>>, k: int)
    requires 1 <= |c|
  {
    k in p.seen && !(k == 0 && p.polled && c[0] != [0, 0])
  }

  function Times(done: seq<seq<byte>>, x: seq<byte>): nat {
    if done == [] then 0 else Times(done[..|done| - 1], x) + if done[|done| - 1] == x then 1 else 0
  }

  lemma TimesMore(done: seq<seq<byte>>, y: seq<byte>, x: seq<byte>)
    ensures Times(done + [y], x) == Times(done, x) + if y == x then 1 else 0
  {
    assert (done + [y])[..|done|] == done;
  }

  lemma {:induction false} TimesIn(done: seq<seq<byte>>, x: seq<byte>)
    ensures 1 <= Times(done, x) <==> x in done
    decreases |done|
  {
    if done != [] {
      TimesIn(done[..|done| - 1], x);
      assert done == done[..|done| - 1] + [done[|done| - 1]];
    }
  }

  /** How often a fragment arrived. */
  function Deliveries(events: seq<Event>, s: string, c: seq<seq<byte>>, k: int): nat {
    if events == [] then 0
    else
      var e := events[|events| - 1];
      Deliveries(events[..|events| - 1], s, c, k) + if Own(e, s) && Carries(e.q, c, k) then 1 else 0
  }

  lemma {:induction false} DeliveredArrived(events: seq<Event>, s: string, c: seq<seq<byte>>, k: int)
    ensures 1 <= Deliveries(events, s, c, k) <==> Arrived(events, s, c, k)
    decreases |events|
  {
    hide Carries, Arrived;
    if events == [] {
      NothingArrived(s, c, k);
    } else {
      DeliveredArrived(events[..|events| - 1], s, c, k);
      ArrivedMore(events, s, c, k);
    }
  }

  lemma NothingArrived(s: string, c: seq<seq<byte>>, k: int)
    ensures !Arrived([], s, c, k)
  {
  }

  /** One step: a completed payload, or a fragment now held, is paid for. */
  lemma StepSpent(ttl: int, s: string, c: seq<seq<byte>>, payload: seq<byte>, p: Progress, e: Event, k: int)
    requires Cut(c, payload) && Genuine(e, s, c) && 0 <= k < |c|
    ensures var r := Next(ttl, s, payload, |c|, p, e);
      Times(r.done, payload) + (if Real(r, c, k) then 1 else 0) <=
        Times(p.done, payload) + (if Real(p, c, k) then 1 else 0) + if Own(e, s) && Carries(e.q, c, k) then 1 else 0
  {
    hide Cut, Times, Full, Gapless;
    PollChunk(c, payload);
    if Own(e, s) {
      var seen := StillSeen(ttl, p, e.now) + {e.q.seqNo};
      TimesMore(p.done, payload, payload);
      TimesMore(p.done, [], payload);
      if NowPolled(ttl, p, e) {
        if payload == [] {
          assert Carries(e.q, c, k);
        }
      } else if Full(seen, |c|) {
        InFull(seen, |c|, k);
      }
    }
  }

  lemma InFull(seen: set<int>, n: nat, k: int)
    requires Full(seen, n) && 0 <= k < n
    ensures k in seen
  {
  }

  /** Each completion of the payload, and each fragment held, took a delivery. */
  lemma {:induction false} DeliveriesSpent(ttl: int, s: string, c: seq<seq<byte>>, payload: seq<byte>,
                                           events: seq<Event>, k: int)
    requires Cut(c, payload) && Honest(events, s, c) && 0 <= k < |c|
    ensures var p := Expected(ttl, s, payload, |c|, events);
      Times(p.done, payload) + (if Real(p, c, k) then 1 else 0) <= Deliveries(events, s, c, k)
    decreases |events|
  {
    hide Cut, Next, Real, Carries, Genuine;
    if events != [] {
      var init, e := events[..|events| - 1], events[|events| - 1];
      assert Genuine(e, s, c);
      DeliveriesSpent(ttl, s, c, payload, init, k);
      StepSpent(ttl, s, c, payload, Expected(ttl, s, payload, |c|, init), e, k);
    } else {
      NothingReal(c, k);
    }
  }

  lemma NothingReal(c: seq<seq<byte>>, k: int)
    requires 1 <= |c|
    ensures !Real(Progress({}, false, 0, []), c, k)
  {
  }

  /** Each completion of the payload uses up a delivery of every fragment: a
      fragment that arrives once completes it at most once. */
  lemma {:induction false} OncePerRound(cfg: Config, s: string, c: seq<seq<byte>>, payload: seq<byte>, events: seq<Event>)
    requires Cut(c, payload) && Honest(events, s, c) && Clocked(events)
    ensures forall k :: 0 <= k < |c| ==> Times(Ran(cfg, s, events).completed, payload) <= Deliveries(events, s, c, k)
  {
    hide Ran, Cut, Honest, Clocked, Deliveries, Expected, Real;
    CompletesExactly(cfg, s, c, payload, events);
    forall k | 0 <= k < |c|
      ensures Times(Expected(cfg.ttl, s, payload, |c|, events).done, payload) <= Deliveries(events, s, c, k)
    {
      DeliveriesSpent(cfg.ttl, s, c, payload, events, k);
    }
  }

  /** The server never completes the payload while a fragment is missing. */
  lemma {:induction false} NeverOnProperSubset(cfg: Config, s: string, c: seq<seq<byte>>, payload: seq<byte>,
                            events: seq<Event>, missing: int)
    requires Cut(c, payload) && Honest(events, s, c) && Clocked(events)
    requires 0 <= missing < |c| && !Arrived(events, s, c, missing)
    ensures payload !in Ran(cfg, s, events).completed
  {
    hide Ran, Cut, Honest, Clocked, Deliveries, Arrived, Times;
    OncePerRound(cfg, s, c, payload, events);
    DeliveredArrived(events, s, c, missing);
    TimesIn(Ran(cfg, s, events).completed, payload);
  }

  /** How often the session polled. */
  function Polls(events: seq<Event>, s: string): nat {
    if events == [] then 0
    else
      var e := events[|events| - 1];
      Polls(events[..|events| - 1], s) + if Own(e, s) && IsPoll(e.q) then 1 else 0
  }

  lemma StepPolled(ttl: int, s: string, payload: seq<byte>, n: nat, p: Progress, e: Event)
    ensures var r := Next(ttl, s, payload, n, p, e);
      |r.done| - Times(r.done, payload) - (if payload == [] then 0 else Times(r.done, []))
        == |p.done| - Times(p.done, payload) - (if payload == [] then 0 else Times(p.done, []))
    ensures var r := Next(ttl, s, payload, n, p, e);
      payload != [] ==>
        Times(r.done, []) + (if r.polled then 1 else 0)
        <= Times(p.done, []) + (if p.polled then 1 else 0) + (if Own(e, s) && IsPoll(e.q) then 1 else 0)
  {
    hide Times, Full, Gapless;
    TimesMore(p.done, [], []);
    TimesMore(p.done, [], payload);
    TimesMore(p.done, payload, []);
    TimesMore(p.done, payload, payload);
  }

  lemma {:induction false} PollsSpent(ttl: int, s: string, c: seq<seq<byte>>, payload: seq<byte>, events: seq<Event>)
    ensures var p := Expected(ttl, s, payload, |c|, events);
      && |p.done| == Times(p.done, payload) + (if payload == [] then 0 else Times(p.done, []))
      && (payload != [] ==> Times(p.done, []) + (if p.polled then 1 else 0) <= Polls(events, s))
    decreases |events|
  {
    hide Next, IsPoll;
    if events != [] {
      var init := events[..|events| - 1];
      PollsSpent(ttl, s, c, payload, init);
      StepPolled(ttl, s, payload, |c|, Expected(ttl, s, payload, |c|, init), events[|events| - 1]);
    }
  }

  /** Whatever else completes is empty, and a poll paid for it. */
  lemma {:induction false} EmptiesPolled(cfg: Config, s: string, c: seq<seq<byte>>, payload: seq<byte>, events: seq<Event>)
    requires Cut(c, payload) && Honest(events, s, c) && Clocked(events)
    ensures var done := Ran(cfg, s, events).completed;
      && |done| == Times(done, payload) + (if payload == [] then 0 else Times(done, []))
      && (payload != [] ==> Times(done, []) <= Polls(events, s))
  {
    hide Ran, Cut, Honest, Clocked, Polls, Expected, Times;
    CompletesExactly(cfg, s, c, payload, events);
    PollsSpent(cfg.ttl, s, c, payload, events);
  }

  ghost predicate Heard(events: seq<Event>, s: string) {
    exists i :: 0 <= i < |events| && Own(events[i], s)
  }

  function LastHeard(events: seq<Event>, s: string): nat {
    if events == [] then 0
    else
      var e := events[|events| - 1];
      if Own(e, s) then e.now else LastHeard(events[..|events| - 1], s)
  }

  /** Between one query of the session and the next lies at most the TTL. */
  ghost predicate Timely(ttl: int, s: string, events: seq<Event>) {
    forall k :: 0 <= k < |events| && Own(events[k], s) && Heard(events[..k], s) ==>
      events[k].now - LastHeard(events[..k], s) <= ttl
  }

  lemma TimelyPrefix(ttl: int, s: string, events: seq<Event>)
    requires Timely(ttl, s, events) && events != []
    ensures Timely(ttl, s, events[..|events| - 1])
  {
    var init := events[..|events| - 1];
    forall k | 0 <= k < |init| ensures init[..k] == events[..k] {
    }
  }

  /** The session polls only while the server holds nothing of it. */
  ghost predicate PollsIdle(cfg: Config, s: string, events: seq<Event>) {
    forall k :: 0 <= k < |events| && Own(events[k], s) && IsPoll(events[k].q) ==>
      s !in Collected(Ran(cfg, s, events[..k]).st.sessions, events[k].now, cfg.ttl)
  }

  lemma PollsIdlePrefix(cfg: Config, s: string, events: seq<Event>)
    requires PollsIdle(cfg, s, events) && events != []
    ensures PollsIdle(cfg, s, events[..|events| - 1])
  {
    hide Ran;
    var init := events[..|events| - 1];
    forall k | 0 <= k < |init| ensures init[..k] == events[..k] && init[k] == events[k] {
    }
  }

  /** Such a poll finds no number seen. */
  lemma IdleSeen(cfg: Config, s: string, c: seq<seq<byte>>, payload: seq<byte>, events: seq<Event>)
    requires Cut(c, payload) && Honest(events, s, c) && Clocked(events) && PollsIdle(cfg, s, events) && events != []
    requires var e := events[|events| - 1]; Own(e, s) && IsPoll(e.q)
    ensures var init, e := events[..|events| - 1], events[|events| - 1];
      forall k :: k !in StillSeen(cfg.ttl, Expected(cfg.ttl, s, payload, |c|, init), e.now)
  {
    hide Cut, Genuine, Ran, Expected, HoldsOnly;
    var init := events[..|events| - 1];
    ClockedPrefix(events);
    CompletesExactly(cfg, s, c, payload, init);
    assert Own(events[|init|], s);
  }

  /** Until the payload completes everything that arrived in time is kept. */
  ghost predicate Gathering(p: Progress, s: string, c: seq<seq<byte>>, events: seq<Event>) {
    && !Full(p.seen, |c|) && !p.polled && (forall k :: Arrived(events, s, c, k) ==> k in p.seen)
    && (Heard(events, s) ==> p.last == LastHeard(events, s)) && (!Heard(events, s) ==> Vacant(p))
  }

  lemma GatherOther(p: Progress, s: string, c: seq<seq<byte>>, events: seq<Event>)
    requires events != [] && !Own(events[|events| - 1], s) && Gathering(p, s, c, events[..|events| - 1])
    ensures Gathering(p, s, c, events)
  {
    hide Carries, Full, Vacant;
    SameHeard(events, s);
    forall k | Arrived(events, s, c, k) ensures k in p.seen {
      ArrivedMore(events, s, c, k);
    }
  }

  lemma LastIn(done: seq<seq<byte>>, x: seq<byte>)
    ensures x in done + [x]
  {
    assert (done + [x])[|done|] == x;
  }

  /** A fragment that does not complete the payload is one more number seen. */
  lemma FragmentNext(ttl: int, s: string, payload: seq<byte>, n: nat, p: Progress, e: Event)
    requires Own(e, s) && !IsPoll(e.q) && !p.polled && payload !in Next(ttl, s, payload, n, p, e).done
    ensures var seen := StillSeen(ttl, p, e.now) + {e.q.seqNo};
      Next(ttl, s, payload, n, p, e) == Progress(seen, false, e.now, p.done) && !Full(seen, n)
  {
    hide Full, Gapless, IsPoll;
    LastIn(p.done, payload);
  }

  /** A poll that finds nothing completes at once. */
  lemma PollNext(ttl: int, s: string, payload: seq<byte>, n: nat, p: Progress, e: Event)
    requires Own(e, s) && IsPoll(e.q) && forall k :: k !in StillSeen(ttl, p, e.now)
    ensures Next(ttl, s, payload, n, p, e) == Progress({}, false, e.now, p.done + [[]])
  {
    hide Full, StillSeen;
    assert Gapless(StillSeen(ttl, p, e.now) + {0});
  }

  lemma GatherOwn(ttl: int, s: string, c: seq<seq<byte>>, payload: seq<byte>, p: Progress, events: seq<Event>)
    requires events != [] && Own(events[|events| - 1], s) && Gathering(p, s, c, events[..|events| - 1])
    requires Cut(c, payload) && Genuine(events[|events| - 1], s, c)
    requires var e, init := events[|events| - 1], events[..|events| - 1];
      && (Heard(init, s) ==> e.now - LastHeard(init, s) <= ttl)
      && (IsPoll(e.q) ==> forall k :: k !in StillSeen(ttl, p, e.now))
      && payload !in Next(ttl, s, payload, |c|, p, e).done
    ensures Gathering(Next(ttl, s, payload, |c|, p, events[|events| - 1]), s, c, events)
  {
    hide Cut, Full, Gapless, NowPolled, Next, Arrived, IsPoll;
    var e, init := events[|events| - 1], events[..|events| - 1];
    var next := Next(ttl, s, payload, |c|, p, e);
    PollChunk(c, payload);
    HeardNow(events, s);
    if IsPoll(e.q) {
      PollNext(ttl, s, payload, |c|, p, e);
      LastIn(p.done, []);
      NoneFull(|c|);
    } else {
      FragmentNext(ttl, s, payload, |c|, p, e);
    }
    forall k | Arrived(events, s, c, k) ensures k in next.seen {
      ArrivedMore(events, s, c, k);
      if Arrived(init, s, c, k) {
        ArrivedHeard(init, s, c, k);
        assert k in StillSeen(ttl, p, e.now);
      } else if IsPoll(e.q) {
        PolledChunk(e.q, c, k);
      }
    }
  }

  lemma HeardNow(events: seq<Event>, s: string)
    requires events != [] && Own(events[|events| - 1], s)
    ensures Heard(events, s) && LastHeard(events, s) == events[|events| - 1].now
  {
  }

  lemma NoneFull(n: nat)
    requires 1 <= n
    ensures !Full({}, n)
  {
    var none: set<int> := {};
    assert 0 !in none;
  }

  lemma PolledChunk(q: Query, c: seq<seq<byte>>, k: int)
    requires IsPoll(q) && Carries(q, c, k)
    ensures c[0] == [0, 0]
  {
  }

  lemma ArrivedHeard(events: seq<Event>, s: string, c: seq<seq<byte>>, k: int)
    requires Arrived(events, s, c, k)
    ensures Heard(events, s)
  {
  }

  lemma {:induction false} FirstRound(cfg: Config, s: string, c: seq<seq<byte>>, payload: seq<byte>, events: seq<Event>)
    requires Cut(c, payload) && Honest(events, s, c) && Clocked(events)
    requires Timely(cfg.ttl, s, events) && PollsIdle(cfg, s, events)
    ensures var p := Expected(cfg.ttl, s, payload, |c|, events);
      payload in p.done || Gathering(p, s, c, events)
    decreases |events|
  {
    hide Cut, Genuine, Gathering, Next, Ran, Heard, LastHeard;
    if events == [] {
      StartGathering(s, c, payload);
    } else {
      var init, e := events[..|events| - 1], events[|events| - 1];
      TimelyPrefix(cfg.ttl, s, events);
      PollsIdlePrefix(cfg, s, events);
      ClockedPrefix(events);
      FirstRound(cfg, s, c, payload, init);
      var p := Expected(cfg.ttl, s, payload, |c|, init);
      assert Genuine(e, s, c);
      if payload in p.done {
        DoneStays(cfg.ttl, s, payload, |c|, p, e);
      } else if !Own(e, s) {
        NextOther(cfg.ttl, s, payload, |c|, p, e);
        GatherOther(p, s, c, events);
      } else if payload !in Next(cfg.ttl, s, payload, |c|, p, e).done {
        if IsPoll(e.q) {
          IdleSeen(cfg, s, c, payload, events);
        }
        GatherOwn(cfg.ttl, s, c, payload, p, events);
      }
    }
  }

  lemma StartGathering(s: string, c: seq<seq<byte>>, payload: seq<byte>)
    requires Cut(c, payload)
    ensures Gathering(Progress({}, false, 0, []), s, c, [])
  {
    PollChunk(c, payload);
    var none: set<int> := {};
    assert 0 !in none;
  }

  lemma DoneStays(ttl: int, s: string, payload: seq<byte>, n: nat, p: Progress, e: Event)
    requires payload in p.done
    ensures payload in Next(ttl, s, payload, n, p, e).done
  {
  }

  lemma NextOther(ttl: int, s: string, payload: seq<byte>, n: nat, p: Progress, e: Event)
    requires !Own(e, s)
    ensures Next(ttl, s, payload, n, p, e) == p
  {
  }

  lemma SameHeard(events: seq<Event>, s: string)
    requires events != [] && !Own(events[|events| - 1], s)
    ensures Heard(events, s) <==> Heard(events[..|events| - 1], s)
  {
    var init := events[..|events| - 1];
    if i :| 0 <= i < |events| && Own(events[i], s) {
      assert Own(init[i], s);
    }
    if i :| 0 <= i < |init| && Own(init[i], s) {
      assert Own(events[i], s);
    }
  }

  /** Fragments that all arrive in time, in whatever order and however often,
      complete to the payload, if polls come only between uploads. */
  lemma {:induction false} AllFragmentsComplete(cfg: Config, s: string, c: seq<seq<byte>>, payload: seq<byte>, events: seq<Event>)
    requires Cut(c, payload) && Honest(events, s, c) && Clocked(events)
    requires Timely(cfg.ttl, s, events) && PollsIdle(cfg, s, events)
    requires forall k :: 0 <= k < |c| ==> Arrived(events, s, c, k)
    ensures payload in Ran(cfg, s, events).completed
  {
    hide Ran, Cut, Honest, Timely, Clocked, Arrived, PollsIdle;
    CompletesExactly(cfg, s, c, payload, events);
    FirstRound(cfg, s, c, payload, events);
  }

  lemma {:induction false} IdlePolls(cfg: Config, s: string, c: seq<seq<byte>>, payload: seq<byte>, events: seq<Event>)
    requires Cut(c, payload) && Honest(events, s, c) && Clocked(events) && PollsIdle(cfg, s, events) && payload != []
    ensures var p := Expected(cfg.ttl, s, payload, |c|, events);
      !p.polled && Times(p.done, []) == Polls(events, s)
    decreases |events|
  {
    hide Cut, Genuine, Next, Ran, IsPoll, PollsIdle, Times;
    if events == [] {
      NoTimes();
    } else {
      var init, e := events[..|events| - 1], events[|events| - 1];
      PollsIdlePrefix(cfg, s, events);
      ClockedPrefix(events);
      IdlePolls(cfg, s, c, payload, init);
      if Own(e, s) && IsPoll(e.q) {
        IdleSeen(cfg, s, c, payload, events);
      }
      IdleStep(cfg.ttl, s, payload, |c|, Expected(cfg.ttl, s, payload, |c|, init), e);
    }
  }

  lemma NoTimes()
    ensures Times([], []) == 0
  {
  }

  lemma IdleStep(ttl: int, s: string, payload: seq<byte>, n: nat, p: Progress, e: Event)
    requires !p.polled && payload != []
    requires Own(e, s) && IsPoll(e.q) ==> forall k :: k !in StillSeen(ttl, p, e.now)
    ensures var r := Next(ttl, s, payload, n, p, e);
      !r.polled && Times(r.done, []) == Times(p.done, []) + if Own(e, s) && IsPoll(e.q) then 1 else 0
  {
    hide Times, Full;
    TimesMore(p.done, [], []);
    TimesMore(p.done, payload, []);
  }

  /** A poll while nothing is held completes its own empty payload, once. */
  lemma {:induction false} IdlePollsComplete(cfg: Config, s: string, c: seq<seq<byte>>, payload: seq<byte>, events: seq<Event>)
    requires Cut(c, payload) && Honest(events, s, c) && Clocked(events) && PollsIdle(cfg, s, events) && payload != []
    ensures var done := Ran(cfg, s, events).completed;
      Times(done, []) == Polls(events, s) && |done| == Times(done, payload) + Polls(events, s)
  {
    hide Ran, Cut, Honest, Clocked, PollsIdle, Polls, Expected, Times;
    CompletesExactly(cfg, s, c, payload, events);
    IdlePolls(cfg, s, c, payload, events);
    EmptiesPolled(cfg, s, c, payload, events);
  }

  // ---- what polls and copies can do

  /** A poll over fragments already held completes the empty payload, and drops
      them all, if and only if their numbers, with 0, have no gap; otherwise its
      bytes stay in the place of fragment 0. */
  lemma {:induction false} PollStored(cfg: Config, st: Server, c: seq<seq<byte>>, payload: seq<byte>, q: Query, now: nat)
    requires IsPoll(q) && Cut(c, payload) && payload != []
    requires var live := Collected(st.sessions, now, cfg.ttl); q.session in live ==> From(live[q.session].chunks, c)
    ensures var m, r := Received(Collected(st.sessions, now, cfg.ttl), q), Stored(cfg, st, q, now);
      && (NoGap(m) <==> r.complete == st.complete + [(q.session, [])])
      && (NoGap(m) ==> q.session !in r.sessions)
      && (!NoGap(m) ==> r.complete == st.complete && q.session in r.sessions && r.sessions[q.session].chunks == m)
      && m[0] == [0, 0] != c[0]
  {
    hide Collected, TryAssemble, NoGap;
    PollChunk(c, payload);
    var m := Received(Collected(st.sessions, now, cfg.ttl), q);
    PollAssembles(m);
    assert |st.complete + [(q.session, [])]| != |st.complete|;
  }

  lemma ExpectedMore(ttl: int, s: string, payload: seq<byte>, n: nat, events: seq<Event>, e: Event)
    ensures Expected(ttl, s, payload, n, events + [e]) == Next(ttl, s, payload, n, Expected(ttl, s, payload, n, events), e)
  {
    assert (events + [e])[..|events|] == events;
  }

  /** A second copy of a payload that fits one fragment completes it again. */
  lemma {:induction false} SecondCopy(cfg: Config, q: Query, payload: seq<byte>)
    requires Cut([q.chunk], payload) && q.seqNo == 0 && 0 <= cfg.ttl
    ensures Ran(cfg, q.session, [Receive(q, 0), Receive(q, 0)]).completed == [payload, payload]
  {
    hide Cut, Ran;
    var s, c, e := q.session, [q.chunk], Receive(q, 0);
    PollChunk(c, payload);
    AllAtOnce([e, e]);
    CompletesExactly(cfg, s, c, payload, [e, e]);
    ExpectedMore(cfg.ttl, s, payload, 1, [], e);
    ExpectedMore(cfg.ttl, s, payload, 1, [e], e);
    assert [] + [e] == [e] && [e] + [e] == [e, e];
    assert Next(cfg.ttl, s, payload, 1, Progress({}, false, 0, []), e) == Progress({}, false, 0, [payload]);
  }

  lemma AllAtOnce(events: seq<Event>)
    requires forall k :: 0 <= k < |events| ==> events[k].Receive? && events[k].now == 0
    ensures Clocked(events)
  {
    forall k | 0 <= k <= |events| ensures Clock(events[..k]) == 0 {
    }
  }

  /** A poll after two of three fragments completes the empty payload and drops
      them: the third completes nothing, although all three arrived. */
  lemma {:induction false} PollDropsUpload(cfg: Config, c: seq<seq<byte>>, payload: seq<byte>,
                                           a: Query, b: Query, poll: Query, d: Query)
    requires Cut(c, payload) && |c| == 3 && 0 <= cfg.ttl
    requires Carries(a, c, 0) && Carries(b, c, 1) && IsPoll(poll) && Carries(d, c, 2)
    requires a.session == b.session == poll.session == d.session
    ensures var events := [Receive(a, 0), Receive(b, 0), Receive(poll, 0), Receive(d, 0)];
      && Ran(cfg, a.session, events).completed == [[]] && payload != []
      && forall k :: 0 <= k < 3 ==> Arrived(events, a.session, c, k)
  {
    hide Cut, Ran, Arrived, Next, Expected, Clocked, Clock, IsPoll;
    var s, ea, eb, ep, ed := a.session, Receive(a, 0), Receive(b, 0), Receive(poll, 0), Receive(d, 0);
    var events := [ea, eb, ep, ed];
    PollChunk(c, payload);
    AllAtOnce(events);
    CompletesExactly(cfg, s, c, payload, events);
    ExpectedFour(cfg.ttl, s, payload, ea, eb, ep, ed);
    NotPoll(a, c);
    DroppedSteps(cfg.ttl, s, payload, ea, eb, ep, ed);
    ArrivedAt(events, s, c, 0, 0);
    ArrivedAt(events, s, c, 1, 1);
    ArrivedAt(events, s, c, 3, 2);
  }

  lemma NotPoll(q: Query, c: seq<seq<byte>>)
    requires Carries(q, c, 0) && c[0] != [0, 0]
    ensures !IsPoll(q)
  {
  }

  lemma ExpectedFour(ttl: int, s: string, payload: seq<byte>, ea: Event, eb: Event, ep: Event, ed: Event)
    ensures Expected(ttl, s, payload, 3, [ea, eb, ep, ed]) ==
      Next(ttl, s, payload, 3,
        Next(ttl, s, payload, 3,
          Next(ttl, s, payload, 3, Next(ttl, s, payload, 3, Progress({}, false, 0, []), ea), eb), ep), ed)
  {
    hide Next;
    ExpectedMore(ttl, s, payload, 3, [], ea);
    ExpectedMore(ttl, s, payload, 3, [ea], eb);
    ExpectedMore(ttl, s, payload, 3, [ea, eb], ep);
    ExpectedMore(ttl, s, payload, 3, [ea, eb, ep], ed);
    assert [] + [ea] == [ea] && [ea] + [eb] == [ea, eb];
    assert [ea, eb] + [ep] == [ea, eb, ep] && [ea, eb, ep] + [ed] == [ea, eb, ep, ed];
  }

  lemma DroppedSteps(ttl: int, s: string, payload: seq<byte>, ea: Event, eb: Event, ep: Event, ed: Event)
    requires Own(ea, s) && Own(eb, s) && Own(ep, s) && Own(ed, s) && 0 <= ttl
    requires ea.now == eb.now == ep.now == ed.now == 0
    requires ea.q.seqNo == 0 && !IsPoll(ea.q) && eb.q.seqNo == 1 && IsPoll(ep.q) && ed.q.seqNo == 2
    ensures var p1 := Next(ttl, s, payload, 3, Progress({}, false, 0, []), ea);
      var p2 := Next(ttl, s, payload, 3, p1, eb);
      var p3 := Next(ttl, s, payload, 3, p2, ep);
      Next(ttl, s, payload, 3, p3, ed) == Progress({2}, false, 0, [[]])
  {
    var one, two, three: set<int> := {0}, {0, 1}, {2};
    assert 1 !in one && 2 !in two && 0 !in three;
    assert Next(ttl, s, payload, 3, Progress({}, false, 0, []), ea) == Progress(one, false, 0, []);
    assert one + {1} == two && two + {0} == two;
    assert Next(ttl, s, payload, 3, Progress(one, false, 0, []), eb) == Progress(two, false, 0, []);
    assert Gapless(two);
    assert Next(ttl, s, payload, 3, Progress(two, false, 0, []), ep) == Progress({}, false, 0, [[]]);
    assert {} + {2} == three;
  }

  lemma ArrivedAt(events: seq<Event>, s: string, c: seq<seq<byte>>, i: nat, k: int)
    requires i < |events| && Own(events[i], s) && Carries(events[i].q, c, k)
    ensures Arrived(events, s, c, k)
  {
  }
}
