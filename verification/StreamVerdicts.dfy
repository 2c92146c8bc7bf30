/** What each lock section of the stream lane answers and leaves, and who each
    verdict in the log is about. */
module StreamVerdicts {
  import opened Wrappers
  import opened StreamLane

  // ---- the sections, one by one

  /** Nothing but a session's phase is different. */
  predicate OnlyPhase(ss: Session, after: Session) {
    after == Session(ss.gen, after.phase, ss.key, ss.have, ss.counted)
  }

  predicate Newest(st: Store, ss: Session) {
    ss.gen == Some(st.gen)
  }

  lemma CurrentIsNewest(w: World, st: Store, ss: Session)
    requires GoodSession(w, st, ss) && ss.phase != Opening && ss.phase != Closed
    ensures Current(st, ss) <==> Newest(st, ss)
  {
  }

  /** A hello makes its session the newest and counts one connection; a session
      says hello once. */
  lemma {:induction false} Greets(st: Store, ss: Session)
    ensures var (after, next) := Hello(st, ss);
      if ss.phase == Opening then
        && after == Store(st.gen + 1, st.bytesCarried, st.records, st.connections + 1, st.claimed, st.metas,
                          st.parts, st.completes, st.events)
        && next == Session(Some(st.gen + 1), Idle, ss.key, ss.have, ss.counted)
      else after == st && next == ss
  {
  }

  /** The bytes stored under an id. */
  function StoredSize(st: Store, id: Id): nat {
    if id in st.parts then |st.parts[id]| else 0
  }

  predicate FairClaim(h: Header) {
    |h.meta.sig| == 64 && 0 <= h.meta.total <= 16_777_216
  }

  predicate Continues(st: Store, h: Header) {
    h.off == StoredSize(st, h.id) && 0 <= h.len && h.off + h.len == h.meta.total
  }

  predicate Unclaimed(st: Store, h: Header) {
    h.id !in st.metas
  }

  /** A header, with the checks after its lock section: each refusal comes exactly
      when it is due, a header that passes starts the record at its offset, and only
      a fair claim by the newest session of a new id changes the store. */
  lemma {:induction false} Heads(w: World, st: Store, ss: Session, h: Header)
    requires GoodStore(w, st) && GoodSession(w, st, ss) && ss.phase == Idle
    ensures var (after, seen) := Claim(st, ss, h); var next := Check(seen);
      var known := Unclaimed(st, h) || st.metas[h.id] == h.meta;
      && (next.phase == Failed(BadSig) <==> |h.meta.sig| != 64)
      && (next.phase == Failed(TooLarge) <==> |h.meta.sig| == 64 && !(0 <= h.meta.total <= 16_777_216))
      && (next.phase == Failed(Preempted) <==> FairClaim(h) && !Newest(st, ss))
      && (next.phase == Failed(MetaMismatch) <==> FairClaim(h) && Newest(st, ss) && !known)
      && (next.phase == Failed(BadOffset) <==> FairClaim(h) && Newest(st, ss) && known && !Continues(st, h))
      && (next.phase.Failed? || (next.phase == Writing(h.id, h.meta, h.body) && next.have == next.counted == h.off))
      && next.gen == ss.gen && next.key == ss.key
      && after == (if FairClaim(h) && Newest(st, ss) && Unclaimed(st, h)
                   then st.(metas := st.metas[h.id := h.meta], claimed := st.claimed + [h.id]) else st)
  {
    hide EventsTrue, OneEventEach, CountersExact;
    CurrentIsNewest(w, st, ss);
    HaveIsPart(w, st, h.id);
  }

  /** One slice: the newest session's bytes go to the end of its part and are
      counted, once; any other is preempted and leaves no trace. */
  lemma {:induction false} Appends1(w: World, st: Store, ss: Session, n: nat)
    requires GoodSession(w, st, ss) && ss.phase.Writing? && 0 < n <= |ss.phase.rest|
    ensures var (after, next) := Append(st, ss, n); var id := ss.phase.id;
      if Newest(st, ss) then
        && id in after.parts && after.parts[id] == (if id in st.parts then st.parts[id] else []) + ss.phase.rest[..n]
        && after == st.(parts := after.parts, bytesCarried := st.bytesCarried + n)
        && (forall k :: k != id ==> (k in after.parts <==> k in st.parts))
        && (forall k :: k != id && k in st.parts && k in after.parts ==> after.parts[k] == st.parts[k])
        && next == Session(ss.gen, Writing(id, ss.phase.wmeta, ss.phase.rest[n..]), ss.key, ss.have + n, ss.counted + n)
      else after == st && OnlyPhase(ss, next) && next.phase == Failed(Preempted)
  {
    CurrentIsNewest(w, st, ss);
  }

  /** The end of a record: the newest session completes its bundle, unless it is
      complete, and can send the next; any other is preempted. */
  lemma {:induction false} Finishes(w: World, st: Store, ss: Session)
    requires GoodSession(w, st, ss) && ss.phase.Writing? && ss.phase.rest == []
    ensures var (after, next) := Finish(w, st, ss); var id := ss.phase.id;
      var payload := if id in st.parts then st.parts[id] else [];
      var sigOk, known := w.verify(ss.key, ss.phase.wmeta.sig, payload), w.known(ss.key);
      if !Newest(st, ss) then after == st && OnlyPhase(ss, next) && next.phase == Failed(Preempted)
      else
        && OnlyPhase(ss, next) && next.phase == Idle
        && (id in st.completes ==> after == st)
        && (id !in st.completes ==>
              after == st.(events := st.events + [Event(id, payload, ss.key, sigOk, known)],
                           completes := st.completes[id := Done(sigOk, known, |payload|)], records := st.records + 1))
  {
    CurrentIsNewest(w, st, ss);
  }

  /** A session that waits notices that it was preempted, and nothing else. */
  lemma {:induction false} Ticks(w: World, st: Store, ss: Session)
    requires GoodSession(w, st, ss)
    ensures Act(w, st, ss, Ticking).0 == st && OnlyPhase(ss, Act(w, st, ss, Ticking).1)
    ensures Act(w, st, ss, Ticking).1.phase ==
      if (ss.phase.Idle? || ss.phase.Writing?) && !Newest(st, ss) then Failed(Preempted) else ss.phase
  {
    if ss.phase.Idle? || ss.phase.Writing? {
      CurrentIsNewest(w, st, ss);
    }
  }

  /** Every byte is counted as it is appended, so an ack and the end of a session
      leave the store alone. */
  lemma {:induction false} Closes(w: World, st: Store, ss: Session)
    requires GoodSession(w, st, ss)
    ensures Act(w, st, ss, Acking) == (st, ss)
    ensures Act(w, st, ss, Closing).0 == st
    ensures OnlyPhase(ss, Act(w, st, ss, Closing).1) && Act(w, st, ss, Closing).1.phase == Closed
  {
  }

  /** A step touches its own session only; a new connection opens one that knows
      only its key. */
  lemma {:induction false} OneSession(w: World, l: Lane, s: Step)
    ensures var r := Next(w, l, s);
      && (forall k :: k != s.who ==> (k in r.sessions <==> k in l.sessions))
      && (forall k :: k != s.who && k in l.sessions && k in r.sessions ==> r.sessions[k] == l.sessions[k])
      && (s.action.Connecting? ==> s.who in r.sessions && r.store == l.store)
      && (s.action.Connecting? && s.who !in l.sessions ==>
            r.sessions[s.who] == Session(None, Opening, s.action.key, 0, 0))
      && (s.action.Connecting? && s.who in l.sessions ==> r == l)
      && (!s.action.Connecting? && s.who !in l.sessions ==> r == l)
      && (!s.action.Connecting? && s.who in l.sessions ==>
            s.who in r.sessions && (r.store, r.sessions[s.who]) == Act(w, l.store, l.sessions[s.who], s.action))
  {
    hide Act;
  }

  // ---- what every run keeps

  /** Only fair claims are stored, and every connection took a generation. */
  ghost predicate Fair(st: Store) {
    && (forall id :: id in st.metas ==> |st.metas[id].sig| == 64 && 0 <= st.metas[id].total <= 16_777_216)
    && st.connections == st.gen
  }

  /** A claim stands, and so does what was completed under it. */
  ghost predicate Stands(before: Store, after: Store) {
    && (forall id :: id in before.metas ==> id in after.metas && after.metas[id] == before.metas[id])
    && (forall id :: id in before.completes ==> id in after.completes && after.completes[id] == before.completes[id])
    && before.events <= after.events
  }

  lemma ActFair(w: World, st: Store, ss: Session, a: Action)
    requires Fair(st)
    ensures Fair(Act(w, st, ss, a).0) && Stands(st, Act(w, st, ss, a).0)
  {
    hide Claim, Append, Finish;
    match a
    case Heading(h) => ClaimFair(st, ss, h);
    case Appending(n) => AppendFair(st, ss, n);
    case Finishing => FinishFair(w, st, ss);
    case _ =>
  }

  lemma ClaimFair(st: Store, ss: Session, h: Header)
    requires Fair(st)
    ensures Fair(Claim(st, ss, h).0) && Stands(st, Claim(st, ss, h).0)
  {
  }

  lemma AppendFair(st: Store, ss: Session, n: nat)
    requires Fair(st)
    ensures Fair(Append(st, ss, n).0) && Stands(st, Append(st, ss, n).0)
  {
  }

  lemma FinishFair(w: World, st: Store, ss: Session)
    requires Fair(st)
    ensures Fair(Finish(w, st, ss).0) && Stands(st, Finish(w, st, ss).0)
  {
  }

  lemma {:induction false} RunFair(w: World, l: Lane, steps: seq<Step>)
    requires Fair(l.store)
    ensures Fair(Run(w, l, steps).store) && Stands(l.store, Run(w, l, steps).store)
    decreases |steps|
  {
    hide Act, Fair;
    if steps != [] {
      var s := steps[0];
      if s.who in l.sessions {
        ActFair(w, l.store, l.sessions[s.who], s.action);
      }
      RunFair(w, Next(w, l, s), steps[1..]);
    }
  }

  /** On every run from an empty hub every stored claim is fair, and connections and
      generations are one count. */
  lemma {:induction false} ClaimsFair(w: World, steps: seq<Step>)
    ensures Fair(Run(w, EMPTY_LANE, steps).store)
  {
    RunFair(w, EMPTY_LANE, steps);
  }

  // ---- whose verdict an event is

  /** The session of a step, as it stands before it, ends a record of the event's
      bundle with the event's key, and the step logs the event. */
  ghost predicate LoggedBy(w: World, l: Lane, s: Step, e: Event) {
    && s.action.Finishing? && s.who in l.sessions
    && l.sessions[s.who].phase.Writing? && l.sessions[s.who].phase.id == e.id
    && l.sessions[s.who].key == e.key && Newest(l.store, l.sessions[s.who])
    && e.id !in l.store.completes && Next(w, l, s).store.events == l.store.events + [e]
  }

  lemma Logs(w: World, l: Lane, s: Step)
    requires GoodLane(w, l)
    ensures var before, after := l.store.events, Next(w, l, s).store.events;
      before <= after && (after == before || (|after| == |before| + 1 && LoggedBy(w, l, s, after[|before|])))
  {
    hide GoodStore;
    if s.who in l.sessions {
      assert GoodSession(w, l.store, l.sessions[s.who]);
    }
  }

  /** Run up to each step. */
  ghost predicate Logged(w: World, l: Lane, steps: seq<Step>, e: Event) {
    exists i :: 0 <= i < |steps| && LoggedBy(w, Run(w, l, steps[..i]), steps[i], e)
  }

  lemma LoggedLater(w: World, l: Lane, steps: seq<Step>, e: Event)
    requires steps != [] && Logged(w, Next(w, l, steps[0]), steps[1..], e)
    ensures Logged(w, l, steps, e)
  {
    hide Next, LoggedBy;
    var rest := steps[1..];
    var i :| 0 <= i < |rest| && LoggedBy(w, Run(w, Next(w, l, steps[0]), rest[..i]), rest[i], e);
    assert steps[..i + 1][0] == steps[0] && steps[..i + 1][1..] == rest[..i];
    assert steps[i + 1] == rest[i];
  }

  lemma LoggedNow(w: World, l: Lane, steps: seq<Step>, e: Event)
    requires steps != [] && LoggedBy(w, l, steps[0], e)
    ensures Logged(w, l, steps, e)
  {
    hide Next, LoggedBy;
    assert Run(w, l, steps[..0]) == l;
  }

  lemma {:induction false} NewEventsLogged(w: World, l: Lane, steps: seq<Step>)
    requires GoodLane(w, l) && forall i :: 0 <= i < |steps| ==> HonestStep(w, steps[i])
    ensures var before, after := l.store.events, Run(w, l, steps).store.events;
      |before| <= |after| && forall k :: |before| <= k < |after| ==> Logged(w, l, steps, after[k])
    ensures l.store.events <= Run(w, l, steps).store.events
    decreases |steps|
  {
    hide Next, GoodLane, LoggedBy, Logged;
    if steps != [] {
      var next := Next(w, l, steps[0]);
      NextGood(w, l, steps[0]);
      Logs(w, l, steps[0]);
      NewEventsLogged(w, next, steps[1..]);
      var before, after := l.store.events, Run(w, l, steps).store.events;
      forall k | |before| <= k < |after| ensures Logged(w, l, steps, after[k]) {
        if k < |next.store.events| {
          LoggedNow(w, l, steps, after[k]);
        } else {
          LoggedLater(w, l, steps, after[k]);
        }
      }
    }
  }

  /** A session's key is the one it connected with. */
  ghost predicate Connected(steps: seq<Step>, who: nat, key: Key) {
    exists i :: 0 <= i < |steps| && steps[i] == Step(who, Connecting(key))
  }

  /** On every run from an empty hub: each event was logged by the session that
      finished its bundle, with that session's key and both verdicts on that key,
      and the recorded verdict is the same. */
  lemma {:induction false} EventsTell(w: World, steps: seq<Step>, k: nat)
    requires forall i :: 0 <= i < |steps| ==> HonestStep(w, steps[i])
    requires k < |Run(w, EMPTY_LANE, steps).store.events|
    ensures var st := Run(w, EMPTY_LANE, steps).store; var e := st.events[k];
      && Logged(w, EMPTY_LANE, steps, e)
      && e.id in st.metas && e.payload == w.payload(e.id, st.metas[e.id])
      && e.keyMatch == w.known(e.key)
      && e.id in st.metas && e.sigOk == w.verify(e.key, st.metas[e.id].sig, e.payload)
      && e.id in st.completes && st.completes[e.id] == Done(e.sigOk, e.keyMatch, |e.payload|)
  {
    hide Next, Logged;
    LaneSafe(w, steps);
    EmptyGood(w);
    NewEventsLogged(w, EMPTY_LANE, steps);
    var st := Run(w, EMPTY_LANE, steps).store;
    assert TrueEvent(w, st, st.events[k]);
  }

  lemma EmptyGood(w: World)
    ensures GoodLane(w, EMPTY_LANE)
  {
    LaneSafe(w, []);
  }

  /** The key of a session never changes, so it is the key of its connection. */
  lemma {:induction false} KeysConnected(w: World, steps: seq<Step>, who: nat)
    requires who in Run(w, EMPTY_LANE, steps).sessions
    ensures Connected(steps, who, Run(w, EMPTY_LANE, steps).sessions[who].key)
  {
    KeysFrom(w, EMPTY_LANE, steps, who);
  }

  lemma ActKeepsKey(w: World, st: Store, ss: Session, a: Action)
    ensures Act(w, st, ss, a).1.key == ss.key
  {
  }

  lemma {:induction false} KeysFrom(w: World, l: Lane, steps: seq<Step>, who: nat)
    requires who in Run(w, l, steps).sessions
    ensures var key := Run(w, l, steps).sessions[who].key;
      if who in l.sessions then key == l.sessions[who].key else Connected(steps, who, key)
    decreases |steps|
  {
    hide Act;
    if steps != [] {
      var s, rest := steps[0], steps[1..];
      KeysFrom(w, Next(w, l, s), rest, who);
      if s.who in l.sessions {
        ActKeepsKey(w, l.store, l.sessions[s.who], s.action);
      }
      var key := Run(w, l, steps).sessions[who].key;
      if who !in l.sessions {
        if who in Next(w, l, s).sessions {
          assert steps[0] == Step(who, Connecting(key));
        } else {
          var i :| 0 <= i < |rest| && rest[i] == Step(who, Connecting(key));
          assert steps[i + 1] == Step(who, Connecting(key));
        }
      }
    }
  }
}
