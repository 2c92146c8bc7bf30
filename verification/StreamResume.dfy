/** Resuming an upload while other sessions act: until another hello, no step
    of theirs reaches the store. */
module StreamResume {
  import opened Wrappers
  import opened Sequences
  import opened StreamLane

  // ---- steps of preempted sessions

  /** A session that is not of the newest generation cannot change the store,
      except by a hello. */
  lemma StaleChangesNothing(w: World, st: Store, ss: Session, a: Action)
    requires GoodSession(w, st, ss) && ss.gen != Some(st.gen) && !a.Greeting?
    ensures Act(w, st, ss, a).0 == st
  {
  }

  /** A session's step, other than a hello, leaves its own generation, its key
      and the newest generation. */
  lemma GenerationStays(w: World, st: Store, ss: Session, a: Action)
    requires !a.Greeting?
    ensures var (st', ss') := Act(w, st, ss, a); st'.gen == st.gen && ss'.gen == ss.gen && ss'.key == ss.key
  {
  }

  /** An ack, or a tick, of a current session changes nothing. */
  lemma IdleSteps(w: World, st: Store, ss: Session, a: Action)
    requires GoodSession(w, st, ss) && ss.gen == Some(st.gen) && (a.Acking? || a.Ticking? || a.Connecting?)
    ensures Act(w, st, ss, a) == (st, ss)
  {
  }

  // ---- one session among others

  /** The session's own steps that can change something. */
  function Own(steps: seq<Step>, me: nat): seq<Action> {
    if steps == [] then []
    else
      var a := steps[0].action;
      (if steps[0].who == me && !a.Acking? && !a.Ticking? && !a.Connecting? then [a] else []) + Own(steps[1..], me)
  }

  /** The session alone, taking those steps one after the other. */
  function Alone(w: World, st: Store, ss: Session, actions: seq<Action>): (Store, Session)
    decreases |actions|
  {
    if actions == [] then (st, ss)
    else
      var (st1, ss1) := Act(w, st, ss, actions[0]);
      Alone(w, st1, ss1, actions[1..])
  }

  lemma AloneStep(w: World, st: Store, ss: Session, a: Action, rest: seq<Action>)
    ensures Alone(w, st, ss, [a] + rest) == Alone(w, Act(w, st, ss, a).0, Act(w, st, ss, a).1, rest)
  {
    hide Act;
    assert ([a] + rest)[1..] == rest;
  }

  lemma AloneDone(w: World, st: Store, ss: Session)
    ensures Alone(w, st, ss, []) == (st, ss)
  {
  }

  /** Every header is honest, and nobody says hello. */
  ghost predicate Quiet(w: World, steps: seq<Step>) {
    forall i :: 0 <= i < |steps| ==> HonestStep(w, steps[i]) && !steps[i].action.Greeting?
  }

  /** The lane with `me` of the newest generation. */
  ghost predicate Leads(w: World, l: Lane, me: nat) {
    GoodLane(w, l) && me in l.sessions && l.sessions[me].gen == Some(l.store.gen)
  }

  lemma LeadingStep(w: World, l: Lane, me: nat, s: Step)
    requires Leads(w, l, me) && HonestStep(w, s) && !s.action.Greeting?
    ensures Leads(w, Next(w, l, s), me)
    ensures s.who != me ==> Next(w, l, s).store == l.store && Next(w, l, s).sessions[me] == l.sessions[me]
    ensures s.who == me && !s.action.Connecting? ==>
      (Next(w, l, s).store, Next(w, l, s).sessions[me]) == Act(w, l.store, l.sessions[me], s.action)
    ensures s.who == me && s.action.Connecting? ==> Next(w, l, s) == l
  {
    hide GoodStore, GoodSession, Act;
    NextGood(w, l, s);
    if s.who in l.sessions && !s.action.Connecting? {
      GenerationStays(w, l.store, l.sessions[s.who], s.action);
      if s.who != me {
        StaleChangesNothing(w, l.store, l.sessions[s.who], s.action);
      }
    }
  }

  /** Whatever the others do between its steps, short of a hello, the store and
      the leading session are as if it had been alone. */
  lemma {:induction false} Undisturbed(w: World, l: Lane, me: nat, steps: seq<Step>)
    requires Leads(w, l, me) && Quiet(w, steps)
    ensures var r := Run(w, l, steps);
      && Leads(w, r, me)
      && (r.store, r.sessions[me]) == Alone(w, l.store, l.sessions[me], Own(steps, me))
    decreases |steps|
  {
    hide GoodLane, Act, Next;
    if steps != [] {
      var s, rest := steps[0], steps[1..];
      var next := Next(w, l, s);
      LeadingStep(w, l, me, s);
      LeaderGood(w, l, me);
      Undisturbed(w, next, me, rest);
      if s.who == me && (s.action.Acking? || s.action.Ticking? || s.action.Connecting?) {
        IdleSteps(w, l.store, l.sessions[me], s.action);
        assert [] + Own(rest, me) == Own(rest, me);
      } else if s.who == me {
        assert ([s.action] + Own(rest, me))[1..] == Own(rest, me);
      } else {
        assert [] + Own(rest, me) == Own(rest, me);
      }
    }
  }

  lemma LeaderGood(w: World, l: Lane, me: nat)
    requires Leads(w, l, me)
    ensures GoodStore(w, l.store) && GoodSession(w, l.store, l.sessions[me])
  {
  }

  // ---- the receive loop, the lock free between its slices

  /** The slices of one body, each appended to the store then found: whatever
      the other sessions left while the lock was free. */
  function Interleaved(st: Store, ss: Session, ns: seq<nat>, found: seq<Store>): (Store, Session)
    requires |found| == |ns|
    decreases |ns|
  {
    if ns == [] || !ss.phase.Writing? then (st, ss)
    else
      var (st1, ss1) := Append(found[0], ss, ns[0]);
      Interleaved(st1, ss1, ns[1..], found[1..])
  }

  /** All of a session's own steps. */
  function Mine(steps: seq<Step>, me: nat): seq<Action> {
    if steps == [] then [] else (if steps[0].who == me then [steps[0].action] else []) + Mine(steps[1..], me)
  }

  /** The store at each of them. */
  function Found(w: World, l: Lane, me: nat, steps: seq<Step>): (found: seq<Store>)
    ensures |found| == |Mine(steps, me)|
    decreases |steps|
  {
    if steps == [] then []
    else (if steps[0].who == me then [l.store] else []) + Found(w, Next(w, l, steps[0]), me, steps[1..])
  }

  lemma PiecesLength(ns: seq<nat>)
    ensures |Pieces(ns)| == |ns|
  {
  }

  lemma StopsWriting(st: Store, ss: Session, n: nat)
    requires !ss.phase.Writing?
    ensures Append(st, ss, n) == (st, ss)
  {
  }

  /** In every interleaving the loop leaves its session where the slices, on the
      stores then found, leave it. */
  lemma {:induction false} InterleavedInRun(w: World, l: Lane, me: nat, steps: seq<Step>, ns: seq<nat>)
    requires me in l.sessions && Mine(steps, me) == Pieces(ns)
    ensures |Found(w, l, me, steps)| == |ns| && me in Run(w, l, steps).sessions
    ensures forall st :: Run(w, l, steps).sessions[me] == Interleaved(st, l.sessions[me], ns, Found(w, l, me, steps)).1
    decreases |steps|
  {
    hide Append, Next;
    PiecesLength(ns);
    if steps != [] {
      var s, rest := steps[0], steps[1..];
      var next := Next(w, l, s);
      OneOf(w, l, me, s);
      if s.who == me {
        assert Mine(rest, me) == Pieces(ns)[1..] == Pieces(ns[1..]);
        assert s.action == Pieces(ns)[0] == Appending(ns[0]);
        assert Found(w, l, me, steps)[1..] == Found(w, next, me, rest);
        assert Found(w, l, me, steps)[0] == l.store;
        InterleavedInRun(w, next, me, rest, ns[1..]);
        FirstSlice(l.store, l.sessions[me], ns, Found(w, l, me, steps));
      } else {
        NoMore(Mine(rest, me));
        NoMore(Found(w, next, me, rest));
        InterleavedInRun(w, next, me, rest, ns);
      }
    }
  }

  lemma FirstSlice(at: Store, ss: Session, ns: seq<nat>, found: seq<Store>)
    requires |found| == |ns| && ns != [] && found[0] == at
    ensures var r := Append(at, ss, ns[0]);
      forall st :: Interleaved(st, ss, ns, found).1 == Interleaved(r.0, r.1, ns[1..], found[1..]).1
  {
    hide Append;
    if !ss.phase.Writing? {
      StopsWriting(at, ss, ns[0]);
    }
  }

  lemma OneOf(w: World, l: Lane, me: nat, s: Step)
    requires me in l.sessions
    ensures me in Next(w, l, s).sessions
    ensures s.who != me ==> Next(w, l, s).sessions[me] == l.sessions[me]
    ensures s.who == me && s.action.Appending? ==>
      (Next(w, l, s).store, Next(w, l, s).sessions[me]) == Append(l.store, l.sessions[me], s.action.n)
  {
    hide Append;
  }

  // ---- a whole resumption

  function Pieces(ns: seq<nat>): seq<Action> {
    if ns == [] then [] else [Appending(ns[0])] + Pieces(ns[1..])
  }

  lemma {:induction false} AlonePieces(w: World, st: Store, ss: Session, ns: seq<nat>, rest: seq<Action>)
    ensures var r := Appends(st, ss, ns);
      Alone(w, st, ss, Pieces(ns) + rest) == Alone(w, r.0, r.1, rest)
    decreases |ns|
  {
    hide Append, Alone;
    if ns == [] {
      NoMore(rest);
    } else {
      var r := Append(st, ss, ns[0]);
      AlonePieces(w, r.0, r.1, ns[1..], rest);
      Assoc([Appending(ns[0])], Pieces(ns[1..]), rest);
      AloneStep(w, st, ss, Appending(ns[0]), Pieces(ns[1..]) + rest);
    }
  }

  /** The announcement: what the hello's lock section reads of the bundle. */
  ghost predicate AnnouncedAt(l: Lane, h: Header) {
    && |h.meta.sig| == SIG_BYTES && h.meta.total <= BLOB_MAX_BYTES
    && (h.id in l.store.metas ==> l.store.metas[h.id] == h.meta)
    && h.off == Have(l.store, h.id) && h.len == h.meta.total - h.off
  }

  /** A hello puts its session in the lead. */
  lemma HelloLeads(w: World, l: Lane, me: nat)
    requires GoodLane(w, l) && me in l.sessions && l.sessions[me].phase == Opening
    ensures Leads(w, Next(w, l, Step(me, Greeting)), me)
    ensures var n := Next(w, l, Step(me, Greeting));
      (n.store, n.sessions[me]) == Hello(l.store, l.sessions[me])
  {
    NextGood(w, l, Step(me, Greeting));
  }

  /** From the announcement on: the other sessions may act between any two
      steps, and the offset announced still passes the check that is made
      outside the lock. */
  lemma {:induction false} Announced(w: World, l: Lane, me: nat, h: Header, steps: seq<Step>)
    requires GoodLane(w, l) && me in l.sessions && l.sessions[me].phase == Opening
    requires Honest(w, h) && AnnouncedAt(l, h) && Quiet(w, steps)
    requires Own(steps, me) == [Heading(h), Checking]
    ensures var r := Run(w, Next(w, l, Step(me, Greeting)), steps);
      && GoodLane(w, r) && me in r.sessions
      && r.sessions[me].phase == Writing(h.id, h.meta, h.body) && |h.body| == h.len
  {
    hide GoodStore, Hello, Claim, Check, Next, Run;
    var n := Next(w, l, Step(me, Greeting));
    var ss := l.sessions[me];
    HelloLeads(w, l, me);
    Undisturbed(w, n, me, steps);
    AnnouncedAlone(w, l.store, ss, h);
    TwoSteps(w, n.store, n.sessions[me], h);
  }

  lemma TwoSteps(w: World, st: Store, ss: Session, h: Header)
    ensures var (st2, ss2) := Claim(st, ss, h);
      Alone(w, st, ss, [Heading(h), Checking]) == (st2, Check(ss2))
  {
    hide Claim, Check, Alone;
    var (st2, ss2) := Claim(st, ss, h);
    assert [Heading(h), Checking] == [Heading(h)] + [Checking] && [Checking] == [Checking] + [];
    AloneStep(w, st, ss, Heading(h), [Checking]);
    AloneStep(w, st2, ss2, Checking, []);
    AloneDone(w, st2, Check(ss2));
  }

  /** The session's own steps from its hello to its done. */
  function Resumption(h: Header, ns: seq<nat>): seq<Action> {
    [Heading(h), Checking] + (Pieces(ns) + [Finishing])
  }

  lemma AloneResumption(w: World, st: Store, ss: Session, h: Header, ns: seq<nat>)
    ensures var (st1, ss1) := Hello(st, ss);
      Alone(w, st1, ss1, Resumption(h, ns)) == Resumed(w, st, ss, h, ns)
  {
    hide Hello, Claim, Check, Finish, Appends, Alone;
    var (st1, ss1) := Hello(st, ss);
    var (st2, ss2) := Claim(st1, ss1, h);
    var r := Appends(st2, Check(ss2), ns);
    var rest := Pieces(ns) + [Finishing];
    assert Resumption(h, ns) == [Heading(h)] + ([Checking] + rest) && [Finishing] == [Finishing] + [];
    AloneStep(w, st1, ss1, Heading(h), [Checking] + rest);
    AloneStep(w, st2, ss2, Checking, rest);
    AlonePieces(w, st2, Check(ss2), ns, [Finishing]);
    AloneStep(w, r.0, r.1, Finishing, []);
    var done := Finish(w, r.0, r.1);
    AloneDone(w, done.0, done.1);
  }

  /** The promise of the lane, over every interleaving: a phone that says hello
      and announces the offset it is told ends with exactly its payload stored,
      in whatever pieces the rest arrives and whatever other sessions do
      between its steps, as long as none of them says hello after it. */
  lemma {:induction false} ResumeCompletes(w: World, l: Lane, me: nat, h: Header, ns: seq<nat>, steps: seq<Step>)
    requires GoodLane(w, l) && me in l.sessions && l.sessions[me].phase == Opening
    requires Honest(w, h) && AnnouncedAt(l, h) && Quiet(w, steps)
    requires (forall i :: 0 <= i < |ns| ==> 0 < ns[i]) && Sum(ns) == h.len
    requires Own(steps, me) == Resumption(h, ns)
    ensures var r := Run(w, Next(w, l, Step(me, Greeting)), steps);
      && GoodLane(w, r) && me in r.sessions && r.sessions[me].phase == Idle
      && h.id in r.store.completes && Part(r.store, h.id) == w.payload(h.id, h.meta)
  {
    hide GoodStore, Hello, Next, Run, Alone, Resumed;
    var n := Next(w, l, Step(me, Greeting));
    HelloLeads(w, l, me);
    Undisturbed(w, n, me, steps);
    ResumedAlone(w, l.store, l.sessions[me], h, ns);
    AloneResumption(w, l.store, l.sessions[me], h, ns);
  }

  /** The same as one run from an empty hub, with anything before the hello. */
  lemma {:induction false} ResumeAfterAnything(w: World, before: seq<Step>, me: nat, h: Header, ns: seq<nat>, steps: seq<Step>)
    requires forall i :: 0 <= i < |before| ==> HonestStep(w, before[i])
    requires var l := Run(w, EMPTY_LANE, before);
      me in l.sessions && l.sessions[me].phase == Opening && AnnouncedAt(l, h)
    requires Honest(w, h) && Quiet(w, steps) && Own(steps, me) == Resumption(h, ns)
    requires (forall i :: 0 <= i < |ns| ==> 0 < ns[i]) && Sum(ns) == h.len
    ensures var r := Run(w, EMPTY_LANE, before + ([Step(me, Greeting)] + steps));
      h.id in r.store.completes && Part(r.store, h.id) == w.payload(h.id, h.meta)
  {
    hide GoodLane, Next, Own, AnnouncedAt;
    var l := Run(w, EMPTY_LANE, before);
    LaneSafe(w, before);
    ResumeCompletes(w, l, me, h, ns, steps);
    RunSplit(w, EMPTY_LANE, before, [Step(me, Greeting)] + steps);
    assert ([Step(me, Greeting)] + steps)[1..] == steps;
  }

  lemma {:induction false} RunSplit(w: World, l: Lane, a: seq<Step>, b: seq<Step>)
    ensures Run(w, l, a + b) == Run(w, Run(w, l, a), b)
    decreases |a|
  {
    hide Next;
    if a == [] {
      assert a + b == b;
    } else {
      RunSplit(w, Next(w, l, a[0]), a[1..], b);
      assert (a + b)[1..] == a[1..] + b;
    }
  }
}
