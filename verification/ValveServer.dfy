/** The responder's reassembly buffers and downstream queues, one step per
    section under the lock. */
module ValveServer {
  import opened Wrappers
  import opened Sequences
  import opened QueryNames
  import opened Fragments

  datatype Buf = Buf(chunks: Chunks, lastSeen: int)

  datatype Server = Server(
    sessions: map<string, Buf>,
    down: map<string, seq<byte>>,
    complete: seq<(string, seq<byte>)>)

  datatype Config = Config(ttl: int, echo: bool)

  const BUDGET := 1150

  function Empty(): Server {
    Server(map[], map[], [])
  }

  /** _gc. */
  function Collected(sessions: map<string, Buf>, now: int, ttl: int): map<string, Buf> {
    map k | k in sessions && now - sessions[k].lastSeen <= ttl :: sessions[k]
  }

  function Waiting(down: map<string, seq<byte>>, s: string): seq<byte> {
    if s in down then down[s] else []
  }

  function Received(sessions: map<string, Buf>, q: Query): Chunks {
    (if q.session in sessions then sessions[q.session].chunks else map[])[q.seqNo := q.chunk]
  }

  /** The buffers once a query is stored, and what it completed. */
  function Stored(cfg: Config, st: Server, q: Query, now: int): Server {
    var live := Collected(st.sessions, now, cfg.ttl);
    var chunks := Received(live, q);
    match TryAssemble(chunks)
    case Ok(payload) =>
      Server(live - {q.session},
             if cfg.echo then st.down[q.session := Waiting(st.down, q.session) + payload] else st.down,
             st.complete + [(q.session, payload)])
    case _ =>
      st.(sessions := live[q.session := Buf(chunks, now)])
  }

  /** Everything waiting for a session is taken at once. */
  function Emptied(down: map<string, seq<byte>>, s: string): map<string, seq<byte>> {
    if Waiting(down, s) == [] then down else down[s := []]
  }

  function Queued(st: Server, s: string, payload: seq<byte>): Server {
    st.(down := st.down[s := Waiting(st.down, s) + payload])
  }

  /** What did not fit the answer goes back in front. */
  function PutBack(st: Server, s: string, rest: seq<byte>): Server {
    st.(down := st.down[s := rest + Waiting(st.down, s)])
  }

  function Fits(down: seq<byte>): (d: seq<byte>)
    ensures |d| <= BUDGET && d <= down
    ensures |d| == |down| || |d| == BUDGET
  {
    if |down| <= BUDGET then down else down[..BUDGET]
  }

  function Leftover(down: seq<byte>): (rest: seq<byte>)
    ensures Fits(down) + rest == down
  {
    if |down| <= BUDGET then [] else down[BUDGET..]
  }

  // ---- runs

  /** One step: the receiving thread stores a query and takes what waits, or
      puts a leftover back, which it does before the next query; other threads
      queue bytes or ask who is live. */
  datatype Event =
    | Receive(q: Query, now: nat)
    | Settle
    | Queue(session: string, payload: seq<byte>)
    | Live(now: nat)

  datatype Hand = Nothing | Rest(session: string, bytes: seq<byte>)

  /** A run as one session sees it: bytes owed to it, bytes given to it, and
      the payloads it completed. */
  datatype Trace = Trace(
    st: Server,
    hand: Hand,
    given: seq<byte>,
    owed: seq<byte>,
    completed: seq<seq<byte>>)

  function Settled(t: Trace): (r: Trace)
    ensures r.hand == Nothing && r.st.sessions == t.st.sessions
  {
    if t.hand == Nothing then t
    else t.(st := PutBack(t.st, t.hand.session, t.hand.bytes), hand := Nothing)
  }

  function Taken(cfg: Config, s: string, t: Trace, q: Query, now: nat): Trace {
    var st := Stored(cfg, t.st, q, now);
    var done := st.complete[|t.st.complete|..];
    var taken := Waiting(st.down, q.session);
    Trace(
      st.(down := Emptied(st.down, q.session)),
      if Leftover(taken) == [] then Nothing else Rest(q.session, Leftover(taken)),
      if q.session == s then t.given + Fits(taken) else t.given,
      if q.session == s && cfg.echo && done != [] then t.owed + done[0].1 else t.owed,
      if q.session == s && done != [] then t.completed + [done[0].1] else t.completed)
  }

  function Step(cfg: Config, s: string, t: Trace, e: Event): Trace {
    match e
    case Receive(q, now) => Taken(cfg, s, Settled(t), q, now)
    case Settle => Settled(t)
    case Queue(session, payload) =>
      t.(st := Queued(t.st, session, payload), owed := if session == s then t.owed + payload else t.owed)
    case Live(now) =>
      t.(st := t.st.(sessions := Collected(t.st.sessions, now, cfg.ttl)))
  }

  function Ran(cfg: Config, s: string, events: seq<Event>): Trace {
    if events == [] then Trace(Empty(), Nothing, [], [], [])
    else Step(cfg, s, Ran(cfg, s, events[..|events| - 1]), events[|events| - 1])
  }

  /** Putting a leftover back empties the hand into the front of its queue; asking who
      is live drops exactly the sessions over the TTL; and neither touches anything
      else. */
  lemma {:induction false} SettlesAndCollects(cfg: Config, s: string, t: Trace, now: nat)
    ensures var r := Step(cfg, s, t, Settle);
      && r == t.(st := t.st.(down := r.st.down), hand := Nothing)
      && forall k :: Waiting(r.st.down, k) ==
           (if t.hand.Rest? && t.hand.session == k then t.hand.bytes else []) + Waiting(t.st.down, k)
    ensures var r := Step(cfg, s, t, Live(now));
      && r == t.(st := t.st.(sessions := r.st.sessions))
      && forall k :: (k in r.st.sessions <==> k in t.st.sessions && now - t.st.sessions[k].lastSeen <= cfg.ttl)
           && (k in r.st.sessions ==> r.st.sessions[k] == t.st.sessions[k])
  {
    assert forall k :: [] + Waiting(t.st.down, k) == Waiting(t.st.down, k);
  }

  // ---- downstream: nothing lost, nothing repeated, in order

  ghost function InHand(h: Hand, s: string): seq<byte> {
    if h.Rest? && h.session == s then h.bytes else []
  }

  ghost predicate Balanced(t: Trace, s: string) {
    t.given + InHand(t.hand, s) + Waiting(t.st.down, s) == t.owed
  }

  lemma {:induction false} StoredDown(cfg: Config, st: Server, q: Query, now: int)
    ensures var r := Stored(cfg, st, q, now);
      && st.complete <= r.complete
      && (forall s :: s != q.session ==> Waiting(r.down, s) == Waiting(st.down, s))
      && var done := r.complete[|st.complete|..];
         Waiting(r.down, q.session) == Waiting(st.down, q.session) + if cfg.echo && done != [] then done[0].1 else []
  {
    hide TryAssemble;
    var r := Stored(cfg, st, q, now);
    match TryAssemble(Received(Collected(st.sessions, now, cfg.ttl), q))
    case Ok(payload) =>
      assert r.complete[|st.complete|..] == [(q.session, payload)];
      assert Waiting(st.down, q.session) + [] == Waiting(st.down, q.session);
    case _ =>
      assert r.complete[|st.complete|..] == [];
      assert Waiting(st.down, q.session) + [] == Waiting(st.down, q.session);
  }

  lemma TakenBalanced(cfg: Config, s: string, t: Trace, q: Query, now: nat)
    requires Balanced(t, s) && t.hand == Nothing
    ensures Balanced(Taken(cfg, s, t, q, now), s)
  {
    hide Stored, Fits, Leftover;
    var st := Stored(cfg, t.st, q, now);
    StoredDown(cfg, t.st, q, now);
    var taken := Waiting(st.down, q.session);
    if q.session == s {
      var echoed := if cfg.echo && st.complete[|t.st.complete|..] != [] then st.complete[|t.st.complete|..][0].1 else [];
      assert t.given + [] == t.given;
      Assoc(t.given, Waiting(t.st.down, s), echoed);
      Assoc(t.given, Fits(taken), Leftover(taken));
      assert t.owed + [] == t.owed;
    }
  }

  lemma SettledBalanced(s: string, t: Trace)
    requires Balanced(t, s)
    ensures Balanced(Settled(t), s)
  {
    if t.hand != Nothing && t.hand.session == s {
      Assoc(t.given, t.hand.bytes, Waiting(t.st.down, s));
      assert t.given + [] == t.given;
    }
  }

  lemma StepBalanced(cfg: Config, s: string, t: Trace, e: Event)
    requires Balanced(t, s)
    ensures Balanced(Step(cfg, s, t, e), s)
  {
    hide Taken, Settled;
    SettledBalanced(s, t);
    match e
    case Receive(q, now) =>
      TakenBalanced(cfg, s, Settled(t), q, now);
    case Settle =>
    case Queue(session, payload) =>
      if session == s {
        Assoc(t.given + InHand(t.hand, s), Waiting(t.st.down, s), payload);
      }
    case Live(now) =>
  }

  /** However queueing and answering interleave, the bytes given to a session,
      then the leftover in hand, then the bytes waiting, are exactly the bytes
      owed to it, in order. */
  lemma {:induction false} NothingLost(cfg: Config, s: string, events: seq<Event>)
    ensures Balanced(Ran(cfg, s, events), s)
    decreases |events|
  {
    if events != [] {
      NothingLost(cfg, s, events[..|events| - 1]);
      StepBalanced(cfg, s, Ran(cfg, s, events[..|events| - 1]), events[|events| - 1]);
    }
  }
}
