/** The hub's stream lane: resumable uploads by competing sessions, one atomic
    step per lock section. A newer hello preempts every older session. */
module StreamLane {
  import opened Wrappers

  type Id = string
  type Key = string
  type Bytes = seq<int>

  const BLOB_MAX_BYTES := 16 * 1024 * 1024
  const SIG_BYTES := 64

  /** What the first header of a bundle claims. */
  datatype Meta = Meta(total: int, sig: Bytes, createdMs: int)

  /** The recorded verdict of a finished bundle. */
  datatype Done = Done(sigOk: bool, keyMatch: bool, bytes: int)

  /** One `bundle_received` line of the event log. */
  datatype Event = Event(id: Id, payload: Bytes, key: Key, sigOk: bool, keyMatch: bool)

  /** The run directory and the class counters. `claimed` lists the meta files
      in the order they were written. */
  datatype Store = Store(
    gen: nat, bytesCarried: int, records: nat, connections: nat,
    claimed: seq<Id>, metas: map<Id, Meta>, parts: map<Id, Bytes>, completes: map<Id, Done>,
    events: seq<Event>)

  const EMPTY_STORE := Store(0, 0, 0, 0, [], map[], map[], map[], [])

  datatype Code = BadSig | TooLarge | MetaMismatch | BadOffset | Preempted

  /** A record header and the raw bytes the phone sends behind it. */
  datatype Header = Header(id: Id, off: int, len: int, meta: Meta, body: Bytes)

  /** Where a session's thread stands: before its hello, between records,
      after the header's lock section, appending, unwinding an error, gone. */
  datatype Phase =
    | Opening
    | Idle
    | Seen(h: Header, stored: int, meta: Meta)
    | Writing(id: Id, wmeta: Meta, rest: Bytes)
    | Failed(code: Code)
    | Closed

  datatype Session = Session(gen: Option<nat>, phase: Phase, key: Key, have: int, counted: int)

  function NewSession(key: Key): Session {
    Session(None, Opening, key, 0, 0)
  }

  /** The world outside: what every phone holds under an id and its meta, and
      the two checks of a finished payload. */
  datatype World = World(
    payload: (Id, Meta) -> Bytes,
    verify: (Key, Bytes, Bytes) -> bool,
    known: Key -> bool)

  // ---- the lock sections

  function Part(st: Store, id: Id): Bytes {
    if id in st.parts then st.parts[id] else []
  }

  /** `_stream_state`: the .part size, or the recorded total once complete. */
  function Have(st: Store, id: Id): int {
    if id in st.completes then st.completes[id].bytes else |Part(st, id)|
  }

  /** `_check_gen` passes. */
  predicate Current(st: Store, ss: Session) {
    ss.gen == None || ss.gen == Some(st.gen)
  }

  /** `_account`. */
  function Accounted(st: Store, ss: Session): (Store, Session) {
    if ss.counted < ss.have
    then (st.(bytesCarried := st.bytesCarried + (ss.have - ss.counted)), ss.(counted := ss.have))
    else (st, ss)
  }

  /** An accepted hello. */
  function Hello(st: Store, ss: Session): (Store, Session) {
    if ss.phase != Opening then (st, ss)
    else (st.(gen := st.gen + 1, connections := st.connections + 1), ss.(gen := Some(st.gen + 1), phase := Idle))
  }

  /** The header's lock section: the generation check, the state as stored,
      and the claim of the meta file. */
  function Claim(st: Store, ss: Session, h: Header): (Store, Session) {
    if ss.phase != Idle then (st, ss)
    else if |h.meta.sig| != SIG_BYTES then (st, ss.(phase := Failed(BadSig)))
    else if h.meta.total < 0 || BLOB_MAX_BYTES < h.meta.total then (st, ss.(phase := Failed(TooLarge)))
    else if !Current(st, ss) then (st, ss.(phase := Failed(Preempted)))
    else if h.id in st.metas then (st, ss.(phase := Seen(h, Have(st, h.id), st.metas[h.id])))
    else (st.(metas := st.metas[h.id := h.meta], claimed := st.claimed + [h.id]),
          ss.(phase := Seen(h, Have(st, h.id), h.meta)))
  }

  /** The checks after the lock was given back; the store is not looked at
      again. */
  function Check(ss: Session): Session {
    match ss.phase
    case Seen(h, stored, meta) =>
      if meta != h.meta then ss.(phase := Failed(MetaMismatch))
      else if h.off != stored || h.len < 0 || h.off + h.len != h.meta.total then ss.(phase := Failed(BadOffset))
      else ss.(phase := Writing(h.id, meta, h.body), have := stored, counted := stored)
    case _ => ss
  }

  /** One received slice of `n` bytes. */
  function Append(st: Store, ss: Session, n: nat): (Store, Session) {
    match ss.phase
    case Writing(id, meta, rest) =>
      if n == 0 || |rest| < n then (st, ss)
      else if !Current(st, ss) then (st, ss.(phase := Failed(Preempted)))
      else
        Accounted(st.(parts := st.parts[id := Part(st, id) + rest[..n]]),
                  ss.(phase := Writing(id, meta, rest[n..]), have := ss.have + n))
    case _ => (st, ss)
  }

  /** `_stream_complete`. */
  function Completed(w: World, st: Store, id: Id, meta: Meta, key: Key): Store {
    if id in st.completes then st
    else
      var payload := Part(st, id);
      var ok := w.verify(key, meta.sig, payload);
      st.(events := st.events + [Event(id, payload, key, ok, w.known(key))],
          completes := st.completes[id := Done(ok, w.known(key), |payload|)],
          records := st.records + 1)
  }

  /** The lock section at the end of a record. */
  function Finish(w: World, st: Store, ss: Session): (Store, Session) {
    match ss.phase
    case Writing(id, meta, rest) =>
      if rest != [] then (st, ss)
      else if !Current(st, ss) then (st, ss.(phase := Failed(Preempted)))
      else
        var (st1, ss1) := Accounted(st, ss);
        (Completed(w, st1, id, meta, ss.key), ss1.(phase := Idle))
    case _ => (st, ss)
  }

  /** A timer tick: a session that waits for bytes notices its preemption. */
  function Tick(st: Store, ss: Session): Session {
    if (ss.phase.Idle? || ss.phase.Writing?) && !Current(st, ss) then ss.(phase := Failed(Preempted)) else ss
  }

  /** The section every session ends in, whatever ended it. */
  function Close(st: Store, ss: Session): (Store, Session) {
    var (st1, ss1) := Accounted(st, ss);
    (st1, ss1.(phase := Closed))
  }

  // ---- interleavings

  datatype Lane = Lane(store: Store, sessions: map<nat, Session>)

  datatype Action =
    | Connecting(key: Key)
    | Greeting
    | Heading(h: Header)
    | Checking
    | Appending(n: nat)
    | Acking
    | Ticking
    | Finishing
    | Closing

  datatype Step = Step(who: nat, action: Action)

  function Act(w: World, st: Store, ss: Session, a: Action): (Store, Session) {
    match a
    case Connecting(_) => (st, ss)
    case Greeting => Hello(st, ss)
    case Heading(h) => Claim(st, ss, h)
    case Checking => (st, Check(ss))
    case Appending(n) => Append(st, ss, n)
    case Acking => Accounted(st, ss)
    case Ticking => (st, Tick(st, ss))
    case Finishing => Finish(w, st, ss)
    case Closing => Close(st, ss)
  }

  function Next(w: World, l: Lane, s: Step): Lane {
    if s.action.Connecting? then
      if s.who in l.sessions then l else l.(sessions := l.sessions[s.who := NewSession(s.action.key)])
    else if s.who !in l.sessions then l
    else
      var (st, ss) := Act(w, l.store, l.sessions[s.who], s.action);
      Lane(st, l.sessions[s.who := ss])
  }

  function Run(w: World, l: Lane, steps: seq<Step>): Lane
    decreases |steps|
  {
    if steps == [] then l else Run(w, Next(w, l, steps[0]), steps[1..])
  }

  const EMPTY_LANE := Lane(EMPTY_STORE, map[])

  /** A phone announces the length of what it holds and sends its bytes from
      the offset it announces; which offset it announces is its own affair. */
  predicate Honest(w: World, h: Header) {
    && h.meta.total == |w.payload(h.id, h.meta)|
    && (0 <= h.off && 0 <= h.len && h.off + h.len == h.meta.total ==> h.body == w.payload(h.id, h.meta)[h.off..])
  }

  predicate HonestStep(w: World, s: Step) {
    s.action.Heading? ==> Honest(w, s.action.h)
  }

  // ---- what every run keeps

  function Total(ids: seq<Id>, parts: map<Id, Bytes>): int {
    if ids == [] then 0
    else Total(ids[..|ids| - 1], parts) + (var id := ids[|ids| - 1]; if id in parts then |parts[id]| else 0)
  }

  ghost predicate Distinct<T>(s: seq<T>) {
    forall i, j :: 0 <= i < j < |s| ==> s[i] != s[j]
  }

  /** Every stored part is a prefix of the one payload its meta file names. */
  ghost predicate PartsArePrefixes(w: World, st: Store) {
    && (forall id <- st.parts :: id in st.metas)
    && forall id <- st.metas ::
         st.metas[id].total == |w.payload(id, st.metas[id])| && Part(st, id) <= w.payload(id, st.metas[id])
  }

  /** A completed bundle is whole. */
  ghost predicate CompletesAreWhole(w: World, st: Store) {
    forall id <- st.completes ::
      && id in st.metas
      && Part(st, id) == w.payload(id, st.metas[id])
      && st.completes[id].bytes == |w.payload(id, st.metas[id])|
  }

  /** How often the log mentions a bundle. */
  function Mentions(events: seq<Event>, id: Id): nat {
    if events == [] then 0
    else Mentions(events[..|events| - 1], id) + (if events[|events| - 1].id == id then 1 else 0)
  }

  /** One event for each completed bundle and none for any other. */
  ghost predicate OneEventEach(st: Store) {
    && st.records == |st.events|
    && forall id :: Mentions(st.events, id) == if id in st.completes then 1 else 0
  }

  /** An event holds the whole payload and both verdicts on the key that
      finished it, and they are the ones recorded. */
  ghost predicate TrueEvent(w: World, st: Store, e: Event) {
    && e.id in st.metas && e.id in st.completes
    && e.payload == w.payload(e.id, st.metas[e.id])
    && e.sigOk == w.verify(e.key, st.metas[e.id].sig, e.payload)
    && e.keyMatch == w.known(e.key)
    && st.completes[e.id] == Done(e.sigOk, e.keyMatch, |e.payload|)
  }

  ghost predicate EventsTrue(w: World, st: Store) {
    forall i :: 0 <= i < |st.events| ==> TrueEvent(w, st, st.events[i])
  }

  ghost predicate CountersExact(st: Store) {
    && Distinct(st.claimed)
    && (forall id :: id in st.metas <==> id in st.claimed)
    && st.bytesCarried == Total(st.claimed, st.parts)
  }

  ghost predicate GoodStore(w: World, st: Store) {
    PartsArePrefixes(w, st) && CompletesAreWhole(w, st) && OneEventEach(st) && EventsTrue(w, st) && CountersExact(st)
  }

  /** What a session knows. Only the newest generation may trust `have`. */
  ghost predicate GoodSession(w: World, st: Store, ss: Session) {
    && ss.counted == ss.have
    && (ss.gen.Some? ==> ss.gen.value <= st.gen)
    && (ss.gen == None ==> ss.phase == Opening || ss.phase == Closed)
    && match ss.phase
       case Seen(h, stored, meta) =>
         && Honest(w, h)
         && h.id in st.metas && st.metas[h.id] == meta
         && 0 <= stored <= |w.payload(h.id, meta)|
         && (Current(st, ss) ==> stored == |Part(st, h.id)|)
       case Writing(id, meta, rest) =>
         && id in st.metas && st.metas[id] == meta
         && 0 <= ss.have <= |w.payload(id, meta)|
         && rest == w.payload(id, meta)[ss.have..]
         && (Current(st, ss) ==> ss.have == |Part(st, id)|)
       case _ => true
  }

  ghost predicate GenerationsDiffer(l: Lane) {
    forall a, b :: a in l.sessions && b in l.sessions && a != b && l.sessions[a].gen.Some? ==>
      l.sessions[a].gen != l.sessions[b].gen
  }

  ghost predicate GoodLane(w: World, l: Lane) {
    && GoodStore(w, l.store)
    && (forall k <- l.sessions :: GoodSession(w, l.store, l.sessions[k]))
    && GenerationsDiffer(l)
  }

  // ---- sums

  lemma {:induction false} TotalOutside(ids: seq<Id>, parts: map<Id, Bytes>, id: Id, v: Bytes)
    requires id !in ids
    ensures Total(ids, parts[id := v]) == Total(ids, parts)
    decreases |ids|
  {
    if ids != [] {
      TotalOutside(ids[..|ids| - 1], parts, id, v);
    }
  }

  lemma {:induction false} TotalGrown(ids: seq<Id>, parts: map<Id, Bytes>, id: Id, v: Bytes)
    requires Distinct(ids) && id in ids
    ensures Total(ids, parts[id := v]) ==
            Total(ids, parts) + |v| - (if id in parts then |parts[id]| else 0)
    decreases |ids|
  {
    var init := ids[..|ids| - 1];
    if id == ids[|ids| - 1] {
      TotalOutside(init, parts, id, v);
    } else {
      TotalGrown(init, parts, id, v);
    }
  }

  // ---- one step

  function WithMeta(st: Store, id: Id, meta: Meta): Store {
    st.(metas := st.metas[id := meta], claimed := st.claimed + [id])
  }

  lemma ClaimedPrefixes(w: World, st: Store, id: Id, meta: Meta)
    requires PartsArePrefixes(w, st) && id !in st.metas && meta.total == |w.payload(id, meta)|
    ensures PartsArePrefixes(w, WithMeta(st, id, meta))
  {
    assert id !in st.parts;
  }

  lemma ClaimedCounters(st: Store, id: Id, meta: Meta)
    requires CountersExact(st) && id !in st.metas && id !in st.parts
    ensures CountersExact(WithMeta(st, id, meta))
  {
    assert WithMeta(st, id, meta).claimed[..|st.claimed|] == st.claimed;
  }

  lemma ClaimedWhole(w: World, st: Store, id: Id, meta: Meta)
    requires CompletesAreWhole(w, st) && id !in st.metas
    ensures CompletesAreWhole(w, WithMeta(st, id, meta))
  {
  }

  lemma ClaimedEvents(w: World, st: Store, id: Id, meta: Meta)
    requires EventsTrue(w, st) && id !in st.metas
    ensures EventsTrue(w, WithMeta(st, id, meta))
  {
    forall i | 0 <= i < |st.events| ensures TrueEvent(w, WithMeta(st, id, meta), st.events[i]) {
      assert TrueEvent(w, st, st.events[i]);
    }
  }

  lemma ClaimedStoreGood(w: World, st: Store, id: Id, meta: Meta)
    requires GoodStore(w, st) && id !in st.metas && meta.total == |w.payload(id, meta)|
    ensures GoodStore(w, WithMeta(st, id, meta))
  {
    assert id !in st.parts;
    hide PartsArePrefixes, CompletesAreWhole, EventsTrue, CountersExact;
    ClaimedPrefixes(w, st, id, meta);
    ClaimedWhole(w, st, id, meta);
    ClaimedEvents(w, st, id, meta);
    ClaimedCounters(st, id, meta);
  }

  function WithData(st: Store, id: Id, data: Bytes): Store {
    st.(parts := st.parts[id := Part(st, id) + data], bytesCarried := st.bytesCarried + |data|)
  }

  lemma AppendedPrefixes(w: World, st: Store, id: Id, data: Bytes)
    requires PartsArePrefixes(w, st) && id in st.metas && Part(st, id) + data <= w.payload(id, st.metas[id])
    ensures PartsArePrefixes(w, WithData(st, id, data))
  {
    var st' := WithData(st, id, data);
    forall j | j in st'.metas
      ensures st'.metas[j].total == |w.payload(j, st'.metas[j])| && Part(st', j) <= w.payload(j, st'.metas[j])
    {
      assert j in st.metas && (j != id ==> Part(st', j) == Part(st, j));
    }
  }

  lemma AppendedWhole(w: World, st: Store, id: Id, data: Bytes)
    requires CompletesAreWhole(w, st) && id !in st.completes
    ensures CompletesAreWhole(w, WithData(st, id, data))
  {
  }

  lemma AppendedCounters(st: Store, id: Id, data: Bytes)
    requires CountersExact(st) && id in st.metas
    ensures CountersExact(WithData(st, id, data))
  {
    TotalGrown(st.claimed, st.parts, id, Part(st, id) + data);
  }

  lemma NotComplete(w: World, st: Store, id: Id, data: Bytes)
    requires CompletesAreWhole(w, st) && id in st.metas && data != []
    requires Part(st, id) + data <= w.payload(id, st.metas[id])
    ensures id !in st.completes
  {
  }

  lemma AppendedEvents(w: World, st: Store, id: Id, data: Bytes)
    requires OneEventEach(st) && EventsTrue(w, st) && id in st.metas && id !in st.completes
    ensures OneEventEach(WithData(st, id, data)) && EventsTrue(w, WithData(st, id, data))
  {
  }

  lemma AppendedStoreGood(w: World, st: Store, id: Id, data: Bytes)
    requires GoodStore(w, st) && id in st.metas && data != []
    requires Part(st, id) + data <= w.payload(id, st.metas[id])
    ensures GoodStore(w, WithData(st, id, data))
  {
    hide PartsArePrefixes, CompletesAreWhole, CountersExact, OneEventEach, EventsTrue;
    NotComplete(w, st, id, data);
    AppendedEvents(w, st, id, data);
    AppendedPrefixes(w, st, id, data);
    AppendedWhole(w, st, id, data);
    AppendedCounters(st, id, data);
  }

  lemma MentionsGrown(events: seq<Event>, e: Event)
    ensures forall id :: Mentions(events + [e], id) == Mentions(events, id) + if e.id == id then 1 else 0
  {
    assert (events + [e])[..|events|] == events;
  }

  lemma CompletedEvents(w: World, st: Store, id: Id, key: Key)
    requires EventsTrue(w, st) && id in st.metas && Part(st, id) == w.payload(id, st.metas[id]) && id !in st.completes
    ensures EventsTrue(w, Completed(w, st, id, st.metas[id], key))
  {
    var st' := Completed(w, st, id, st.metas[id], key);
    forall i | 0 <= i < |st'.events| ensures TrueEvent(w, st', st'.events[i]) {
      if i < |st.events| {
        assert TrueEvent(w, st, st.events[i]);
      }
    }
  }

  lemma CompletedOnce(w: World, st: Store, id: Id, meta: Meta, key: Key)
    requires OneEventEach(st) && id !in st.completes
    ensures OneEventEach(Completed(w, st, id, meta, key))
  {
    MentionsGrown(st.events, Completed(w, st, id, meta, key).events[|st.events|]);
  }

  lemma CompletedParts(w: World, st: Store, id: Id, key: Key)
    requires id in st.metas
    ensures var st' := Completed(w, st, id, st.metas[id], key);
      (PartsArePrefixes(w, st) ==> PartsArePrefixes(w, st')) && (CountersExact(st) ==> CountersExact(st'))
  {
  }

  lemma CompletedStoreGood(w: World, st: Store, id: Id, key: Key)
    requires GoodStore(w, st) && id in st.metas && Part(st, id) == w.payload(id, st.metas[id])
    ensures GoodStore(w, Completed(w, st, id, st.metas[id], key))
  {
    hide EventsTrue, OneEventEach, PartsArePrefixes, CountersExact;
    CompletedParts(w, st, id, key);
    if id !in st.completes {
      CompletedEvents(w, st, id, key);
      CompletedOnce(w, st, id, st.metas[id], key);
    }
  }

  /** An acting session and the store after its step. */
  ghost predicate GoodPair(w: World, r: (Store, Session)) {
    GoodStore(w, r.0) && GoodSession(w, r.0, r.1)
  }

  lemma HelloGood(w: World, st: Store, ss: Session)
    requires GoodPair(w, (st, ss))
    ensures GoodPair(w, Hello(st, ss))
  {
  }

  /** What the header section reads is the size of the part, complete or not. */
  lemma HaveIsPart(w: World, st: Store, id: Id)
    requires GoodStore(w, st)
    ensures Have(st, id) == |Part(st, id)|
    ensures id !in st.metas ==> Part(st, id) == []
  {
  }

  lemma ClaimStoreGood(w: World, st: Store, ss: Session, h: Header)
    requires GoodStore(w, st) && Honest(w, h)
    ensures GoodStore(w, Claim(st, ss, h).0)
  {
    hide GoodStore;
    if h.id !in st.metas {
      ClaimedStoreGood(w, st, h.id, h.meta);
    }
  }

  lemma ClaimSessionGood(w: World, st: Store, ss: Session, h: Header)
    requires GoodPair(w, (st, ss)) && Honest(w, h)
    ensures GoodSession(w, Claim(st, ss, h).0, Claim(st, ss, h).1)
  {
    HaveIsPart(w, st, h.id);
    if h.id in st.metas {
      assert Part(st, h.id) <= w.payload(h.id, st.metas[h.id]);
    }
    hide GoodStore, Honest, Have;
  }

  lemma ClaimGood(w: World, st: Store, ss: Session, h: Header)
    requires GoodPair(w, (st, ss)) && Honest(w, h)
    ensures GoodPair(w, Claim(st, ss, h))
  {
    hide GoodStore, GoodSession, Claim;
    ClaimStoreGood(w, st, ss, h);
    ClaimSessionGood(w, st, ss, h);
  }

  lemma CheckGood(w: World, st: Store, ss: Session)
    requires GoodSession(w, st, ss)
    ensures GoodSession(w, st, Check(ss))
  {
  }

  lemma Slices(pay: Bytes, have: nat, n: nat)
    requires have + n <= |pay|
    ensures pay[..have] + pay[have..][..n] == pay[..have + n]
    ensures pay[have..][n..] == pay[have + n..] && pay[..have + n] <= pay
  {
  }

  /** What an append that goes through does to the pair. */
  lemma AppendUnfolded(w: World, st: Store, ss: Session, n: nat)
    requires GoodSession(w, st, ss) && Append(st, ss, n).0 != st
    ensures var p := ss.phase;
      && p.Writing? && 0 < n <= |p.rest| && Current(st, ss)
      && Append(st, ss, n) == (WithData(st, p.id, p.rest[..n]),
           ss.(phase := Writing(p.id, p.wmeta, p.rest[n..]), have := ss.have + n, counted := ss.have + n))
  {
  }

  /** An append that writes nothing leaves what the session knows. */
  lemma AppendRefused(w: World, st: Store, ss: Session, n: nat)
    requires GoodSession(w, st, ss) && Append(st, ss, n).0 == st
    ensures GoodSession(w, st, Append(st, ss, n).1)
  {
  }

  lemma AppendedSessionGood(w: World, st: Store, ss: Session, n: nat)
    requires GoodSession(w, st, ss) && Append(st, ss, n).0 != st
    ensures var r := Append(st, ss, n); GoodSession(w, r.0, r.1)
  {
    AppendUnfolded(w, st, ss, n);
    var pay := w.payload(ss.phase.id, ss.phase.wmeta);
    assert |ss.phase.rest| == |pay| - ss.have;
    hide Append;
    Slices(pay, ss.have, n);
  }

  lemma WhereToAppend(w: World, st: Store, ss: Session, n: nat)
    requires GoodPair(w, (st, ss)) && Append(st, ss, n).0 != st
    ensures ss.phase.Writing?
    ensures var id, pay := ss.phase.id, w.payload(ss.phase.id, ss.phase.wmeta);
      && id in st.metas && ss.phase.wmeta == st.metas[id] && 0 < n <= |ss.phase.rest|
      && |Part(st, id)| + |ss.phase.rest| == |pay|
      && Part(st, id) == pay[..|Part(st, id)|] && ss.phase.rest == pay[|Part(st, id)|..]
      && Append(st, ss, n).0 == WithData(st, id, ss.phase.rest[..n])
  {
    AppendUnfolded(w, st, ss, n);
    hide Append;
  }

  lemma AppendGood(w: World, st: Store, ss: Session, n: nat)
    requires GoodPair(w, (st, ss))
    ensures GoodPair(w, Append(st, ss, n))
  {
    hide Append, GoodStore, GoodSession;
    if Append(st, ss, n).0 != st {
      WhereToAppend(w, st, ss, n);
      var have, pay := |Part(st, ss.phase.id)|, w.payload(ss.phase.id, ss.phase.wmeta);
      Slices(pay, have, n);
      AppendedStoreGood(w, st, ss.phase.id, ss.phase.rest[..n]);
      AppendedSessionGood(w, st, ss, n);
    } else {
      AppendRefused(w, st, ss, n);
    }
  }

  lemma FinishGood(w: World, st: Store, ss: Session)
    requires GoodPair(w, (st, ss))
    ensures GoodPair(w, Finish(w, st, ss))
  {
    if Finish(w, st, ss).0 != st {
      assert Part(st, ss.phase.id) == w.payload(ss.phase.id, ss.phase.wmeta);
      hide GoodStore;
      CompletedStoreGood(w, st, ss.phase.id, ss.key);
    }
  }

  /** Every step of a session keeps the store and the session good. */
  lemma {:induction false} ActGood(w: World, st: Store, ss: Session, a: Action)
    requires GoodPair(w, (st, ss)) && (a.Heading? ==> Honest(w, a.h))
    ensures GoodPair(w, Act(w, st, ss, a))
  {
    match a
    case Greeting => HelloGood(w, st, ss);
    case Heading(h) => ClaimGood(w, st, ss, h);
    case Checking => CheckGood(w, st, ss);
    case Appending(n) => AppendGood(w, st, ss, n);
    case Finishing => FinishGood(w, st, ss);
    case _ =>
  }

  /** Another session keeps what it knows: if the acting session wrote, it is
      the newest, so this one is not. */
  lemma {:induction false} OtherSession(w: World, st: Store, ss: Session, a: Action, other: Session)
    requires GoodStore(w, st) && GoodSession(w, st, ss) && GoodSession(w, st, other)
    requires ss.gen.Some? ==> ss.gen != other.gen
    requires a.Heading? ==> Honest(w, a.h)
    ensures var (st', ss') := Act(w, st, ss, a);
      GoodSession(w, st', other) && (ss'.gen.Some? ==> ss'.gen != other.gen)
  {
    hide PartsArePrefixes, CompletesAreWhole, OneEventEach, EventsTrue, CountersExact, Honest;
  }

  // ---- whole runs

  lemma OthersGood(w: World, l: Lane, s: Step)
    requires GoodLane(w, l) && HonestStep(w, s) && s.who in l.sessions && !s.action.Connecting?
    ensures forall k | k in l.sessions && k != s.who ::
      && GoodSession(w, Next(w, l, s).store, l.sessions[k])
      && (Next(w, l, s).sessions[s.who].gen.Some? ==> Next(w, l, s).sessions[s.who].gen != l.sessions[k].gen)
  {
    hide GoodStore, GoodSession, Act;
    forall k | k in l.sessions && k != s.who
      ensures GoodSession(w, Next(w, l, s).store, l.sessions[k])
      ensures Next(w, l, s).sessions[s.who].gen.Some? ==> Next(w, l, s).sessions[s.who].gen != l.sessions[k].gen
    {
      OtherSession(w, l.store, l.sessions[s.who], s.action, l.sessions[k]);
    }
  }

  lemma NextGood(w: World, l: Lane, s: Step)
    requires GoodLane(w, l) && HonestStep(w, s)
    ensures GoodLane(w, Next(w, l, s))
  {
    hide GoodStore, Act;
    if s.action.Connecting? {
    } else if s.who in l.sessions {
      hide GoodSession;
      ActGood(w, l.store, l.sessions[s.who], s.action);
      OthersGood(w, l, s);
    }
  }

  /** In every interleaving of any number of sessions: each stored part is a
      prefix of the payload its meta names, a completed bundle is the whole
      payload, its event was logged exactly once, and the counters are exact. */
  lemma {:induction false} RunGood(w: World, l: Lane, steps: seq<Step>)
    requires GoodLane(w, l) && forall i :: 0 <= i < |steps| ==> HonestStep(w, steps[i])
    ensures GoodLane(w, Run(w, l, steps))
    decreases |steps|
  {
    hide GoodLane;
    if steps != [] {
      NextGood(w, l, steps[0]);
      RunGood(w, Next(w, l, steps[0]), steps[1..]);
    }
  }

  lemma {:induction false} LaneSafe(w: World, steps: seq<Step>)
    requires forall i :: 0 <= i < |steps| ==> HonestStep(w, steps[i])
    ensures GoodLane(w, Run(w, EMPTY_LANE, steps))
  {
    RunGood(w, EMPTY_LANE, steps);
  }

  /** A step that changes a part is an append by a writer that is current. */
  lemma GrowsOnlyByAppend(w: World, st: Store, ss: Session, a: Action)
    requires GoodSession(w, st, ss) && Act(w, st, ss, a).0.parts != st.parts
    ensures ss.gen == Some(st.gen) && ss.phase.Writing? && ss.have == |Part(st, ss.phase.id)|
    ensures |Part(st, ss.phase.id)| < |w.payload(ss.phase.id, ss.phase.wmeta)|
    ensures ss.phase.id in st.metas && st.metas[ss.phase.id] == ss.phase.wmeta
  {
  }

  /** Only the session of the newest generation grows a part, and it grows the
      part exactly from where the part ends. */
  lemma {:induction false} OnlyNewestAppends(w: World, l: Lane, s: Step)
    requires GoodLane(w, l) && Next(w, l, s).store.parts != l.store.parts
    ensures s.who in l.sessions && l.sessions[s.who].gen == Some(l.store.gen)
    ensures var ss := l.sessions[s.who];
      && ss.phase.Writing?
      && ss.have == |Part(l.store, ss.phase.id)|
      && ss.phase.id !in l.store.completes
      && forall k | k in l.sessions && k != s.who && l.sessions[k].gen.Some? :: l.sessions[k].gen.value < l.store.gen
  {
    hide GoodStore, Act;
    assert s.who in l.sessions;
    var ss := l.sessions[s.who];
    assert GoodSession(w, l.store, ss);
    GrowsOnlyByAppend(w, l.store, ss, s.action);
    CompleteIsWhole(w, l.store, ss.phase.id);
  }

  lemma CompleteIsWhole(w: World, st: Store, id: Id)
    requires GoodStore(w, st)
    ensures id in st.completes ==> id in st.metas && Part(st, id) == w.payload(id, st.metas[id])
  {
  }

  /** Appends of the sizes `ns`, whatever pieces the network delivers. */
  function Appends(st: Store, ss: Session, ns: seq<nat>): (Store, Session)
    decreases |ns|
  {
    if ns == [] then (st, ss)
    else
      var (st1, ss1) := Append(st, ss, ns[0]);
      Appends(st1, ss1, ns[1..])
  }

  function Sum(ns: seq<nat>): nat {
    if ns == [] then 0 else ns[0] + Sum(ns[1..])
  }

  lemma {:induction false} AppendsDrain(w: World, st: Store, ss: Session, ns: seq<nat>)
    requires GoodPair(w, (st, ss)) && ss.phase.Writing? && ss.gen == Some(st.gen)
    requires (forall i :: 0 <= i < |ns| ==> 0 < ns[i]) && Sum(ns) == |ss.phase.rest|
    ensures var r := Appends(st, ss, ns);
      && GoodPair(w, r) && r.1.gen == Some(r.0.gen) && r.1.key == ss.key
      && r.1.phase == Writing(ss.phase.id, ss.phase.wmeta, [])
    decreases |ns|
  {
    if ns != [] {
      AppendGood(w, st, ss, ns[0]);
      var r := Append(st, ss, ns[0]);
      hide GoodStore;
      AppendsDrain(w, r.0, r.1, ns[1..]);
    }
  }

  /** A session that has written everything completes its bundle. */
  lemma DrainedCompletes(w: World, st: Store, ss: Session)
    requires GoodPair(w, (st, ss)) && ss.phase.Writing? && ss.phase.rest == [] && ss.gen == Some(st.gen)
    ensures var (st', ss') := Finish(w, st, ss);
      var (id, meta) := (ss.phase.id, ss.phase.wmeta);
      && GoodPair(w, (st', ss')) && ss'.phase == Idle
      && id in st'.completes && id in st'.metas && st'.metas[id] == meta
      && Part(st', id) == w.payload(id, meta)
  {
    FinishGood(w, st, ss);
  }

  /** The sections a resuming session goes through. */
  function Resumed(w: World, st: Store, ss: Session, h: Header, ns: seq<nat>): (Store, Session) {
    var (st1, ss1) := Hello(st, ss);
    var (st2, ss2) := Claim(st1, ss1, h);
    var (st3, ss3) := Appends(st2, Check(ss2), ns);
    Finish(w, st3, ss3)
  }

  /** Nobody else acting: a phone that connects and announces the offset it is
      told ends with exactly its payload stored, in whatever pieces the rest
      arrives. `StreamResume` lets the other sessions act in between. */
  lemma {:induction false} ResumedAlone(w: World, st: Store, ss: Session, h: Header, ns: seq<nat>)
    requires GoodPair(w, (st, ss)) && ss.phase == Opening
    requires Honest(w, h) && |h.meta.sig| == SIG_BYTES && h.meta.total <= BLOB_MAX_BYTES
    requires h.id in st.metas ==> st.metas[h.id] == h.meta
    requires h.off == Have(st, h.id) && h.len == h.meta.total - h.off
    requires (forall i :: 0 <= i < |ns| ==> 0 < ns[i]) && Sum(ns) == h.len
    ensures var (st', ss') := Resumed(w, st, ss, h, ns);
      && GoodPair(w, (st', ss')) && ss'.phase == Idle && h.id in st'.completes
      && Part(st', h.id) == w.payload(h.id, h.meta)
  {
    AnnouncedAlone(w, st, ss, h);
    HelloGood(w, st, ss);
    hide GoodPair, Hello, Claim, Check, Appends, Finish;
    var (st1, ss1) := Hello(st, ss);
    ClaimGood(w, st1, ss1, h);
    var (st2, ss2) := Claim(st1, ss1, h);
    CheckPair(w, st2, ss2);
    AppendsDrain(w, st2, Check(ss2), ns);
    var (st3, ss3) := Appends(st2, Check(ss2), ns);
    DrainedCompletes(w, st3, ss3);
  }

  lemma CheckPair(w: World, st: Store, ss: Session)
    requires GoodPair(w, (st, ss))
    ensures GoodPair(w, (st, Check(ss)))
  {
    CheckGood(w, st, ss);
  }

  /** The announced offset passes the check outside the lock. */
  lemma {:induction false} AnnouncedAlone(w: World, st: Store, ss: Session, h: Header)
    requires GoodPair(w, (st, ss)) && ss.phase == Opening
    requires Honest(w, h) && |h.meta.sig| == SIG_BYTES && h.meta.total <= BLOB_MAX_BYTES
    requires h.id in st.metas ==> st.metas[h.id] == h.meta
    requires h.off == Have(st, h.id) && h.len == h.meta.total - h.off
    ensures var (st1, ss1) := Hello(st, ss);
      var (st2, ss2) := Claim(st1, ss1, h);
      && Check(ss2).phase == Writing(h.id, h.meta, h.body) && |h.body| == h.len
      && Check(ss2).gen == Some(st2.gen)
  {
    HaveIsPart(w, st, h.id);
    if h.id in st.metas {
      assert Part(st, h.id) <= w.payload(h.id, st.metas[h.id]);
    }
  }
}
