/** Ack-gated sessions: state grows only from acknowledged blocks. */
module Sessions {
  import opened Wrappers
  import opened FreqTables
  import opened RowModels
  import opened Codec
  import opened BlockCodec
  import opened Persistence

  /** The two fields of a `Session`. */
  datatype Peer = Peer(committed: State, pending: Option<State>)

  predicate GoodPeer(p: Peer) {
    GoodState(p.committed) && (p.pending.Some? ==> GoodState(p.pending.value))
  }

  function EncodeBlock(p: Peer, cols: seq<Column>): (r: (Peer, seq<byte>))
    requires GoodPeer(p) && AreColumns(p.committed.nRows, cols)
    ensures GoodPeer(r.0)
  {
    (p.(pending := Some(Taught(p.committed, cols))), Encoded(cols, p.committed))
  }

  /** A block that cannot be decoded raises before the pending state is
      replaced. */
  function DecodeBlock(p: Peer, data: seq<byte>, n: nat): (r: (Peer, Outcome))
    requires GoodPeer(p)
    ensures GoodPeer(r.0)
  {
    var o := Decoded(data, n, p.committed);
    (if o.Block? then p.(pending := Some(o.st)) else p, o)
  }

  /** None is the source's RuntimeError. */
  function Commit(p: Peer): (o: Option<Peer>)
    requires GoodPeer(p)
    ensures o.Some? ==> GoodPeer(o.value)
  {
    if p.pending.None? then None else Some(Peer(p.pending.value, None))
  }

  function Rollback(p: Peer): Peer {
    p.(pending := None)
  }

  /** A new session on what was saved, as after a restart between calls. */
  ghost function Reloaded(p: Peer): Option<Peer> {
    match Loaded(Saved(p.committed))
    case None => None
    case Some(st) => Some(Peer(st, None))
  }

  // ---- a conversation over a lossy path

  /** What happens to one block: it never arrives and the sender rolls back; or
      it arrives, and both ends roll back, both commit, or only one commits, as
      when an acknowledgement is lost. */
  datatype Fate = Lost | Discarded | Delivered | SenderOnly | ReceiverOnly

  predicate SenderCommits(fate: Fate) {
    fate == Delivered || fate == SenderOnly
  }

  predicate ReceiverCommits(fate: Fate) {
    fate == Delivered || fate == ReceiverOnly
  }

  datatype Event = Send(cols: seq<Column>, fate: Fate) | ReloadSender | ReloadReceiver

  datatype Link = Link(sender: Peer, receiver: Peer)

  predicate GoodLink(l: Link) {
    GoodPeer(l.sender) && GoodPeer(l.receiver)
  }

  /** What one event leaves behind: the link, and the receiver's outcome when
      bytes arrived. */
  datatype Reply = Reply(link: Link, outcome: Option<Outcome>)

  /** None where the source would raise: a commit without a pending block, or
      a saved state that does not load. */
  ghost function Exchange(l: Link, b: Event): (r: Option<Reply>)
    requires GoodLink(l)
    requires b.Send? ==> AreColumns(l.sender.committed.nRows, b.cols)
  {
    match b
    case ReloadSender =>
      var p := Reloaded(l.sender);
      if p.None? then None else Some(Reply(l.(sender := p.value), None))
    case ReloadReceiver =>
      var p := Reloaded(l.receiver);
      if p.None? then None else Some(Reply(l.(receiver := p.value), None))
    case Send(cols, fate) =>
      var (s1, data) := EncodeBlock(l.sender, cols);
      if fate == Lost then Some(Reply(Link(Rollback(s1), l.receiver), None))
      else
        var (r1, o) := DecodeBlock(l.receiver, data, |cols|);
        var s2 := if SenderCommits(fate) then Commit(s1) else Some(Rollback(s1));
        var r2 := if ReceiverCommits(fate) then Commit(r1) else Some(Rollback(r1));
        if s2.None? || r2.None? then None else Some(Reply(Link(s2.value, r2.value), Some(o)))
  }

  predicate Sendable(nRows: nat, events: seq<Event>) {
    forall i :: 0 <= i < |events| && events[i].Send? ==> AreColumns(nRows, events[i].cols)
  }

  function Lesson(st: State, b: Event): (r: State)
    requires GoodState(st) && (b.Send? ==> AreColumns(st.nRows, b.cols))
    ensures GoodState(r) && r.nRows == st.nRows
  {
    if b.Send? && b.fate == Delivered then Taught(st, b.cols) else st
  }

  /** What a committed state should be after a schedule: the lessons of the
      delivered blocks only, in order. */
  function Lessons(st: State, events: seq<Event>): (r: State)
    requires GoodState(st) && Sendable(st.nRows, events)
    ensures GoodState(r) && r.nRows == st.nRows
    decreases |events|
  {
    if events == [] then st else Lessons(Lesson(st, events[0]), events[1..])
  }

  predicate InStep(l: Link, st: State) {
    GoodLink(l) && l.sender.committed == st && l.receiver.committed == st
  }

  /** Both ends hold the same lesson pending once a block arrived. */
  lemma BothPend(l: Link, st: State, cols: seq<Column>)
    requires InStep(l, st) && AreColumns(st.nRows, cols)
    ensures var data := EncodeBlock(l.sender, cols).1;
      DecodeBlock(l.receiver, data, |cols|) == (Peer(st, Some(Taught(st, cols))), Block(cols, Taught(st, cols)))
    ensures EncodeBlock(l.sender, cols).0 == Peer(st, Some(Taught(st, cols)))
  {
    hide GoodState;
    BlockRoundTrip(cols, st);
  }

  function Settled(st: State, cols: seq<Column>, commits: bool): Peer
    requires GoodState(st) && AreColumns(st.nRows, cols)
  {
    Peer(if commits then Taught(st, cols) else st, None)
  }

  lemma SendInStep(l: Link, st: State, cols: seq<Column>, fate: Fate)
    requires InStep(l, st) && AreColumns(st.nRows, cols)
    ensures Exchange(l, Send(cols, fate)) == Some(
      if fate == Lost then Reply(Link(Settled(st, cols, false), l.receiver), None)
      else
        Reply(Link(Settled(st, cols, SenderCommits(fate)), Settled(st, cols, ReceiverCommits(fate))),
              Some(Block(cols, Taught(st, cols)))))
  {
    hide GoodState, AreColumns, Taught, EncodeBlock, DecodeBlock;
    BothPend(l, st, cols);
  }

  lemma ReloadedSame(p: Peer, st: State)
    requires GoodState(st) && p.committed == st
    ensures Reloaded(p) == Some(Peer(st, None))
  {
    hide GoodState, Loaded, Saved;
    StateRoundTrip(st);
  }

  predicate Equal(l: Link) {
    l.sender.committed == l.receiver.committed
  }

  /** The guard of a block only one end commits: it teaches nothing. */
  predicate Harmless(st: State, b: Event)
    requires GoodState(st) && (b.Send? ==> AreColumns(st.nRows, b.cols))
  {
    b.Send? && (b.fate == SenderOnly || b.fate == ReceiverOnly) ==> Taught(st, b.cols) == st
  }

  /** One event between ends in step: no end raises, a block that arrives
      decodes exactly, and the committed states are equal again if and only if
      a block only one end commits teaches nothing. */
  lemma {:induction false} ExchangeInStep(l: Link, st: State, b: Event)
    requires InStep(l, st) && (b.Send? ==> AreColumns(st.nRows, b.cols))
    ensures Exchange(l, b).Some?
    ensures Equal(Exchange(l, b).value.link) <==> Harmless(st, b)
    ensures Harmless(st, b) ==> InStep(Exchange(l, b).value.link, Lesson(st, b))
    ensures b.Send? && b.fate != Lost ==> Exchange(l, b).value.outcome == Some(Block(b.cols, Taught(st, b.cols)))
  {
    hide GoodState, AreColumns, Loaded, Saved, Taught, EncodeBlock, DecodeBlock;
    if b.Send? {
      SendInStep(l, st, b.cols, b.fate);
    } else {
      ReloadedSame(l.sender, st);
      ReloadedSame(l.receiver, st);
    }
  }

  // ---- what a one-sided commit teaches

  /** A column of the dictionary leaves it as it is; a new one makes it longer. */
  lemma StepGrows(st: State, c: Cursor, col: Column)
    requires GoodState(st) && GoodCursor(c, st.nRows) && IsColumn(st.nRows, col)
    ensures var d, r := st.dict, Step(st, c, col).0.dict;
      && |d.cols| <= |r.cols|
      && (col in d.byCol ==> r.byCol == d.byCol && r.cols == d.cols)
      && (col !in d.byCol && |d.cols| < MAX_DICT_ENTRIES ==> |d.cols| < |r.cols|)
  {
    hide GoodDict, IdTable, GoodRows, RowsLearned, Added;
    PreparedGood(st, c);
  }

  lemma {:induction false} WalkedGrows(st: State, c: Cursor, cols: seq<Column>)
    requires GoodState(st) && GoodCursor(c, st.nRows) && AreColumns(st.nRows, cols)
    ensures |st.dict.cols| <= |Walked(st, c, cols).dict.cols|
    ensures (exists i :: 0 <= i < |cols| && cols[i] !in st.dict.byCol) && |st.dict.cols| < MAX_DICT_ENTRIES ==>
      |st.dict.cols| < |Walked(st, c, cols).dict.cols|
    decreases |cols|
  {
    hide GoodState, Step;
    if cols != [] {
      var (st', c') := Step(st, c, cols[0]);
      StepGrows(st, c, cols[0]);
      WalkedGrows(st', c', cols[1..]);
      if i :| 0 <= i < |cols| && cols[i] !in st.dict.byCol {
        if i != 0 {
          assert cols[1..][i - 1] == cols[i];
        }
      }
    }
  }

  /** So a one-sided commit of a block with a new column, while the dictionary
      has room, puts the ends out of step. */
  lemma {:induction false} NewColumnDrifts(l: Link, st: State, b: Event, i: nat)
    requires InStep(l, st) && b.Send? && AreColumns(st.nRows, b.cols)
    requires b.fate == SenderOnly || b.fate == ReceiverOnly
    requires i < |b.cols| && b.cols[i] !in st.dict.byCol && |st.dict.cols| < MAX_DICT_ENTRIES
    ensures Exchange(l, b).Some? && !Equal(Exchange(l, b).value.link)
  {
    hide GoodState, Exchange, Walked;
    WalkedGrows(st, START, b.cols);
    ExchangeInStep(l, st, b);
  }

  /** No end ever raises, and every block that arrives decodes exactly. */
  ghost predicate AllExact(l: Link, events: seq<Event>)
    requires GoodLink(l)
    decreases |events|
  {
    events != [] ==>
      var b := events[0];
      && (b.Send? ==> AreColumns(l.sender.committed.nRows, b.cols))
      && Exchange(l, b).Some?
      && var r := Exchange(l, b).value;
      && (b.Send? && b.fate != Lost ==> r.outcome.Some? && r.outcome.value.Block? && r.outcome.value.cols == b.cols)
      && GoodLink(r.link)
      && AllExact(r.link, events[1..])
  }

  ghost function Final(l: Link, events: seq<Event>): Link
    requires GoodLink(l) && AllExact(l, events)
    decreases |events|
  {
    if events == [] then l else Final(Exchange(l, events[0]).value.link, events[1..])
  }

  /** After every event the committed states are equal. */
  ghost predicate AlwaysEqual(l: Link, events: seq<Event>)
    requires GoodLink(l)
    decreases |events|
  {
    events != [] ==>
      var b := events[0];
      && (b.Send? ==> AreColumns(l.sender.committed.nRows, b.cols))
      && Exchange(l, b).Some?
      && Equal(Exchange(l, b).value.link)
      && GoodLink(Exchange(l, b).value.link)
      && AlwaysEqual(Exchange(l, b).value.link, events[1..])
  }

  predicate AllHarmless(st: State, events: seq<Event>)
    requires GoodState(st) && Sendable(st.nRows, events)
    decreases |events|
  {
    events != [] ==> Harmless(st, events[0]) && AllHarmless(Lesson(st, events[0]), events[1..])
  }

  /** Over every schedule of losses, one-sided commits and restarts the ends are
      equal after every event if and only if each block that only one end
      commits teaches nothing; and then every block that arrives decodes exactly
      and both have learned exactly the delivered blocks. */
  lemma {:induction false} ScheduleInStep(l: Link, st: State, events: seq<Event>)
    requires InStep(l, st) && Sendable(st.nRows, events)
    ensures AlwaysEqual(l, events) <==> AllHarmless(st, events)
    ensures AllHarmless(st, events) ==> AllExact(l, events) && InStep(Final(l, events), Lessons(st, events))
    decreases |events|
  {
    hide GoodState, Exchange, Harmless, Taught;
    if events != [] {
      ExchangeInStep(l, st, events[0]);
      if Harmless(st, events[0]) {
        ScheduleInStep(Exchange(l, events[0]).value.link, Lesson(st, events[0]), events[1..]);
      }
    }
  }

  /** No block is committed by one end only. */
  predicate TwoSided(events: seq<Event>) {
    forall i :: 0 <= i < |events| && events[i].Send? ==> events[i].fate != SenderOnly && events[i].fate != ReceiverOnly
  }

  lemma {:induction false} TwoSidedHarmless(st: State, events: seq<Event>)
    requires GoodState(st) && Sendable(st.nRows, events) && TwoSided(events)
    ensures AllHarmless(st, events)
    decreases |events|
  {
    hide GoodState, Taught;
    if events != [] {
      TwoSidedHarmless(Lesson(st, events[0]), events[1..]);
    }
  }

  /** The same for two new sessions; with no one-sided commit they stay in step
      through every schedule of losses, rejections, deliveries and restarts. */
  lemma {:induction false} ConversationInStep(nRows: nat, events: seq<Event>)
    requires Sendable(nRows, events)
    ensures GoodState(FreshState(nRows))
    ensures var st := FreshState(nRows); var begin := Link(Peer(st, None), Peer(st, None));
      && (AlwaysEqual(begin, events) <==> AllHarmless(st, events))
      && (TwoSided(events) ==> AllHarmless(st, events))
      && (AllHarmless(st, events) ==> AllExact(begin, events) && InStep(Final(begin, events), Lessons(st, events)))
  {
    hide AllExact, AlwaysEqual, AllHarmless, Final, Lessons, GoodState, TwoSided;
    FreshStateGood(nRows);
    var st := FreshState(nRows);
    if TwoSided(events) {
      TwoSidedHarmless(st, events);
    }
    ScheduleInStep(Link(Peer(st, None), Peer(st, None)), st, events);
  }
}
