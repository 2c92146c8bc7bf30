/** What each step of a relay lane does with its frames, within which caps. */
module RelayLaws {
  import opened Wrappers
  import opened Sequences
  import opened RelayLanes
  import opened RelayOrder

  /** All bytes of a queue. */
  function Held(q: seq<Frame>): nat {
    if q == [] then 0 else Held(q[..|q| - 1]) + |q[|q| - 1].data|
  }

  /** 256 frames and 4 MiB. */
  predicate Within(q: seq<Frame>) {
    |q| <= 256 && Held(q) <= 4_194_304
  }

  lemma {:induction false} HeldIsSize(q: seq<Frame>)
    ensures Held(q) == Size(q)
    decreases |q|
  {
    if q != [] {
      var init, last := q[..|q| - 1], q[|q| - 1];
      HeldIsSize(init);
      SizeSplit(init, [last]);
      assert q == init + [last] && [last][1..] == [];
    }
  }

  lemma WithinIs(q: seq<Frame>)
    ensures Within(q) <==> Fits(q)
  {
    HeldIsSize(q);
  }

  /** A frame that is queued: the queue becomes the longest end of it, with the frame
      last, that is within the caps; what is cut off is dropped, and nothing is
      handed out. */
  lemma {:induction false} Queues(l: Lane, f: Frame)
    ensures var r, full := Enqueue(l, f), l.inbox + [f];
      && Within(r.lane.inbox) && r.dropped + r.lane.inbox == full
      && (forall k :: 0 <= k < |r.dropped| ==> !Within(full[k..]))
      && r.handed == [] && r.lane.socket == l.socket
  {
    hide Fits;
    var full := l.inbox + [f];
    var k := Kept(full);
    WithinIs(k);
    CutAt(full, |full| - |k|);
    forall i | 0 <= i < |full| - |k| ensures !Within(full[i..]) {
      WithinIs(full[i..]);
      KeptLongest(full, i);
    }
  }

  /** A frame goes down the socket if there is one and it takes the frame; a socket
      that refuses is given up and the frame is queued. */
  lemma {:induction false} Delivers(l: Lane, f: Frame, ok: bool)
    ensures l.socket.Some? && ok ==> Deliver(l, f, ok) == Outcome(l, [f], [])
    ensures l.socket == None || !ok ==> Deliver(l, f, ok) == Enqueue(Lane(None, l.inbox), f)
  {
  }

  /** A socket that closes is given up only if it is the one attached; a poll hands out
      everything and keeps the socket. */
  lemma {:induction false} ClosesAndPolls(l: Lane, socket: nat)
    ensures Closed(l, socket).inbox == l.inbox
    ensures Closed(l, socket).socket == if l.socket.Some? && l.socket.value == socket then None else l.socket
    ensures Take(l) == Outcome(Lane(l.socket, []), l.inbox, [])
  {
  }

  /** A new socket takes over: what it refuses of the backlog is queued again behind
      it, and nothing is dropped, since it all fitted before. */
  lemma {:induction false} Attaches(l: Lane, socket: nat, oks: nat -> bool)
    requires Fits(l.inbox)
    ensures var r := Attach(l, socket, oks);
      && r.lane.socket == Some(socket) && r.dropped == []
      && r.handed == Picked(l.inbox, oks, true) && r.lane.inbox == Picked(l.inbox, oks, false)
  {
    NoMore(l.inbox);
    FlushSplits(Lane(Some(socket), []), l.inbox, oks, 0);
    NoMore(Refused(l.inbox, oks, 0));
    PickedAll(l.inbox, oks);
  }

  /** The frames whose send succeeded, or failed, in order. */
  function Picked(q: seq<Frame>, oks: nat -> bool, ok: bool): seq<Frame> {
    if q == [] then []
    else Picked(q[..|q| - 1], oks, ok) + if oks(|q| - 1) == ok then [q[|q| - 1]] else []
  }

  lemma {:induction false} PickedMore(q: seq<Frame>, f: Frame, oks: nat -> bool, i: nat)
    ensures Taken(q + [f], oks, i) == Taken(q, oks, i) + if oks(i + |q|) then [f] else []
    ensures Refused(q + [f], oks, i) == Refused(q, oks, i) + if oks(i + |q|) then [] else [f]
    decreases |q|
  {
    var all := q + [f];
    if q == [] {
      assert all == [f] && [f][1..] == [];
    } else {
      PickedMore(q[1..], f, oks, i + 1);
      assert all[1..] == q[1..] + [f];
    }
  }

  lemma {:induction false} PickedAll(q: seq<Frame>, oks: nat -> bool)
    ensures Taken(q, oks, 0) == Picked(q, oks, true) && Refused(q, oks, 0) == Picked(q, oks, false)
    decreases |q|
  {
    if q != [] {
      PickedAll(q[..|q| - 1], oks);
      PickedMore(q[..|q| - 1], q[|q| - 1], oks, 0);
      assert q == q[..|q| - 1] + [q[|q| - 1]];
    }
  }

  /** On every run the queue is within the caps, and a socket is attached exactly when
      the last that came has neither closed nor failed since. */
  lemma {:induction false} AlwaysWithin(events: seq<Event>)
    ensures Within(Run(events).lane.inbox)
    ensures Run(events).lane.socket == Attached(events)
    decreases |events|
  {
    hide Fits, Kept, Flush, Within;
    if events == [] {
      NothingHeld();
    } else {
      var t, e := Run(events[..|events| - 1]), events[|events| - 1];
      AlwaysWithin(events[..|events| - 1]);
      StepWithin(t, e);
    }
  }

  lemma NothingHeld()
    ensures Within([])
  {
  }

  /** The socket by the run's history alone. */
  function Attached(events: seq<Event>): Option<nat> {
    if events == [] then None
    else
      var before := Attached(events[..|events| - 1]);
      match events[|events| - 1]
      case Send(_, ok) => if ok then before else None
      case Connect(socket, _) => Some(socket)
      case Close(socket) => if before == Some(socket) then None else before
      case Poll => before
  }

  lemma StepWithin(t: Trace, e: Event)
    requires Within(t.lane.inbox)
    ensures Within(Step(t, e).lane.inbox)
    ensures Step(t, e).lane.socket ==
      match e
      case Send(_, ok) => if ok then t.lane.socket else None
      case Connect(socket, _) => Some(socket)
      case Close(socket) => if t.lane.socket == Some(socket) then None else t.lane.socket
      case Poll => t.lane.socket
  {
    hide Fits, Kept, Flush, Within;
    match e
    case Send(data, ok) =>
      Queues(Lane(None, t.lane.inbox), Frame(|t.sent|, data));
    case Connect(socket, oks) =>
      WithinIs(t.lane.inbox);
      Attaches(t.lane, socket, oks);
      EmptyFits();
      FlushFits(Lane(Some(socket), []), t.lane.inbox, oks, 0);
      WithinIs(Step(t, e).lane.inbox);
    case Close(socket) =>
    case Poll => NothingHeld();
  }

  lemma {:induction false} FlushFits(l: Lane, frames: seq<Frame>, oks: nat -> bool, i: nat)
    requires Fits(l.inbox)
    ensures Fits(Flush(l, frames, oks, i).lane.inbox)
    decreases |frames|
  {
    hide Fits, Kept;
    if frames != [] {
      FlushFits(l, frames[1..], oks, i + 1);
      FlushFits(Enqueue(l, frames[0]).lane, frames[1..], oks, i + 1);
    }
  }
}
