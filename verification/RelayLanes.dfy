/** One direction of a relay session: a socket that may die, and a bounded
    queue that drops its oldest frames. */
module RelayLanes {
  import opened Wrappers
  import opened Sequences

  /** `number` is the frame's place among the frames sent this way. */
  datatype Frame = Frame(number: nat, data: seq<byte>)

  datatype Lane = Lane(socket: Option<nat>, inbox: seq<Frame>)

  /** What a step leaves, hands to the peer, and drops. */
  datatype Outcome = Outcome(lane: Lane, handed: seq<Frame>, dropped: seq<Frame>)

  const MAX_QUEUED_FRAMES := 256
  const MAX_QUEUED_BYTES := 4 * 1024 * 1024

  function Size(q: seq<Frame>): nat {
    if q == [] then 0 else |q[0].data| + Size(q[1..])
  }

  predicate Fits(q: seq<Frame>) {
    |q| <= MAX_QUEUED_FRAMES && Size(q) <= MAX_QUEUED_BYTES
  }

  /** What dropping from the front leaves. */
  function Kept(q: seq<Frame>): (k: seq<Frame>)
    ensures |k| <= |q| && q[|q| - |k|..] == k && Fits(k)
  {
    if Fits(q) then q else Kept(q[1..])
  }

  function Enqueue(l: Lane, f: Frame): Outcome {
    var q := l.inbox + [f];
    Outcome(l.(inbox := Kept(q)), [], q[..|q| - |Kept(q)|])
  }

  /** `ok` says whether the socket, if there is one, takes the frame. */
  function Deliver(l: Lane, f: Frame, ok: bool): Outcome {
    if l.socket.Some? && ok then Outcome(l, [f], []) else Enqueue(l.(socket := None), f)
  }

  /** The backlog goes down the socket; a frame it refuses is queued again. */
  function Flush(l: Lane, frames: seq<Frame>, oks: nat -> bool, i: nat): Outcome
    decreases |frames|
  {
    if frames == [] then Outcome(l, [], [])
    else if oks(i) then
      var r := Flush(l, frames[1..], oks, i + 1);
      r.(handed := [frames[0]] + r.handed)
    else
      var e := Enqueue(l, frames[0]);
      var r := Flush(e.lane, frames[1..], oks, i + 1);
      r.(dropped := e.dropped + r.dropped)
  }

  function Attach(l: Lane, socket: nat, oks: nat -> bool): Outcome {
    Flush(Lane(Some(socket), []), l.inbox, oks, 0)
  }

  function Closed(l: Lane, socket: nat): Lane {
    if l.socket == Some(socket) then l.(socket := None) else l
  }

  function Take(l: Lane): Outcome {
    Outcome(l.(inbox := []), l.inbox, [])
  }

  // ---- the queue

  lemma {:induction false} SizeSplit(a: seq<Frame>, b: seq<Frame>)
    ensures Size(a + b) == Size(a) + Size(b)
    decreases |a|
  {
    if a == [] {
      assert a + b == b;
    } else {
      SizeSplit(a[1..], b);
      assert (a + b)[1..] == a[1..] + b;
    }
  }

  /** Only what has to go is dropped: no longer tail of the queue fits. */
  lemma {:induction false} KeptLongest(q: seq<Frame>, k: nat)
    requires k < |q| - |Kept(q)|
    ensures !Fits(q[k..])
    decreases |q|
  {
    if k != 0 {
      KeptLongest(q[1..], k - 1);
      assert q[1..][k - 1..] == q[k..];
    } else {
      assert q[0..] == q;
    }
  }

  lemma KeptAll(q: seq<Frame>)
    ensures Fits(q) ==> Kept(q) == q
  {
  }

  // ---- runs

  datatype Event =
    | Send(data: seq<byte>, ok: bool)
    | Connect(socket: nat, oks: nat -> bool)
    | Close(socket: nat)
    | Poll

  /** `broken`: the socket in place has already refused a frame. */
  datatype Trace = Trace(lane: Lane, broken: bool, sent: seq<Frame>, handed: seq<Frame>, dropped: seq<Frame>)

  function Step(t: Trace, e: Event): Trace {
    match e
    case Send(data, ok) =>
      var f := Frame(|t.sent|, data);
      var r := Deliver(t.lane, f, ok);
      Trace(r.lane, t.broken && r.lane.socket.Some?, t.sent + [f], t.handed + r.handed, t.dropped + r.dropped)
    case Connect(socket, oks) =>
      var r := Attach(t.lane, socket, oks);
      Trace(r.lane, r.lane.inbox != [], t.sent, t.handed + r.handed, t.dropped + r.dropped)
    case Close(socket) =>
      var l := Closed(t.lane, socket);
      t.(lane := l, broken := t.broken && l.socket.Some?)
    case Poll =>
      var r := Take(t.lane);
      t.(lane := r.lane, handed := t.handed + r.handed)
  }

  function Run(events: seq<Event>): Trace {
    if events == [] then Trace(Lane(None, []), false, [], [], [])
    else Step(Run(events[..|events| - 1]), events[|events| - 1])
  }

  // ---- on every run: the caps hold and no frame is lost unaccounted

  function Count(q: seq<Frame>, x: Frame): nat {
    if q == [] then 0 else (if q[0] == x then 1 else 0) + Count(q[1..], x)
  }

  lemma {:induction false} CountSplit(a: seq<Frame>, b: seq<Frame>, x: Frame)
    ensures Count(a + b, x) == Count(a, x) + Count(b, x)
    decreases |a|
  {
    if a == [] {
      assert a + b == b;
    } else {
      CountSplit(a[1..], b, x);
      assert (a + b)[1..] == a[1..] + b;
    }
  }

  lemma CountOne(f: Frame, x: Frame)
    ensures Count([f], x) == if f == x then 1 else 0
  {
    assert [f][1..] == [];
    assert Count([f][1..], x) == 0;
  }

  /** Every frame sent was handed out, dropped, or is still queued. */
  ghost predicate Balanced(t: Trace, x: Frame) {
    Count(t.handed, x) + Count(t.dropped, x) + Count(t.lane.inbox, x) == Count(t.sent, x)
  }

  lemma EnqueueBalanced(l: Lane, f: Frame, x: Frame)
    ensures var r := Enqueue(l, f);
      && r.handed == [] && Fits(r.lane.inbox) && r.lane.socket == l.socket
      && Count(r.dropped, x) + Count(r.lane.inbox, x) == Count(l.inbox, x) + (if f == x then 1 else 0)
  {
    hide Count, Fits;
    var q := l.inbox + [f];
    var n := |q| - |Kept(q)|;
    CutAt(q, n);
    CountSplit(q[..n], q[n..], x);
    CountSplit(l.inbox, [f], x);
    CountOne(f, x);
  }

  lemma FlushCons(l: Lane, f: Frame, rest: seq<Frame>, oks: nat -> bool, i: nat)
    ensures Flush(l, [f] + rest, oks, i) ==
      if oks(i) then
        var r := Flush(l, rest, oks, i + 1); r.(handed := [f] + r.handed)
      else
        var e := Enqueue(l, f);
        var r := Flush(e.lane, rest, oks, i + 1); r.(dropped := e.dropped + r.dropped)
  {
    hide Enqueue;
    assert ([f] + rest)[1..] == rest;
  }

  lemma FlushNone(l: Lane, oks: nat -> bool, i: nat)
    ensures Flush(l, [], oks, i) == Outcome(l, [], [])
  {
  }

  lemma {:induction false} FlushBalanced(l: Lane, frames: seq<Frame>, oks: nat -> bool, i: nat, x: Frame)
    requires Fits(l.inbox)
    ensures var r := Flush(l, frames, oks, i);
      && Fits(r.lane.inbox)
      && Count(r.handed, x) + Count(r.dropped, x) + Count(r.lane.inbox, x) == Count(l.inbox, x) + Count(frames, x)
    decreases |frames|
  {
    hide Enqueue, Fits, Flush;
    if frames == [] {
      FlushNone(l, oks, i);
    } else {
      var f, rest := frames[0], frames[1..];
      assert frames == [f] + rest;
      FlushCons(l, f, rest, oks, i);
      if oks(i) {
        FlushBalanced(l, rest, oks, i + 1, x);
        CountSplit([f], Flush(l, rest, oks, i + 1).handed, x);
        CountOne(f, x);
      } else {
        var e := Enqueue(l, f);
        EnqueueBalanced(l, f, x);
        FlushBalanced(e.lane, rest, oks, i + 1, x);
        CountSplit(e.dropped, Flush(e.lane, rest, oks, i + 1).dropped, x);
      }
    }
  }

  lemma SendBalanced(t: Trace, data: seq<byte>, ok: bool, x: Frame)
    requires Balanced(t, x) && Fits(t.lane.inbox)
    ensures Balanced(Step(t, Send(data, ok)), x) && Fits(Step(t, Send(data, ok)).lane.inbox)
  {
    hide Enqueue, Count, Fits;
    var f := Frame(|t.sent|, data);
    var r := Deliver(t.lane, f, ok);
    EnqueueBalanced(t.lane.(socket := None), f, x);
    CountSplit(t.sent, [f], x);
    CountOne(f, x);
    CountSplit(t.handed, r.handed, x);
    CountSplit(t.dropped, r.dropped, x);
    CountNone(x);
  }

  lemma CountNone(x: Frame)
    ensures Count([], x) == 0
  {
  }

  lemma StepBalanced(t: Trace, e: Event, x: Frame)
    requires Balanced(t, x) && Fits(t.lane.inbox)
    ensures Balanced(Step(t, e), x) && Fits(Step(t, e).lane.inbox)
  {
    hide Deliver, Flush, Count, Fits;
    CountNone(x);
    match e
    case Send(data, ok) =>
      SendBalanced(t, data, ok, x);
    case Connect(socket, oks) =>
      EmptyFits();
      var l := Lane(Some(socket), []);
      FlushBalanced(l, t.lane.inbox, oks, 0, x);
      CountSplit(t.handed, Flush(l, t.lane.inbox, oks, 0).handed, x);
      CountSplit(t.dropped, Flush(l, t.lane.inbox, oks, 0).dropped, x);
    case Close(socket) =>
    case Poll =>
      EmptyFits();
      CountSplit(t.handed, t.lane.inbox, x);
  }

  /** Whatever the sockets do, both caps hold and every frame sent was handed
      out, dropped, or is still queued, as often as it was sent. */
  lemma {:induction false} NothingUnaccounted(events: seq<Event>, x: Frame)
    ensures Balanced(Run(events), x) && Fits(Run(events).lane.inbox)
    decreases |events|
  {
    hide Step, Fits;
    if events == [] {
      EmptyFits();
    } else {
      NothingUnaccounted(events[..|events| - 1], x);
      StepBalanced(Run(events[..|events| - 1]), events[|events| - 1], x);
    }
  }

  lemma EmptyFits()
    ensures Fits([])
  {
  }
}
