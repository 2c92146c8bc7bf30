/** When a relay lane keeps its frames in order: exactly when no flush takes a
    frame after refusing one, and no frame passes a queue. A socket that has
    thrown and keeps throwing does neither. */
module RelayOrder {
  import opened Wrappers
  import opened Sequences
  import opened RelayLanes

  ghost predicate Rising(q: seq<Frame>) {
    forall i, j :: 0 <= i < j < |q| ==> q[i].number < q[j].number
  }

  /** Of the `n` sends from the `i`-th on, none succeeds after one that failed. */
  ghost predicate SteadyOver(oks: nat -> bool, i: nat, n: nat) {
    forall a, b :: i <= a < b < i + n && !oks(a) ==> !oks(b)
  }

  // ---- one flush

  function Taken(frames: seq<Frame>, oks: nat -> bool, i: nat): seq<Frame>
    decreases |frames|
  {
    if frames == [] then [] else (if oks(i) then [frames[0]] else []) + Taken(frames[1..], oks, i + 1)
  }

  function Refused(frames: seq<Frame>, oks: nat -> bool, i: nat): seq<Frame>
    decreases |frames|
  {
    if frames == [] then [] else (if oks(i) then [] else [frames[0]]) + Refused(frames[1..], oks, i + 1)
  }

  lemma PrefixFits(q: seq<Frame>, rest: seq<Frame>)
    requires Fits(q + rest)
    ensures Fits(q) && Fits(rest)
  {
    SizeSplit(q, rest);
  }

  /** Leaving out a frame in the middle. */
  lemma WithoutFits(q: seq<Frame>, f: Frame, rest: seq<Frame>)
    requires Fits(q + ([f] + rest))
    ensures Fits(q + rest) && Fits(q + [f])
  {
    SizeSplit(q, [f] + rest);
    SizeSplit([f], rest);
    SizeSplit(q, rest);
    SizeSplit(q, [f]);
  }

  lemma EnqueueAll(l: Lane, f: Frame)
    requires Fits(l.inbox + [f])
    ensures Enqueue(l, f) == Outcome(l.(inbox := l.inbox + [f]), [], [])
  {
  }

  /** A flush splits a backlog within the caps into what the socket takes and
      what is queued again, each in the order it had. */
  lemma {:induction false} FlushSplits(l: Lane, frames: seq<Frame>, oks: nat -> bool, i: nat)
    requires Fits(l.inbox + frames)
    ensures Flush(l, frames, oks, i) ==
      Outcome(l.(inbox := l.inbox + Refused(frames, oks, i)), Taken(frames, oks, i), [])
    decreases |frames|
  {
    hide Flush, Enqueue, Fits;
    if frames == [] {
      NoMore(l.inbox);
      FlushNone(l, oks, i);
    } else {
      var f, rest := frames[0], frames[1..];
      assert frames == [f] + rest;
      WithoutFits(l.inbox, f, rest);
      FlushCons(l, f, rest, oks, i);
      if oks(i) {
        FlushSplits(l, rest, oks, i + 1);
        NoMore(Refused(rest, oks, i + 1));
      } else {
        EnqueueAll(l, f);
        Assoc(l.inbox, [f], rest);
        FlushSplits(l.(inbox := l.inbox + [f]), rest, oks, i + 1);
        Assoc(l.inbox, [f], Refused(rest, oks, i + 1));
        NoMore(Taken(rest, oks, i + 1));
      }
    }
  }

  lemma {:induction false} SplitMembers(frames: seq<Frame>, oks: nat -> bool, i: nat, k: nat)
    requires k < |frames|
    ensures if oks(i + k) then frames[k] in Taken(frames, oks, i) else frames[k] in Refused(frames, oks, i)
    decreases |frames|
  {
    if k != 0 {
      SplitMembers(frames[1..], oks, i + 1, k - 1);
    }
  }

  lemma {:induction false} AllRefused(frames: seq<Frame>, oks: nat -> bool, i: nat)
    requires SteadyOver(oks, i, |frames|) && (frames != [] ==> !oks(i))
    ensures Taken(frames, oks, i) == [] && Refused(frames, oks, i) == frames
    decreases |frames|
  {
    if frames != [] {
      AllRefused(frames[1..], oks, i + 1);
      assert frames == [frames[0]] + frames[1..];
    }
  }

  /** A steady socket takes a prefix. */
  lemma {:induction false} SteadySplits(frames: seq<Frame>, oks: nat -> bool, i: nat) returns (j: nat)
    requires SteadyOver(oks, i, |frames|)
    ensures j <= |frames| && Taken(frames, oks, i) == frames[..j] && Refused(frames, oks, i) == frames[j..]
    decreases |frames|
  {
    if frames == [] {
      j := 0;
    } else if oks(i) {
      var k := SteadySplits(frames[1..], oks, i + 1);
      j := k + 1;
      assert frames == [frames[0]] + frames[1..];
      assert frames[..j] == [frames[0]] + frames[1..][..k] && frames[j..] == frames[1..][k..];
      NoMore(Refused(frames[1..], oks, i + 1));
    } else {
      AllRefused(frames, oks, i);
      j := 0;
    }
  }

  /** A newer frame before an older one. */
  lemma Inverted(a: seq<Frame>, b: seq<Frame>, f: Frame, g: Frame)
    requires f in a && g in b && g.number < f.number
    ensures !Rising(a + b)
  {
    var p :| 0 <= p < |a| && a[p] == f;
    var q :| 0 <= q < |b| && b[q] == g;
    assert (a + b)[p] == f && (a + b)[|a| + q] == g;
  }

  /** A frame taken after a refused one gets ahead of it. */
  lemma Overtaken(frames: seq<Frame>, oks: nat -> bool, a: nat, b: nat)
    requires Rising(frames) && a < b < |frames| && !oks(a) && oks(b)
    ensures !Rising(Taken(frames, oks, 0) + Refused(frames, oks, 0))
  {
    hide Taken, Refused;
    SplitMembers(frames, oks, 0, a);
    SplitMembers(frames, oks, 0, b);
    Inverted(Taken(frames, oks, 0), Refused(frames, oks, 0), frames[b], frames[a]);
  }

  /** A flush keeps the order of a backlog if and only if the socket takes no
      frame of it after refusing one. */
  lemma {:induction false} FlushOrder(l: Lane, socket: nat, oks: nat -> bool)
    requires Fits(l.inbox) && Rising(l.inbox)
    ensures var r := Attach(l, socket, oks);
      Rising(r.handed + r.lane.inbox) <==> SteadyOver(oks, 0, |l.inbox|)
  {
    hide Flush, Fits, Taken, Refused;
    var q := l.inbox;
    NoMore(q);
    FlushSplits(Lane(Some(socket), []), q, oks, 0);
    NoMore(Refused(q, oks, 0));
    if SteadyOver(oks, 0, |q|) {
      var j := SteadySplits(q, oks, 0);
      CutAt(q, j);
    } else {
      var a, b :| 0 <= a < b < |q| && !oks(a) && oks(b);
      Overtaken(q, oks, a, b);
    }
  }

  // ---- one step

  ghost predicate Numbered(sent: seq<Frame>) {
    forall i :: 0 <= i < |sent| ==> sent[i].number == i
  }

  /** The queue holds the newest frames; what was handed out is older, in order. */
  ghost predicate Ordered(t: Trace) {
    && Numbered(t.sent) && Rising(t.handed)
    && |t.lane.inbox| <= |t.sent| && t.lane.inbox == t.sent[|t.sent| - |t.lane.inbox|..]
    && (forall i :: 0 <= i < |t.handed| ==> t.handed[i].number < |t.sent| - |t.lane.inbox|)
    && Fits(t.lane.inbox)
  }

  /** A flush stays steady over the backlog, and a frame is taken only when
      nothing is queued. */
  ghost predicate KeepsOrder(t: Trace, e: Event) {
    match e
    case Send(_, ok) => t.lane.socket == None || !ok || t.lane.inbox == []
    case Connect(_, oks) => SteadyOver(oks, 0, |t.lane.inbox|)
    case _ => true
  }

  /** Where a handed frame stands. */
  lemma Placed(t: Trace, j: nat, a: nat)
    requires Ordered(t) && j <= |t.lane.inbox| && a < |t.handed| + j
    ensures var f := (t.handed + t.lane.inbox[..j])[a];
      if a < |t.handed| then f == t.handed[a] && f.number < |t.sent| - |t.lane.inbox|
      else f.number == |t.sent| - |t.lane.inbox| + a - |t.handed|
  {
    if |t.handed| <= a {
      var k := a - |t.handed|;
      assert t.lane.inbox[k] == t.sent[|t.sent| - |t.lane.inbox| + k];
    }
  }

  /** Handing out the first `j` queued frames keeps everything in order. */
  lemma HandedOver(t: Trace, j: nat)
    requires Ordered(t) && j <= |t.lane.inbox|
    ensures var handed := t.handed + t.lane.inbox[..j];
      && Rising(handed)
      && forall a :: 0 <= a < |handed| ==> handed[a].number < |t.sent| - |t.lane.inbox| + j
  {
    hide Fits;
    var handed := t.handed + t.lane.inbox[..j];
    forall a, b | 0 <= a < b < |handed| ensures handed[a].number < handed[b].number {
      Placed(t, j, a);
      Placed(t, j, b);
    }
    forall a | 0 <= a < |handed| ensures handed[a].number < |t.sent| - |t.lane.inbox| + j {
      Placed(t, j, a);
    }
  }

  lemma AllRising(t: Trace)
    requires Ordered(t)
    ensures Rising(t.handed + t.lane.inbox) && Rising(t.lane.inbox)
  {
    hide Fits;
    var q := t.lane.inbox;
    assert q[..|q|] == q;
    HandedOver(t, |q|);
    forall i, j | 0 <= i < j < |q| ensures q[i].number < q[j].number {
      assert q[i] == t.sent[|t.sent| - |q| + i] && q[j] == t.sent[|t.sent| - |q| + j];
    }
  }

  /** The tail of the queue is the tail of what was sent. */
  lemma TailOfTail(sent: seq<Frame>, q: seq<Frame>, k: seq<Frame>, f: Frame)
    requires |q| <= |sent| && q == sent[|sent| - |q|..] && |k| <= |q| + 1 && k == (q + [f])[|q| + 1 - |k|..]
    ensures k == (sent + [f])[|sent| + 1 - |k|..]
  {
    assert q + [f] == (sent + [f])[|sent| - |q|..];
  }

  lemma NumberedMore(sent: seq<Frame>, data: seq<byte>)
    requires Numbered(sent)
    ensures Numbered(sent + [Frame(|sent|, data)])
  {
  }

  /** A frame that is queued. */
  lemma QueuedOrder(t: Trace, data: seq<byte>, ok: bool)
    requires Ordered(t) && (t.lane.socket == None || !ok)
    ensures Ordered(Step(t, Send(data, ok)))
  {
    hide Fits, Kept;
    var f := Frame(|t.sent|, data);
    TailOfTail(t.sent, t.lane.inbox, Kept(t.lane.inbox + [f]), f);
    NumberedMore(t.sent, data);
    NoMore(t.handed);
  }

  /** A frame the socket takes: in order exactly when it passes nothing. */
  lemma {:induction false} SendOrder(t: Trace, data: seq<byte>)
    requires Ordered(t) && t.lane.socket.Some?
    ensures var r := Step(t, Send(data, true));
      && (Rising(r.handed + r.lane.inbox) <==> t.lane.inbox == [])
      && (t.lane.inbox == [] ==> Ordered(r))
  {
    hide Fits, Rising, Numbered;
    var f, q := Frame(|t.sent|, data), t.lane.inbox;
    var r := Step(t, Send(data, true));
    assert r.lane == t.lane && r.handed == t.handed + [f];
    if q == [] {
      NoMore(r.handed);
      NumberedMore(t.sent, data);
      RisingMore(t.handed, f);
    } else {
      assert q[0] == t.sent[|t.sent| - |q|];
      NumberAt(t.sent, |t.sent| - |q|);
      Inverted(t.handed + [f], q, f, q[0]);
    }
  }

  lemma NumberAt(sent: seq<Frame>, i: nat)
    requires Numbered(sent) && i < |sent|
    ensures sent[i].number == i
  {
  }

  lemma RisingMore(q: seq<Frame>, f: Frame)
    requires Rising(q) && forall i :: 0 <= i < |q| ==> q[i].number < f.number
    ensures Rising(q + [f])
  {
  }

  lemma ConnectSplits(t: Trace, socket: nat, oks: nat -> bool)
    requires Fits(t.lane.inbox)
    ensures var r, q := Step(t, Connect(socket, oks)), t.lane.inbox;
      && r.lane.inbox == Refused(q, oks, 0) && r.handed == t.handed + Taken(q, oks, 0) && r.sent == t.sent
  {
    hide Flush, Fits, Taken, Refused;
    var q := t.lane.inbox;
    NoMore(q);
    FlushSplits(Lane(Some(socket), []), q, oks, 0);
    NoMore(Refused(q, oks, 0));
  }

  lemma SteadyConnect(t: Trace, socket: nat, oks: nat -> bool)
    requires Ordered(t) && SteadyOver(oks, 0, |t.lane.inbox|)
    ensures Ordered(Step(t, Connect(socket, oks)))
  {
    hide Step, Fits, Rising;
    var q := t.lane.inbox;
    ConnectSplits(t, socket, oks);
    var j := SteadySplits(q, oks, 0);
    CutAt(q, j);
    PrefixFits(q[..j], q[j..]);
    HandedOver(t, j);
    assert q[j..] == t.sent[|t.sent| - |q| + j..];
  }

  lemma UnsteadyConnect(t: Trace, socket: nat, oks: nat -> bool)
    requires Ordered(t) && !SteadyOver(oks, 0, |t.lane.inbox|)
    ensures var r := Step(t, Connect(socket, oks)); !Rising(r.handed + r.lane.inbox)
  {
    hide Step, Fits, Rising, Taken, Refused;
    var q := t.lane.inbox;
    ConnectSplits(t, socket, oks);
    var a, b :| 0 <= a < b < |q| && !oks(a) && oks(b);
    AllRising(t);
    Overtaken(q, oks, a, b);
    Assoc(t.handed, Taken(q, oks, 0), Refused(q, oks, 0));
    RisingTail(t.handed, Taken(q, oks, 0) + Refused(q, oks, 0));
  }

  lemma RisingTail(a: seq<Frame>, b: seq<Frame>)
    ensures Rising(a + b) ==> Rising(b)
  {
    if Rising(a + b) {
      forall i, j | 0 <= i < j < |b| ensures b[i].number < b[j].number {
        assert (a + b)[|a| + i] == b[i] && (a + b)[|a| + j] == b[j];
      }
    }
  }

  /** A step keeps the order if and only if it meets `KeepsOrder`. */
  lemma {:induction false} StepOrder(t: Trace, e: Event)
    requires Ordered(t)
    ensures Rising(Step(t, e).handed + Step(t, e).lane.inbox) <==> KeepsOrder(t, e)
    ensures KeepsOrder(t, e) ==> Ordered(Step(t, e))
  {
    hide Fits, Ordered, Rising, Step, SteadyOver;
    match e
    case Send(data, ok) =>
      if t.lane.socket == None || !ok {
        QueuedOrder(t, data, ok);
        AllRising(Step(t, e));
      } else {
        SendOrder(t, data);
      }
    case Connect(socket, oks) =>
      if SteadyOver(oks, 0, |t.lane.inbox|) {
        SteadyConnect(t, socket, oks);
        AllRising(Step(t, e));
      } else {
        UnsteadyConnect(t, socket, oks);
      }
    case Close(_) =>
      CloseOrder(t, e);
      AllRising(Step(t, e));
    case Poll =>
      PollOrder(t);
      AllRising(Step(t, e));
  }

  lemma CloseOrder(t: Trace, e: Event)
    requires Ordered(t) && e.Close?
    ensures Ordered(Step(t, e))
  {
  }

  lemma PollOrder(t: Trace)
    requires Ordered(t)
    ensures Ordered(Step(t, Poll))
  {
    hide Fits;
    var q := t.lane.inbox;
    assert q[..|q|] == q;
    HandedOver(t, |q|);
    EmptyFits();
  }

  // ---- whole runs

  ghost predicate AllKeepOrder(events: seq<Event>) {
    events == [] || (AllKeepOrder(events[..|events| - 1]) && KeepsOrder(Run(events[..|events| - 1]), events[|events| - 1]))
  }

  /** At every moment of the run, frames handed out and then the queue are in
      the order sent. */
  ghost predicate AlwaysRising(events: seq<Event>) {
    events == [] || (
      AlwaysRising(events[..|events| - 1]) && Rising(Run(events).handed + Run(events).lane.inbox))
  }

  lemma StartOrdered()
    ensures Ordered(Run([]))
  {
  }

  /** The order holds throughout a run if and only if every step keeps it. */
  lemma {:induction false} OrderExactly(events: seq<Event>)
    ensures AlwaysRising(events) <==> AllKeepOrder(events)
    ensures AllKeepOrder(events) ==> Ordered(Run(events))
    decreases |events|
  {
    hide Step, KeepsOrder, Ordered, Rising;
    if events == [] {
      StartOrdered();
    } else {
      OrderExactly(events[..|events| - 1]);
      if AllKeepOrder(events[..|events| - 1]) {
        StepOrder(Run(events[..|events| - 1]), events[|events| - 1]);
      }
    }
  }

  // ---- runs out of order

  lemma RunMore(events: seq<Event>, e: Event)
    ensures Run(events + [e]) == Step(Run(events), e)
    ensures AllKeepOrder(events + [e]) ==> KeepsOrder(Run(events), e)
  {
    hide Step, KeepsOrder;
    assert (events + [e])[..|events|] == events;
  }

  lemma FirstQueued(a: seq<byte>)
    requires |a| <= MAX_QUEUED_BYTES
    ensures Run([Send(a, false)]).lane == Lane(None, [Frame(0, a)]) && |Run([Send(a, false)]).sent| == 1
  {
    hide Fits, Kept;
    RunMore([], Send(a, false));
    assert [] + [Send(a, false)] == [Send(a, false)] && [] + [Frame(0, a)] == [Frame(0, a)];
    OneFits(Frame(0, a));
    EnqueueAll(Lane(None, []), Frame(0, a));
  }

  lemma OneFits(f: Frame)
    requires |f.data| <= MAX_QUEUED_BYTES
    ensures Fits([f]) && Size([f]) == |f.data|
  {
    assert [f][1..] == [];
  }

  /** Two frames are queued, and the next socket refuses the first and takes the
      second. */
  lemma {:induction false} FlushOvertakes(a: seq<byte>, b: seq<byte>, socket: nat)
    requires |a| + |b| <= MAX_QUEUED_BYTES
    ensures !AlwaysRising([Send(a, false), Send(b, false), Connect(socket, i => i == 1)])
  {
    hide Fits, Kept, Flush, Step, AllKeepOrder, AlwaysRising;
    var first, f, g := [Send(a, false)], Frame(0, a), Frame(1, b);
    var oks: nat -> bool := i => i == 1;
    FirstQueued(a);
    OneFits(f);
    OneFits(g);
    SizeSplit([f], [g]);
    assert [f] + [g] == [f, g];
    TwoFit([f, g]);
    RunMore(first, Send(b, false));
    SecondQueued(Run(first), f, b);
    RunMore(first + [Send(b, false)], Connect(socket, oks));
    assert first + [Send(b, false)] + [Connect(socket, oks)] == [Send(a, false), Send(b, false), Connect(socket, oks)];
    assert !oks(0) && oks(1);
    OrderExactly([Send(a, false), Send(b, false), Connect(socket, oks)]);
  }

  lemma TwoFit(q: seq<Frame>)
    requires |q| == 2 && Size(q) <= MAX_QUEUED_BYTES
    ensures Fits(q)
  {
  }

  lemma SecondQueued(t: Trace, f: Frame, b: seq<byte>)
    requires t.lane == Lane(None, [f]) && |t.sent| == 1 && Fits([f] + [Frame(1, b)])
    ensures |Step(t, Send(b, false)).lane.inbox| == 2
  {
    hide Fits, Kept;
    EnqueueAll(t.lane, Frame(1, b));
  }

  /** One frame is queued, the next socket refuses it and stays, and takes the
      frame sent next. */
  lemma {:induction false} SendOvertakes(a: seq<byte>, b: seq<byte>, socket: nat)
    requires |a| <= MAX_QUEUED_BYTES
    ensures !AlwaysRising([Send(a, false), Connect(socket, i => false), Send(b, true)])
  {
    hide Fits, Kept, Step, AllKeepOrder, AlwaysRising;
    var first, f := [Send(a, false)], Frame(0, a);
    var oks: nat -> bool := i => false;
    FirstQueued(a);
    OneFits(f);
    RunMore(first, Connect(socket, oks));
    RefusedAgain(Run(first), f, socket, oks);
    RunMore(first + [Connect(socket, oks)], Send(b, true));
    assert first + [Connect(socket, oks)] + [Send(b, true)] == [Send(a, false), Connect(socket, oks), Send(b, true)];
    OrderExactly([Send(a, false), Connect(socket, oks), Send(b, true)]);
  }

  lemma RefusedAgain(t: Trace, f: Frame, socket: nat, oks: nat -> bool)
    requires t.lane.inbox == [f] && Fits([f]) && !oks(0)
    ensures Step(t, Connect(socket, oks)).lane == Lane(Some(socket), [f])
  {
    hide Fits, Kept;
    assert [] + [f] == [f] && [f][1..] == [];
    FlushSplits(Lane(Some(socket), []), [f], oks, 0);
  }

  // ---- a socket that has thrown keeps throwing

  ghost predicate SteadyStep(t: Trace, e: Event) {
    match e
    case Send(_, ok) => t.lane.socket.Some? && t.broken ==> !ok
    case Connect(_, oks) => SteadyOver(oks, 0, |t.lane.inbox|)
    case _ => true
  }

  ghost predicate SteadyRun(events: seq<Event>) {
    events == [] || (SteadyRun(events[..|events| - 1]) && SteadyStep(Run(events[..|events| - 1]), events[|events| - 1]))
  }

  /** A socket that has refused nothing leaves nothing queued. */
  ghost predicate Drained(t: Trace) {
    t.lane.socket.Some? && !t.broken ==> t.lane.inbox == []
  }

  lemma StepDrained(t: Trace, e: Event)
    requires Drained(t)
    ensures Drained(Step(t, e))
  {
    hide Flush, Kept, Fits;
  }

  /** Frames handed out, by socket or poll, followed by the queue, are frames
      sent, in the order they were sent; what is missing is older than the
      whole queue. */
  lemma {:induction false} FramesInOrder(events: seq<Event>)
    requires SteadyRun(events)
    ensures AllKeepOrder(events) && Ordered(Run(events)) && Drained(Run(events)) && AlwaysRising(events)
    decreases |events|
  {
    hide Step, Ordered, Rising;
    if events != [] {
      FramesInOrder(events[..|events| - 1]);
      StepDrained(Run(events[..|events| - 1]), events[|events| - 1]);
    }
    OrderExactly(events);
  }
}
