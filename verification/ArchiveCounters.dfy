/** What the archive's counters count: the entries that were live when the
    accounting window began. Which forgets keep that, and that the ceilings
    hold on every run of such forgets. */
module ArchiveCounters {
  import opened Wrappers
  import opened Sequences
  import opened BroadcastPaths
  import opened Archive
  import opened ArchiveRuns

  function MetaOf(sh: Shard): Meta {
    sh.meta.GetOr(Meta(0, 0, None))
  }

  /** The window began in the past; before the first window nothing is live. */
  ghost predicate Dated(sh: Shard, keep: int, clock: int) {
    match MetaOf(sh).since
    case None => Live(sh.items, keep, clock) == []
    case Some(s) => s <= clock
  }

  /** The entries the counters stand for. */
  function Counted(sh: Shard, keep: int): seq<Item> {
    match MetaOf(sh).since
    case None => []
    case Some(s) => Live(sh.items, keep, s)
  }

  ghost predicate Tallied(sh: Shard, keep: int, clock: int) {
    && Dated(sh, keep, clock)
    && MetaOf(sh).bytes == Bytes(Counted(sh, keep))
    && MetaOf(sh).posts == Posts(Counted(sh, keep))
  }

  ghost predicate Filled(items: seq<Item>) {
    forall i :: 0 <= i < |items| ==> items[i].entry.bytes != []
  }

  // ---- live entries, over time and over changes

  lemma {:induction false} LiveLater(items: seq<Item>, keep: int, before: int, now: int)
    requires before <= now
    ensures Bytes(Live(items, keep, now)) <= Bytes(Live(items, keep, before))
    ensures Posts(Live(items, keep, now)) <= Posts(Live(items, keep, before))
    ensures Live(items, keep, before) == [] ==> Live(items, keep, now) == []
    decreases |items|
  {
    if items != [] {
      LiveLater(items[1..], keep, before, now);
      LiveHead(items, keep, before);
      LiveHead(items, keep, now);
    }
  }

  lemma LiveHead(items: seq<Item>, keep: int, now: int)
    requires items != []
    ensures var x, rest := items[0], Live(items[1..], keep, now);
      if Expired(x.entry, keep, now) then Live(items, keep, now) == rest
      else
        && Live(items, keep, now) == [x] + rest
        && Bytes(Live(items, keep, now)) == |x.entry.bytes| + Bytes(rest)
        && Posts(Live(items, keep, now)) == (if IsPost(x.key) then 1 else 0) + Posts(rest)
  {
    var l, rest := Live(items, keep, now), Live(items[1..], keep, now);
    if Expired(items[0].entry, keep, now) {
      assert l == rest;
    } else {
      assert l[1..] == rest;
    }
  }

  lemma {:induction false} NothingInside(items: seq<Item>)
    requires Filled(items)
    ensures Bytes(items) == 0 <==> items == []
    ensures items == [] ==> Posts(items) == 0
  {
  }

  lemma LiveFilled(items: seq<Item>, keep: int, now: int)
    requires Filled(items)
    ensures Filled(Live(items, keep, now))
  {
    LiveKept(items, keep, now);
    var l := Live(items, keep, now);
    forall i | 0 <= i < |l| ensures l[i].entry.bytes != [] {
      assert l[i] in items;
    }
  }

  lemma {:induction false} LiveDeleted(items: seq<Item>, key: string, keep: int, now: int)
    ensures Live(Delete(items, key), keep, now) == Delete(Live(items, keep, now), key)
    decreases |items|
  {
    hide Live, Delete, Expired;
    if items == [] {
      LiveNone(keep, now);
      DeleteNone(key);
    } else {
      var x, rest := items[0], items[1..];
      LiveDeleted(rest, key, keep, now);
      assert items == [x] + rest;
      LiveCons(x, rest, keep, now);
      DeleteStep(x, rest, key);
      NoMore(Delete(rest, key));
      NoMore(Live(rest, keep, now));
      NoMore(Delete(Live(rest, keep, now), key));
      LiveCons(x, Delete(rest, key), keep, now);
      DeleteStep(x, Live(rest, keep, now), key);
    }
  }

  /** What is live now was live before. */
  lemma {:induction false} LiveStays(items: seq<Item>, keep: int, before: int, now: int)
    requires before <= now
    ensures Live(Live(items, keep, now), keep, before) == Live(items, keep, now)
    decreases |items|
  {
    if items != [] {
      LiveStays(items[1..], keep, before, now);
      LiveHead(items, keep, now);
      var l := Live(items, keep, now);
      if !Expired(items[0].entry, keep, now) {
        assert l[1..] == Live(items[1..], keep, now);
        LiveHead(l, keep, before);
      }
    }
  }

  // ---- loading, storing and sweeping keep the tally

  lemma TalliedLater(sh: Shard, keep: int, clock: int, now: int)
    requires Tallied(sh, keep, clock) && clock <= now
    ensures Tallied(sh, keep, now)
  {
    LiveLater(sh.items, keep, clock, now);
  }

  /** The count a request sees covers everything live. */
  lemma LoadCovers(sh: Shard, keep: int, clock: int, now: int)
    requires Tallied(sh, keep, clock) && clock <= now && Filled(sh.items)
    ensures Bytes(Live(sh.items, keep, now)) <= LoadMeta(sh, keep, now).bytes <= MetaOf(sh).bytes
    ensures Posts(Live(sh.items, keep, now)) <= LoadMeta(sh, keep, now).posts <= MetaOf(sh).posts
    ensures Tallied(sh.(meta := Some(LoadMeta(sh, keep, now))), keep, now)
  {
    hide Live, Bytes, Posts;
    LiveLater(sh.items, keep, clock, now);
    LiveFilled(sh.items, keep, now);
    NothingInside(Live(sh.items, keep, now));
    NothingCounts();
    if MetaOf(sh).since.Some? {
      LiveLater(sh.items, keep, MetaOf(sh).since.value, now);
    }
  }

  lemma NothingCounts()
    ensures Bytes([]) == 0 && Posts([]) == 0
  {
  }

  lemma StoredTallied(sh: Shard, r: Route, bytes: seq<byte>, keep: int, clock: int, now: int)
    requires Tallied(sh, keep, clock) && clock <= now && 0 <= keep && Filled(sh.items)
    requires Valid(r) && Find(sh.items, StorageKey(r)) == None
    ensures Tallied(Stored(sh, r, bytes, keep, now).0, keep, now)
  {
    hide Live, Bytes, Posts, LoadMeta, Find, Delete;
    LoadCovers(sh, keep, clock, now);
    TalliedLater(sh, keep, clock, now);
    var m, x := LoadMeta(sh, keep, now), Item(StorageKey(r), Entry(bytes, now));
    var s := m.since.GetOr(now);
    NotFound(sh.items, StorageKey(r));
    AbsentDeleted(sh.items, StorageKey(r));
    var items := Put(sh.items, StorageKey(r), Entry(bytes, now));
    assert items == [x] + sh.items && items[1..] == sh.items;
    LiveHead(items, keep, s);
    NothingCounts();
    PostKey(r);
  }

  /** A sweep restores the tally from any counters. */
  lemma SweptTallied(sh: Shard, keep: int, clock: int, now: int)
    requires Dated(sh, keep, clock) && clock <= now && Filled(sh.items)
    ensures Tallied(Swept(sh, keep, now), keep, now)
  {
    hide Live, Bytes, Posts;
    var rest := Live(sh.items, keep, now);
    LiveLater(sh.items, keep, clock, now);
    LiveStays(sh.items, keep, now, now);
    LiveFilled(sh.items, keep, now);
    NothingInside(rest);
    NothingCounts();
    if MetaOf(sh).since.Some? {
      LiveStays(sh.items, keep, MetaOf(sh).since.value, now);
    }
  }

  // ---- forgetting

  /** The guard: the entry is among those counted, or nothing is. */
  predicate Refundable(sh: Shard, key: string, e: Entry, keep: int, now: int) {
    var m := MetaOf(sh);
    || (m.since.Some? && now - m.since.value <= keep && m.since.value - e.at <= keep)
    || LoadMeta(Shard(Delete(sh.items, key), sh.meta), keep, now).bytes == 0
  }

  lemma ForgetDated(sh: Shard, key: string, e: Entry, keep: int, clock: int, now: int)
    requires Dated(sh, keep, clock) && clock <= now && Filled(sh.items)
    ensures Dated(Forget(sh, key, e, keep, now), keep, now)
  {
    hide Live, Bytes, Posts, Delete;
    var rest := Delete(sh.items, key);
    LiveLater(sh.items, keep, clock, now);
    LiveDeleted(sh.items, key, keep, now);
    DeletedFilled(sh.items, key);
    LiveFilled(rest, keep, now);
    NothingInside(Live(rest, keep, now));
    DeleteNone(key);
  }

  lemma DeletedFilled(items: seq<Item>, key: string)
    requires Filled(items)
    ensures Filled(Delete(items, key))
  {
    DeletedAbsent(items, key);
    var d := Delete(items, key);
    forall i | 0 <= i < |d| ensures d[i].entry.bytes != [] {
      assert d[i] in items;
    }
  }

  /** What deleting an entry takes out of the entries live at `s`. */
  lemma DeletedFromLive(items: seq<Item>, key: string, e: Entry, keep: int, s: int)
    requires Distinct(items) && Find(items, key) == Some(e)
    ensures var rest, l := Live(Delete(items, key), keep, s), Live(items, keep, s);
      if Expired(e, keep, s) then rest == l
      else Bytes(rest) == Bytes(l) - |e.bytes| && Posts(rest) == Posts(l) - if IsPost(key) then 1 else 0
  {
    hide Live, Bytes, Posts, Delete, Find;
    LiveDeleted(items, key, keep, s);
    LiveDistinct(items, keep, s);
    FindLive(items, key, keep, s);
    if Expired(e, keep, s) {
      NotFound(Live(items, keep, s), key);
      AbsentDeleted(Live(items, keep, s), key);
    } else {
      DeletedSums(Live(items, keep, s), key, e);
    }
  }

  /** Forgetting an expired entry keeps the tally if and only if the entry is
      among those counted, or nothing else is. */
  lemma {:induction false} ForgetTallied(sh: Shard, key: string, e: Entry, keep: int, clock: int, now: int)
    requires Tallied(sh, keep, clock) && clock <= now && Filled(sh.items) && Distinct(sh.items)
    requires Find(sh.items, key) == Some(e) && Expired(e, keep, now) && e.bytes != []
    ensures Tallied(Forget(sh, key, e, keep, now), keep, now) <==> Refundable(sh, key, e, keep, now)
  {
    hide Live, Bytes, Posts, Delete, Find, Expired;
    var rest := Delete(sh.items, key);
    ForgetDated(sh, key, e, keep, clock, now);
    DeletedFilled(sh.items, key);
    NothingCounts();
    var m := MetaOf(sh);
    if m.since.Some? {
      var s := if now - m.since.value <= keep then m.since.value else now;
      LiveFilled(rest, keep, s);
      NothingInside(Live(rest, keep, s));
      DeletedFromLive(sh.items, key, e, keep, s);
      ExpiredAt(e, keep, s);
    }
  }

  lemma ExpiredAt(e: Entry, keep: int, now: int)
    ensures Expired(e, keep, now) <==> keep < now - e.at
  {
  }

  // ---- whole runs

  /** The clock never goes back. */
  ghost predicate Forward(events: seq<Event>) {
    forall i :: 0 < i < |events| ==> events[i - 1].now <= events[i].now
  }

  /** The expired entry an event forgets, if it forgets one. */
  function Forgets(sh: Shard, e: Event, sha: seq<byte> -> string, keep: int): Option<Entry> {
    if e.op.Sweep? then None
    else
      match Find(sh.items, StorageKey(e.op.route))
      case None => None
      case Some(held) =>
        if Expired(held, keep, e.now) && (e.op.Get? || Accepts(e.op.route, e.op.bytes, e.op.authorized, sha))
        then Some(held) else None
  }

  /** A body the checks before the storage let through. */
  predicate Accepts(r: Route, bytes: seq<byte>, authorized: bool, sha: seq<byte> -> string) {
    bytes != [] && |bytes| <= Limit(r) && (r.Descriptor? ==> authorized) && NamesItself(r, bytes, sha)
  }

  predicate Guarded(sh: Shard, e: Event, sha: seq<byte> -> string, keep: int) {
    match Forgets(sh, e, sha, keep)
    case None => true
    case Some(held) => Refundable(sh, StorageKey(e.op.route), held, keep, e.now)
  }

  /** A count that is off stays off by as much when an entry is stored. */
  lemma StoredOff(sh: Shard, r: Route, bytes: seq<byte>, keep: int, now: int)
    requires MetaOf(sh).since.Some? && now - MetaOf(sh).since.value <= keep && MetaOf(sh).since.value <= now
    requires 0 <= keep && !Tallied(sh, keep, now) && Valid(r) && Find(sh.items, StorageKey(r)) == None
    ensures !Tallied(Stored(sh, r, bytes, keep, now).0, keep, now)
  {
    hide Live, Bytes, Posts, Find, Delete;
    var s, x := MetaOf(sh).since.value, Item(StorageKey(r), Entry(bytes, now));
    NotFound(sh.items, StorageKey(r));
    AbsentDeleted(sh.items, StorageKey(r));
    var items := Put(sh.items, StorageKey(r), Entry(bytes, now));
    assert items == [x] + sh.items && items[1..] == sh.items;
    LiveHead(items, keep, s);
    PostKey(r);
  }

  /** After a forget that breaks the tally the window is open. */
  lemma OpenAfter(sh: Shard, key: string, e: Entry, keep: int, clock: int, now: int)
    requires Tallied(sh, keep, clock) && clock <= now && 0 <= keep && !Refundable(sh, key, e, keep, now)
    ensures var m := MetaOf(Forget(sh, key, e, keep, now));
      m.since.Some? && now - m.since.value <= keep && m.since.value <= now
  {
    hide Live, Posts, Delete, Bytes;
    NothingCounts();
  }

  lemma GetTallied(sh: Shard, e: Event, sha: seq<byte> -> string, keep: int, clock: int)
    requires Tallied(sh, keep, clock) && clock <= e.now && Good(sh, sha) && e.op.Get?
    ensures Tallied(Apply(sh, e, sha, keep).0, keep, e.now) <==> Guarded(sh, e, sha, keep)
  {
    hide Find, Forget, Tallied, Refundable, Good, StorageKey, Expired;
    GoodFilled(sh, sha);
    TalliedLater(sh, keep, clock, e.now);
    var key := StorageKey(e.op.route);
    var held := Find(sh.items, key);
    if held.Some? && Expired(held.value, keep, e.now) {
      FoundFilled(sh.items, key, held.value);
      ForgetTallied(sh, key, held.value, keep, clock, e.now);
    }
  }

  lemma GoodFilled(sh: Shard, sha: seq<byte> -> string)
    requires Good(sh, sha)
    ensures Filled(sh.items) && Distinct(sh.items)
  {
    forall i | 0 <= i < |sh.items| ensures sh.items[i].entry.bytes != [] {
      assert sh.items[i] in sh.items;
      assert TrueName(sh.items[i], sha);
    }
  }

  lemma {:induction false} FoundFilled(items: seq<Item>, key: string, e: Entry)
    requires Filled(items) && Find(items, key) == Some(e)
    ensures e.bytes != []
    decreases |items|
  {
    if items[0].key != key {
      FoundFilled(items[1..], key, e);
    }
  }

  lemma PublishTallied(sh: Shard, e: Event, sha: seq<byte> -> string, keep: int, clock: int)
    requires Tallied(sh, keep, clock) && clock <= e.now && 0 <= keep && Good(sh, sha)
    requires e.op.Publish? && Valid(e.op.route)
    ensures Tallied(Apply(sh, e, sha, keep).0, keep, e.now) <==> Guarded(sh, e, sha, keep)
  {
    hide Find, Forget, Tallied, Refundable, Good, StorageKey, Stored, NamesItself, Expired;
    GoodFilled(sh, sha);
    TalliedLater(sh, keep, clock, e.now);
    var r, bytes := e.op.route, e.op.bytes;
    var key := StorageKey(r);
    var held := Find(sh.items, key);
    if Accepts(r, bytes, e.op.authorized, sha) {
      if held == None {
        StoredTallied(sh, r, bytes, keep, clock, e.now);
      } else if Expired(held.value, keep, e.now) {
        var f := Forget(sh, key, held.value, keep, e.now);
        FoundFilled(sh.items, key, held.value);
        ForgetTallied(sh, key, held.value, keep, clock, e.now);
        Forgotten(sh, key, held.value, keep, e.now);
        ForgetGood(sh, key, held.value, keep, e.now, sha);
        GoodFilled(f, sha);
        if Refundable(sh, key, held.value, keep, e.now) {
          StoredTallied(f, r, bytes, keep, e.now, e.now);
        } else {
          OpenAfter(sh, key, held.value, keep, clock, e.now);
          StoredOff(f, r, bytes, keep, e.now);
        }
      }
    }
  }

  /** Any request or sweep keeps the tally exactly when what it forgets, if
      anything, meets the guard. */
  lemma {:induction false} ApplyTallied(sh: Shard, e: Event, sha: seq<byte> -> string, keep: int, clock: int)
    requires Tallied(sh, keep, clock) && clock <= e.now && 0 <= keep && Good(sh, sha) && ValidOp(e.op)
    ensures Tallied(Apply(sh, e, sha, keep).0, keep, e.now) <==> Guarded(sh, e, sha, keep)
  {
    hide Tallied, Guarded, Apply;
    match e.op
    case Get(_) => GetTallied(sh, e, sha, keep, clock);
    case Publish(_, _, _) => PublishTallied(sh, e, sha, keep, clock);
    case Sweep =>
      GoodFilled(sh, sha);
      SweepTallied(sh, e, sha, keep, clock);
  }

  lemma SweepTallied(sh: Shard, e: Event, sha: seq<byte> -> string, keep: int, clock: int)
    requires Tallied(sh, keep, clock) && clock <= e.now && Filled(sh.items) && e.op.Sweep?
    ensures Tallied(Apply(sh, e, sha, keep).0, keep, e.now) && Guarded(sh, e, sha, keep)
  {
    hide Live, Bytes, Posts, Swept;
    SweptTallied(sh, keep, clock, e.now);
  }

  ghost predicate AllGuarded(events: seq<Event>, sha: seq<byte> -> string, keep: int) {
    events == [] || (
      && AllGuarded(events[..|events| - 1], sha, keep)
      && Guarded(Run(Empty(), events[..|events| - 1], sha, keep), events[|events| - 1], sha, keep))
  }

  ghost predicate AlwaysTallied(events: seq<Event>, sha: seq<byte> -> string, keep: int) {
    events == [] || (
      && AlwaysTallied(events[..|events| - 1], sha, keep)
      && Tallied(Run(Empty(), events, sha, keep), keep, events[|events| - 1].now))
  }

  ghost predicate ValidOps(events: seq<Event>) {
    forall i :: 0 <= i < |events| ==> ValidOp(events[i].op)
  }

  /** A time at which the run is over. */
  ghost predicate After(events: seq<Event>, now: int) {
    events != [] ==> events[|events| - 1].now <= now
  }

  lemma {:induction false} TalliedAfter(events: seq<Event>, sha: seq<byte> -> string, keep: int, now: int)
    requires AlwaysTallied(events, sha, keep) && After(events, now)
    ensures Tallied(Run(Empty(), events, sha, keep), keep, now)
  {
    hide Tallied;
    if events == [] {
      EmptyTallied(keep, now);
    } else {
      TalliedLater(Run(Empty(), events, sha, keep), keep, events[|events| - 1].now, now);
    }
  }

  lemma EmptyTallied(keep: int, now: int)
    ensures Tallied(Empty(), keep, now)
  {
  }

  /** The counters stand for the entries counted after every step of a run if
      and only if every forget of the run meets the guard. */
  lemma {:induction false} TalliedExactly(events: seq<Event>, sha: seq<byte> -> string, keep: int)
    requires 0 <= keep && Forward(events) && ValidOps(events)
    ensures AlwaysTallied(events, sha, keep) <==> AllGuarded(events, sha, keep)
    decreases |events|
  {
    hide Tallied, Guarded, Apply, Good;
    if events != [] {
      var init, e := events[..|events| - 1], events[|events| - 1];
      TalliedExactly(init, sha, keep);
      if AlwaysTallied(init, sha, keep) {
        RunGood(init, sha, keep);
        if init == [] {
          EmptyTallied(keep, e.now);
          ApplyTallied(Empty(), e, sha, keep, e.now);
        } else {
          assert events[|init| - 1] == init[|init| - 1];
          ApplyTallied(Run(Empty(), init, sha, keep), e, sha, keep, init[|init| - 1].now);
        }
      }
    }
  }

  ghost predicate Ceilings(sh: Shard) {
    MetaOf(sh).bytes <= MAX_SHARD_BYTES && MetaOf(sh).posts <= MAX_POSTS_PER_AUTHOR
  }

  lemma ForgetCeilings(sh: Shard, key: string, e: Entry, keep: int, clock: int, now: int)
    requires Tallied(sh, keep, clock) && clock <= now && Filled(sh.items) && Distinct(sh.items) && Ceilings(sh)
    requires Find(sh.items, key) == Some(e)
    ensures Ceilings(Forget(sh, key, e, keep, now))
  {
    hide Live, Bytes, Posts, Delete, Find;
    LoadCovers(sh, keep, clock, now);
    DeletedFromLive(sh.items, key, e, keep, now);
  }

  lemma StoredCeilings(sh: Shard, r: Route, bytes: seq<byte>, keep: int, clock: int, now: int)
    requires Tallied(sh, keep, clock) && clock <= now && Filled(sh.items) && Ceilings(sh)
    ensures Ceilings(Stored(sh, r, bytes, keep, now).0)
  {
    hide Live, Bytes, Posts, LoadMeta, Put, StorageKey;
    LoadCovers(sh, keep, clock, now);
  }

  lemma SweptCeilings(sh: Shard, keep: int, clock: int, now: int)
    requires Tallied(sh, keep, clock) && clock <= now && Filled(sh.items) && Ceilings(sh)
    ensures Ceilings(Swept(sh, keep, now))
  {
    hide Live, Bytes, Posts;
    LoadCovers(sh, keep, clock, now);
  }

  lemma ApplyCeilings(sh: Shard, e: Event, sha: seq<byte> -> string, keep: int, clock: int)
    requires Tallied(sh, keep, clock) && clock <= e.now && 0 <= keep && Good(sh, sha) && ValidOp(e.op)
    requires Ceilings(sh) && Guarded(sh, e, sha, keep)
    ensures Ceilings(Apply(sh, e, sha, keep).0)
  {
    hide Find, Forget, Tallied, Refundable, Good, StorageKey, Stored, Swept, NamesItself, Ceilings, Expired;
    GoodFilled(sh, sha);
    if e.op.Sweep? {
      SweptCeilings(sh, keep, clock, e.now);
    } else {
      var key := StorageKey(e.op.route);
      var held := Find(sh.items, key);
      if held.Some? && Expired(held.value, keep, e.now) {
        ForgetCeilings(sh, key, held.value, keep, clock, e.now);
        if Forgets(sh, e, sha, keep).Some? {
          var f := Forget(sh, key, held.value, keep, e.now);
          FoundFilled(sh.items, key, held.value);
          ForgetTallied(sh, key, held.value, keep, clock, e.now);
          ForgetGood(sh, key, held.value, keep, e.now, sha);
          GoodFilled(f, sha);
          if e.op.Publish? {
            StoredCeilings(f, e.op.route, e.op.bytes, keep, e.now, e.now);
          }
        }
      } else if e.op.Publish? {
        StoredCeilings(sh, e.op.route, e.op.bytes, keep, clock, e.now);
      }
    }
  }

  /** On a run whose forgets meet the guard the ceilings are real: what is live
      never exceeds the count the next request sees, and that never exceeds
      the shard's bytes and the author's posts. */
  lemma {:induction false} CeilingsHold(events: seq<Event>, sha: seq<byte> -> string, keep: int, now: int)
    requires 0 <= keep && Forward(events) && ValidOps(events) && AllGuarded(events, sha, keep) && After(events, now)
    ensures var sh := Run(Empty(), events, sha, keep);
      && Bytes(Live(sh.items, keep, now)) <= LoadMeta(sh, keep, now).bytes <= MAX_SHARD_BYTES
      && Posts(Live(sh.items, keep, now)) <= LoadMeta(sh, keep, now).posts <= MAX_POSTS_PER_AUTHOR
      && Ceilings(sh)
    decreases |events|
  {
    hide Tallied, Guarded, Apply, Good, Live, Bytes, Posts, LoadMeta;
    var sh := Run(Empty(), events, sha, keep);
    TalliedExactly(events, sha, keep);
    TalliedAfter(events, sha, keep, now);
    RunGood(events, sha, keep);
    GoodFilled(sh, sha);
    LoadCovers(sh, keep, now, now);
    if events != [] {
      var init, e := events[..|events| - 1], events[|events| - 1];
      if init != [] {
        assert events[|init| - 1] == init[|init| - 1];
      }
      CeilingsHold(init, sha, keep, e.now);
      TalliedExactly(init, sha, keep);
      TalliedAfter(init, sha, keep, e.now);
      RunGood(init, sha, keep);
      ApplyCeilings(Run(Empty(), init, sha, keep), e, sha, keep, e.now);
    }
  }
}
