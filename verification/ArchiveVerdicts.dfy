/** What the archive answers and what it then holds, request by request, and
    where everything it holds came from. */
module ArchiveVerdicts {
  import opened Wrappers
  import opened BroadcastPaths
  import opened Archive
  import opened ArchiveRuns
  import opened ArchiveCounters

  /** The largest body of each kind of address. */
  function Largest(r: Route): nat {
    if r.Descriptor? then 512 else if r.ForkReport? then 2048 else 100_000
  }

  /** An object and a report are filed under their hash; a descriptor is not. */
  predicate Misnamed(r: Route, bytes: seq<byte>, sha: seq<byte> -> string) {
    (r.Object? && sha(bytes) != r.hash) || (r.ForkReport? && sha(bytes) != r.hash)
  }

  predicate Unproved(r: Route, authorized: bool) {
    r.Descriptor? && !authorized
  }

  /** What stays when an address is written to or forgotten: all other entries,
      and the new one, if there is one. */
  ghost predicate HoldsInstead(before: seq<Item>, after: seq<Item>, key: string, e: Option<Entry>) {
    forall x :: x in after <==> (x in before && x.key != key) || (e.Some? && x == Item(key, e.value))
  }

  /** A live entry under a key. */
  ghost predicate LiveAt(sh: Shard, key: string, keep: int, now: int) {
    exists x :: x in sh.items && x.key == key && now - x.entry.at <= keep
  }

  lemma {:induction false} FindIs(items: seq<Item>, key: string)
    requires Distinct(items)
    ensures Find(items, key) == None <==> forall x :: x in items ==> x.key != key
    ensures forall x :: x in items && x.key == key ==> Find(items, key) == Some(x.entry)
    ensures Find(items, key).Some? ==> Item(key, Find(items, key).value) in items
    decreases |items|
  {
    if items != [] {
      var rest := items[1..];
      assert items == [items[0]] + rest;
      assert Distinct(rest) by {
        assert forall i :: 0 <= i < |rest| ==> rest[i] == items[i + 1];
      }
      FindIs(rest, key);
      if items[0].key == key {
        forall x | x in rest ensures x.key != key {
          var i :| 0 <= i < |rest| && rest[i] == x;
          assert items[i + 1] == x;
        }
      }
    }
  }

  lemma LiveIs(sh: Shard, key: string, keep: int, now: int)
    requires Distinct(sh.items)
    ensures LiveAt(sh, key, keep, now) <==>
      Find(sh.items, key).Some? && now - Find(sh.items, key).value.at <= keep
  {
    FindIs(sh.items, key);
    if Find(sh.items, key).Some? {
      assert Item(key, Find(sh.items, key).value) in sh.items;
    }
  }

  // ---- refusals before the storage

  /** 413, 403 and 400 come exactly when the size, the proof and the name say so,
      in this order, and change nothing. */
  lemma {:induction false} Refusals(sh: Shard, r: Route, bytes: seq<byte>, authorized: bool, sha: seq<byte> -> string,
                                    keep: int, now: int)
    ensures var (after, out) := Write(sh, r, bytes, authorized, sha, keep, now);
      && (out.status == 413 <==> Largest(r) < |bytes|)
      && (out.status == 403 <==> 1 <= |bytes| <= Largest(r) && Unproved(r, authorized))
      && (out.status == 400 <==> |bytes| == 0 || (|bytes| <= Largest(r) && Misnamed(r, bytes, sha)))
      && (out.status == 413 || out.status == 403 || out.status == 400 ==> after == sh)
      && out.body == []
  {
    hide Find, LoadMeta, Forget, Put, StorageKey;
  }

  /** An unproved descriptor is never stored. */
  lemma {:induction false} UnprovedRefused(sh: Shard, r: Route, bytes: seq<byte>, sha: seq<byte> -> string, keep: int, now: int)
    requires r.Descriptor?
    ensures Write(sh, r, bytes, false, sha, keep, now).0 == sh
    ensures Write(sh, r, bytes, false, sha, keep, now).1.status == if |bytes| == 0 then 400 else if |bytes| <= 512 then 403 else 413
  {
    hide Find, LoadMeta, Stored, Forget, StorageKey;
    Refusals(sh, r, bytes, false, sha, keep, now);
  }

  // ---- what gets through

  predicate Proper(r: Route, bytes: seq<byte>, authorized: bool, sha: seq<byte> -> string) {
    1 <= |bytes| <= Largest(r) && !Unproved(r, authorized) && !Misnamed(r, bytes, sha)
  }

  /** The counts a proper write to a free address is measured against: those of
      the shard without an expired entry under that address. */
  function CountedWithout(sh: Shard, key: string, keep: int, now: int): Meta {
    var cleared := match Find(sh.items, key)
      case None => sh
      case Some(e) => Forget(sh, key, e, keep, now);
    LoadMeta(cleared, keep, now)
  }

  lemma StoredIs(sh: Shard, r: Route, bytes: seq<byte>, keep: int, now: int)
    ensures var (after, out) := Stored(sh, r, bytes, keep, now); var m := LoadMeta(sh, keep, now);
      && (out.status == 507 <==> 67_108_864 < m.bytes + |bytes|)
      && (out.status == 429 <==> m.bytes + |bytes| <= 67_108_864 && r.Descriptor? && 512 <= m.posts)
      && (out.status != 507 && out.status != 429 ==> out.status == 201)
      && (out.status != 201 ==> after == sh)
      && (out.status == 201 ==> HoldsInstead(sh.items, after.items, StorageKey(r), Some(Entry(bytes, now))))
      && (out.status == 201 ==>
            after.meta == Some(Meta(m.bytes + |bytes|, if r.Descriptor? then m.posts + 1 else m.posts,
                                    Some(if m.since.Some? then m.since.value else now))))
  {
    hide LoadMeta, StorageKey, Delete, HoldsInstead, Put;
    PutHolds(sh.items, StorageKey(r), Entry(bytes, now));
  }

  /** A proper write to a live address changes nothing and says whether the bytes
      are the same; to a free one it is 507 or 429 exactly when the counts leave
      no room, and otherwise 201 and the entry is held, with the time, beside
      every other. */
  lemma {:induction false} ProperWrites(sh: Shard, r: Route, bytes: seq<byte>, authorized: bool, sha: seq<byte> -> string,
                                        keep: int, now: int)
    requires Distinct(sh.items) && Proper(r, bytes, authorized, sha)
    ensures var (after, out) := Write(sh, r, bytes, authorized, sha, keep, now);
      var key, m := StorageKey(r), CountedWithout(sh, StorageKey(r), keep, now);
      && (LiveAt(sh, key, keep, now) ==>
            after == sh && (out.status == 204 || out.status == 409)
            && (out.status == 204 <==> exists x :: x in sh.items && x.key == key && x.entry.bytes == bytes))
      && (!LiveAt(sh, key, keep, now) ==>
            && (out.status == 507 <==> 67_108_864 < m.bytes + |bytes|)
            && (out.status == 429 <==> m.bytes + |bytes| <= 67_108_864 && r.Descriptor? && 512 <= m.posts)
            && (out.status != 507 && out.status != 429 ==> out.status == 201)
            && HoldsInstead(sh.items, after.items, key, if out.status == 201 then Some(Entry(bytes, now)) else None)
            && (out.status == 201 ==>
                  after.meta == Some(Meta(m.bytes + |bytes|, if r.Descriptor? then m.posts + 1 else m.posts,
                                          Some(if m.since.Some? then m.since.value else now)))))
  {
    hide LoadMeta, StorageKey, Delete, Stored, Find;
    var key := StorageKey(r);
    LiveIs(sh, key, keep, now);
    FindIs(sh.items, key);
    DeletedAbsent(sh.items, key);
    StoredIs(sh, r, bytes, keep, now);
    if Find(sh.items, key).Some? {
      StoredIs(Forget(sh, key, Find(sh.items, key).value, keep, now), r, bytes, keep, now);
    }
  }

  /** The window a request sees: the one kept, unless that has rolled; then one that
      opens at the request if anything is live, and none if nothing is. */
  lemma {:induction false} WindowOpens(sh: Shard, keep: int, now: int)
    requires Filled(sh.items)
    ensures var kept, seen := MetaOf(sh).since, LoadMeta(sh, keep, now).since;
      && (kept == None || now - kept.value <= keep ==> seen == kept)
      && (kept.Some? && keep < now - kept.value ==>
            seen == if exists x :: x in sh.items && now - x.entry.at <= keep then Some(now) else None)
  {
    hide Bytes, Posts, Live;
    var live := Live(sh.items, keep, now);
    LiveKept(sh.items, keep, now);
    LiveFilled(sh.items, keep, now);
    NothingInside(live);
    if exists x :: x in sh.items && now - x.entry.at <= keep {
      var x :| x in sh.items && now - x.entry.at <= keep;
      assert x in live;
    }
    if live != [] {
      assert live[0] in live;
    }
  }

  lemma PutHolds(items: seq<Item>, key: string, e: Entry)
    ensures HoldsInstead(items, Put(items, key, e), key, Some(e))
  {
    hide Delete;
    DeletedAbsent(items, key);
  }

  // ---- reads

  /** A read is 200 with the bytes exactly when a live entry stands there, and 404
      otherwise; it changes nothing but an expired entry there, which goes. */
  lemma {:induction false} Reads(sh: Shard, r: Route, keep: int, now: int)
    requires Distinct(sh.items)
    ensures var (after, out) := Read(sh, r, keep, now); var key := StorageKey(r);
      && (out.status == 200 <==> LiveAt(sh, key, keep, now)) && (out.status != 200 ==> out.status == 404 && out.body == [])
      && (out.status == 200 ==> after == sh && exists x :: x in sh.items && x.key == key && x.entry.bytes == out.body)
      && (out.status == 404 ==> HoldsInstead(sh.items, after.items, key, None))
  {
    hide LoadMeta, StorageKey, Delete;
    var key := StorageKey(r);
    LiveIs(sh, key, keep, now);
    FindIs(sh.items, key);
    DeletedAbsent(sh.items, key);
  }

  // ---- where everything held came from

  /** Some write of the run put the item there, when and as it stands, and if it is
      a descriptor, with the author's proof. */
  ghost predicate Published(events: seq<Event>, x: Item) {
    exists i :: 0 <= i < |events| && Writes(events[i], x)
  }

  predicate Writes(e: Event, x: Item) {
    e.op.Publish? && StorageKey(e.op.route) == x.key && e.op.bytes == x.entry.bytes && e.now == x.entry.at
    && (e.op.route.Descriptor? ==> e.op.authorized)
  }

  lemma PublishedLonger(events: seq<Event>, x: Item)
    requires events != [] && Published(events[..|events| - 1], x)
    ensures Published(events, x)
  {
    var init := events[..|events| - 1];
    var i :| 0 <= i < |init| && Writes(init[i], x);
    assert events[i] == init[i];
  }

  lemma PublishedLast(events: seq<Event>, x: Item)
    requires events != [] && Writes(events[|events| - 1], x)
    ensures Published(events, x)
  {
  }

  /** What one event adds. */
  lemma Adds(sh: Shard, e: Event, sha: seq<byte> -> string, keep: int, x: Item)
    requires Distinct(sh.items) && x in Apply(sh, e, sha, keep).0.items
    ensures x in sh.items || Writes(e, x)
  {
    hide LoadMeta, StorageKey, Live;
    match e.op
    case Get(r) => Reads(sh, r, keep, e.now);
    case Publish(r, bytes, authorized) =>
      Refusals(sh, r, bytes, authorized, sha, keep, e.now);
      if Proper(r, bytes, authorized, sha) {
        ProperWrites(sh, r, bytes, authorized, sha, keep, e.now);
      }
    case Sweep => LiveKept(sh.items, keep, e.now);
  }

  /** On every run from the empty archive whatever is held was published, and every
      descriptor with proof. */
  lemma {:induction false} EverythingPublished(events: seq<Event>, sha: seq<byte> -> string, keep: int)
    requires forall i :: 0 <= i < |events| ==> ValidOp(events[i].op)
    ensures forall x :: x in Run(Empty(), events, sha, keep).items ==> Published(events, x)
    decreases |events|
  {
    hide Apply, Good, Published, Writes;
    if events != [] {
      var init, e := events[..|events| - 1], events[|events| - 1];
      var sh := Run(Empty(), init, sha, keep);
      EverythingPublished(init, sha, keep);
      RunGood(init, sha, keep);
      GoodCovered(sh, sha);
      forall x | x in Apply(sh, e, sha, keep).0.items ensures Published(events, x) {
        Adds(sh, e, sha, keep, x);
        if x in sh.items {
          PublishedLonger(events, x);
        } else {
          PublishedLast(events, x);
        }
      }
    }
  }
}
