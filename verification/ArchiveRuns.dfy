/** What the archive keeps over every run, and where its counters are exact. */
module ArchiveRuns {
  import opened Wrappers
  import opened BroadcastPaths
  import opened Archive

  // ---- nothing stored under a false name, nothing accounted that is not stored

  /** An object or fork report hashes to the name it is filed under. */
  ghost predicate TrueName(x: Item, sha: seq<byte> -> string) {
    exists r :: Valid(r) && StorageKey(r) == x.key && NamesItself(r, x.entry.bytes, sha)
      && 1 <= |x.entry.bytes| <= Limit(r)
  }

  ghost predicate Covered(sh: Shard) {
    var m := sh.meta.GetOr(Meta(0, 0, None));
    m.bytes <= Bytes(sh.items) && m.posts <= Posts(sh.items)
  }

  ghost predicate Good(sh: Shard, sha: seq<byte> -> string) {
    Distinct(sh.items) && (forall x :: x in sh.items ==> TrueName(x, sha)) && Covered(sh)
  }

  ghost predicate ValidOp(op: Op) {
    op != Sweep ==> Valid(op.route)
  }

  lemma LoadedCovered(sh: Shard, keep: int, now: int)
    requires Covered(sh)
    ensures LoadMeta(sh, keep, now).bytes <= Bytes(sh.items) && LoadMeta(sh, keep, now).posts <= Posts(sh.items)
  {
    LiveKept(sh.items, keep, now);
  }

  lemma ForgetGood(sh: Shard, key: string, e: Entry, keep: int, now: int, sha: seq<byte> -> string)
    requires Good(sh, sha) && Find(sh.items, key) == Some(e)
    ensures Good(Forget(sh, key, e, keep, now), sha)
  {
    hide TrueName, Bytes, Posts, Delete, Find, Live;
    DeletedSums(sh.items, key, e);
    DeletedAbsent(sh.items, key);
    DeletedDistinct(sh.items, key);
    LiveKept(Delete(sh.items, key), keep, now);
  }

  lemma PutGood(sh: Shard, r: Route, bytes: seq<byte>, m: Meta, now: int, sha: seq<byte> -> string)
    requires Good(sh, sha) && Valid(r) && Find(sh.items, StorageKey(r)) == None
    requires m.bytes <= Bytes(sh.items) && m.posts <= Posts(sh.items)
    requires NamesItself(r, bytes, sha) && 1 <= |bytes| <= Limit(r)
    ensures Good(Shard(Put(sh.items, StorageKey(r), Entry(bytes, now)),
      Some(Meta(m.bytes + |bytes|, m.posts + (if r.Descriptor? then 1 else 0), Some(m.since.GetOr(now))))), sha)
  {
    var key, x := StorageKey(r), Item(StorageKey(r), Entry(bytes, now));
    NotFound(sh.items, key);
    AbsentDeleted(sh.items, key);
    var items := Put(sh.items, key, Entry(bytes, now));
    assert items == [x] + sh.items && items[1..] == sh.items;
    assert TrueName(x, sha);
    PostKey(r);
    forall i, j | 0 <= i < j < |items| ensures items[i].key != items[j].key {
      assert items[j] == sh.items[j - 1];
      assert i != 0 ==> items[i] == sh.items[i - 1];
    }
  }

  lemma PostKey(r: Route)
    requires Valid(r)
    ensures IsPost(StorageKey(r)) <==> r.Descriptor?
  {
    KeyShape(r);
  }

  lemma {:induction false} NotFound(items: seq<Item>, key: string)
    requires Find(items, key) == None
    ensures Absent(items, key)
    decreases |items|
  {
    if items != [] {
      NotFound(items[1..], key);
    }
  }

  lemma StoredGood(sh: Shard, r: Route, bytes: seq<byte>, keep: int, now: int, sha: seq<byte> -> string)
    requires Good(sh, sha) && Valid(r) && Find(sh.items, StorageKey(r)) == None
    requires NamesItself(r, bytes, sha) && 1 <= |bytes| <= Limit(r)
    ensures Good(Stored(sh, r, bytes, keep, now).0, sha)
  {
    hide Good, LoadMeta, Put;
    assert Covered(sh) by {
      GoodCovered(sh, sha);
    }
    LoadedCovered(sh, keep, now);
    PutGood(sh, r, bytes, LoadMeta(sh, keep, now), now, sha);
  }

  lemma GoodCovered(sh: Shard, sha: seq<byte> -> string)
    requires Good(sh, sha)
    ensures Covered(sh) && Distinct(sh.items)
  {
  }

  lemma ApplyGood(sh: Shard, e: Event, sha: seq<byte> -> string, keep: int)
    requires Good(sh, sha) && ValidOp(e.op)
    ensures Good(Apply(sh, e, sha, keep).0, sha)
  {
    hide Good, Stored, Forget, Find, Swept, LoadMeta, NamesItself;
    match e.op
    case Get(r) =>
      var held := Find(sh.items, StorageKey(r));
      if held.Some? {
        ForgetGood(sh, StorageKey(r), held.value, keep, e.now, sha);
      }
    case Publish(r, bytes, authorized) =>
      var key := StorageKey(r);
      var held := Find(sh.items, key);
      if bytes != [] && |bytes| <= Limit(r) && NamesItself(r, bytes, sha) {
        if held == None {
          StoredGood(sh, r, bytes, keep, e.now, sha);
        } else if Expired(held.value, keep, e.now) {
          ForgetGood(sh, key, held.value, keep, e.now, sha);
          Forgotten(sh, key, held.value, keep, e.now);
          StoredGood(Forget(sh, key, held.value, keep, e.now), r, bytes, keep, e.now, sha);
        }
      }
    case Sweep =>
      SweptGood(sh, keep, e.now, sha);
  }

  lemma Forgotten(sh: Shard, key: string, e: Entry, keep: int, now: int)
    ensures Find(Forget(sh, key, e, keep, now).items, key) == None
  {
    FindDeleted(sh.items, key, key);
  }

  lemma SweptGood(sh: Shard, keep: int, now: int, sha: seq<byte> -> string)
    requires Good(sh, sha)
    ensures Good(Swept(sh, keep, now), sha)
  {
    hide TrueName;
    LiveKept(sh.items, keep, now);
    LiveDistinct(sh.items, keep, now);
  }

  /** On every run from an empty shard. */
  lemma {:induction false} RunGood(events: seq<Event>, sha: seq<byte> -> string, keep: int)
    requires forall i :: 0 <= i < |events| ==> ValidOp(events[i].op)
    ensures Good(Run(Empty(), events, sha, keep), sha)
    decreases |events|
  {
    hide Apply, TrueName;
    if events != [] {
      RunGood(events[..|events| - 1], sha, keep);
      ApplyGood(Run(Empty(), events[..|events| - 1], sha, keep), events[|events| - 1], sha, keep);
    }
  }

  /** A write is refused as full, or as one post too many, only when what is
      stored really leaves no room for it. */
  lemma {:induction false} NeverSpurious(sh: Shard, r: Route, bytes: seq<byte>, authorized: bool, sha: seq<byte> -> string,
                      keep: int, now: int)
    requires Good(sh, sha) && Valid(r)
    ensures var status := Write(sh, r, bytes, authorized, sha, keep, now).1.status;
      && (status == 507 ==> MAX_SHARD_BYTES < Bytes(sh.items) + |bytes|)
      && (status == 429 ==> r.Descriptor? && MAX_POSTS_PER_AUTHOR <= Posts(sh.items))
  {
    hide Good, LoadMeta, Put, Find, Forget, NamesItself, Bytes, Posts;
    var key := StorageKey(r);
    var held := Find(sh.items, key);
    GoodCovered(sh, sha);
    LoadedCovered(sh, keep, now);
    if held.Some? && Expired(held.value, keep, now) {
      var f := Forget(sh, key, held.value, keep, now);
      ForgetGood(sh, key, held.value, keep, now, sha);
      GoodCovered(f, sha);
      LoadedCovered(f, keep, now);
      ForgottenSums(sh, key, held.value, keep, now);
    }
  }

  lemma ForgottenSums(sh: Shard, key: string, e: Entry, keep: int, now: int)
    requires Distinct(sh.items) && Find(sh.items, key) == Some(e)
    ensures var f := Forget(sh, key, e, keep, now); Bytes(f.items) <= Bytes(sh.items) && Posts(f.items) <= Posts(sh.items)
  {
    DeletedSums(sh.items, key, e);
  }

  // ---- first bytes stay until the retention ends

  lemma ApplyKeeps(sh: Shard, e: Event, sha: seq<byte> -> string, keep: int, key: string, held: Entry)
    requires Distinct(sh.items) && Find(sh.items, key) == Some(held) && e.now - held.at <= keep
    ensures Find(Apply(sh, e, sha, keep).0.items, key) == Some(held)
  {
    hide Find, LoadMeta, NamesItself, Put, Delete, Live, StorageKey;
    match e.op
    case Get(r) =>
      FindDeleted(sh.items, key, StorageKey(r));
    case Publish(r, bytes, authorized) =>
      var k := StorageKey(r);
      FindDeleted(sh.items, key, k);
      FindPut(sh.items, key, k, Entry(bytes, e.now));
      FindPut(Delete(sh.items, k), key, k, Entry(bytes, e.now));
    case Sweep =>
      FindLive(sh.items, key, keep, e.now);
  }

  ghost predicate Until(events: seq<Event>, last: int) {
    forall i :: 0 <= i < |events| ==> events[i].now <= last
  }

  lemma {:induction false} RunKeeps(sh: Shard, events: seq<Event>, sha: seq<byte> -> string, keep: int,
                                    key: string, held: Entry)
    requires Good(sh, sha) && Find(sh.items, key) == Some(held) && Until(events, held.at + keep)
    requires forall i :: 0 <= i < |events| ==> ValidOp(events[i].op)
    ensures Find(Run(sh, events, sha, keep).items, key) == Some(held) && Good(Run(sh, events, sha, keep), sha)
    decreases |events|
  {
    hide Find, Apply, Good;
    if events != [] {
      var init, e := events[..|events| - 1], events[|events| - 1];
      var before := Run(sh, init, sha, keep);
      RunKeeps(sh, init, sha, keep, key, held);
      GoodCovered(before, sha);
      ApplyKeeps(before, e, sha, keep, key, held);
      ApplyGood(before, e, sha, keep);
    }
  }

  /** A write that was accepted holds its address: whatever happens until its
      retention ends, a read returns exactly its bytes, the same bytes are
      accepted again, and different bytes are refused. */
  lemma {:induction false} WriteOnce(sh: Shard, r: Route, bytes: seq<byte>, authorized: bool, sha: seq<byte> -> string, keep: int,
                  t: int, events: seq<Event>, now: int, other: seq<byte>)
    requires Good(sh, sha) && Valid(r) && Write(sh, r, bytes, authorized, sha, keep, t).1.status == 201
    requires Until(events, t + keep) && now <= t + keep
    requires forall i :: 0 <= i < |events| ==> ValidOp(events[i].op)
    requires other != [] && |other| <= Limit(r) && NamesItself(r, other, sha)
    ensures var later := Run(Write(sh, r, bytes, authorized, sha, keep, t).0, events, sha, keep);
      && Read(later, r, keep, now) == (later, Response(200, bytes))
      && Write(later, r, other, true, sha, keep, now) == (later, Response(if other == bytes then 204 else 409, []))
  {
    hide Find, Good, Run, Write, NamesItself;
    var written := Write(sh, r, bytes, authorized, sha, keep, t).0;
    Accepted(sh, r, bytes, authorized, sha, keep, t);
    RunKeeps(written, events, sha, keep, StorageKey(r), Entry(bytes, t));
    Held(Run(written, events, sha, keep), r, other, sha, keep, now, Entry(bytes, t));
  }

  lemma Accepted(sh: Shard, r: Route, bytes: seq<byte>, authorized: bool, sha: seq<byte> -> string, keep: int, t: int)
    requires Good(sh, sha) && Valid(r) && Write(sh, r, bytes, authorized, sha, keep, t).1.status == 201
    ensures var written := Write(sh, r, bytes, authorized, sha, keep, t).0;
      Find(written.items, StorageKey(r)) == Some(Entry(bytes, t)) && Good(written, sha)
  {
    hide Find, Good, LoadMeta, Put, Forget, NamesItself;
    var key := StorageKey(r);
    var held := Find(sh.items, key);
    FindPut(sh.items, key, key, Entry(bytes, t));
    if held.Some? {
      FindPut(Forget(sh, key, held.value, keep, t).items, key, key, Entry(bytes, t));
    }
    ApplyGood(sh, Event(Publish(r, bytes, authorized), t), sha, keep);
  }

  lemma Held(sh: Shard, r: Route, other: seq<byte>, sha: seq<byte> -> string, keep: int, now: int, e: Entry)
    requires Find(sh.items, StorageKey(r)) == Some(e) && now - e.at <= keep
    requires other != [] && |other| <= Limit(r) && NamesItself(r, other, sha)
    ensures Read(sh, r, keep, now) == (sh, Response(200, e.bytes))
    ensures Write(sh, r, other, true, sha, keep, now) == (sh, Response(if other == e.bytes then 204 else 409, []))
  {
  }

  /** After its retention an entry is not served, and its address is free. */
  lemma {:induction false} Released(sh: Shard, r: Route, keep: int, now: int, e: Entry)
    requires Find(sh.items, StorageKey(r)) == Some(e) && keep < now - e.at
    ensures Read(sh, r, keep, now).1.status == 404
    ensures Find(Read(sh, r, keep, now).0.items, StorageKey(r)) == None
  {
    Forgotten(sh, StorageKey(r), e, keep, now);
  }

  // ---- where the counters are exact

  ghost predicate Exact(sh: Shard) {
    var m := sh.meta.GetOr(Meta(0, 0, None));
    m.bytes == Bytes(sh.items) && m.posts == Posts(sh.items)
  }

  /** A sweep keeps exactly what is live and leaves the counters exact. */
  lemma {:induction false} SweepExact(sh: Shard, keep: int, now: int)
    ensures var s := Swept(sh, keep, now);
      Exact(s) && forall x :: x in s.items <==> x in sh.items && !Expired(x.entry, keep, now)
  {
    LiveKept(sh.items, keep, now);
  }

  ghost predicate Rolled(sh: Shard, keep: int, now: int) {
    var m := sh.meta.GetOr(Meta(0, 0, None));
    m.since.Some? && keep < now - m.since.value
  }

  lemma {:induction false} AllLive(items: seq<Item>, keep: int, now: int)
    requires forall i :: 0 <= i < |items| ==> items[i].entry.bytes != []
    ensures Bytes(Live(items, keep, now)) == Bytes(items) <==> Live(items, keep, now) == items
    decreases |items|
  {
    if items != [] {
      var rest := items[1..];
      AllLive(rest, keep, now);
      LiveKept(rest, keep, now);
      var l := Live(items, keep, now);
      if Expired(items[0].entry, keep, now) {
        assert l == Live(rest, keep, now);
      } else {
        assert l[1..] == Live(rest, keep, now);
      }
    }
  }

  /** Storing keeps exact counters exact if and only if the window has not
      rolled or nothing in the shard has expired unswept. */
  lemma {:induction false} StoreExact(sh: Shard, r: Route, bytes: seq<byte>, keep: int, now: int)
    requires Exact(sh) && Valid(r) && Find(sh.items, StorageKey(r)) == None
    requires forall i :: 0 <= i < |sh.items| ==> sh.items[i].entry.bytes != []
    requires Stored(sh, r, bytes, keep, now).1.status == 201
    ensures Exact(Stored(sh, r, bytes, keep, now).0) <==>
      (!Rolled(sh, keep, now) || Live(sh.items, keep, now) == sh.items)
  {
    hide Live, StorageKey;
    var key := StorageKey(r);
    NotFound(sh.items, key);
    AbsentDeleted(sh.items, key);
    PostKey(r);
    AllLive(sh.items, keep, now);
    var items := Put(sh.items, key, Entry(bytes, now));
    assert items[1..] == sh.items;
  }

  /** Two objects, the second stored later within the window, leave the
      counter short: reading the first after it expired takes its bytes off a
      count that no longer had them, while the second is still live. */
  lemma {:induction false} CounterDrifts(r: Route, q: Route, a: seq<byte>, b: seq<byte>, sha: seq<byte> -> string, keep: int, t: int, now: int)
    requires r.Object? && q.Object? && Valid(r) && Valid(q) && r != q
    requires NamesItself(r, a, sha) && NamesItself(q, b, sha)
    requires 1 <= |a| <= MAX_OBJECT_BYTES && 1 <= |b| <= MAX_OBJECT_BYTES
    requires 0 < t <= keep && keep < now <= keep + t
    ensures var events := [Event(Publish(r, a, false), 0), Event(Publish(q, b, false), t), Event(Get(r), now)];
      var sh := Run(Empty(), events, sha, keep);
      && Live(sh.items, keep, now) == sh.items == [Item(StorageKey(q), Entry(b, t))]
      && sh.meta == Some(Meta(Floor(|b| - |a|), 0, Some(now)))
  {
    hide Valid, StorageKey, NamesItself;
    KeysDistinct(r, q);
    var e1, e2, e3 := Event(Publish(r, a, false), 0), Event(Publish(q, b, false), t), Event(Get(r), now);
    var x, y := Item(StorageKey(r), Entry(a, 0)), Item(StorageKey(q), Entry(b, t));
    FirstStored(r, a, sha, keep);
    SecondStored(r, q, a, b, sha, keep, t);
    FirstExpires(r, q, a, b, keep, t, now);
    var events := [e1, e2, e3];
    assert events[..2] == [e1, e2] && [e1, e2][..1] == [e1] && [e1][..0] == [];
    assert Run(Empty(), [e1][..0], sha, keep) == Empty();
    assert Run(Empty(), [e1], sha, keep) == Shard([x], Some(Meta(|a|, 0, Some(0))));
    assert Run(Empty(), [e1, e2], sha, keep) == Shard([y, x], Some(Meta(|a| + |b|, 0, Some(0))));
  }

  /** The same happens without a roll: the store of a third object recounts
      without the expired first one and opens a new window, in which the read
      of the first one takes its bytes off. */
  lemma {:induction false} CounterDriftsInWindow(r: Route, q: Route, z: Route, a: seq<byte>, b: seq<byte>, c: seq<byte>,
                                                 sha: seq<byte> -> string, keep: int, t: int, u: int)
    requires r.Object? && q.Object? && z.Object? && Valid(r) && Valid(q) && Valid(z) && r != q && r != z && q != z
    requires NamesItself(r, a, sha) && NamesItself(q, b, sha) && NamesItself(z, c, sha)
    requires 1 <= |a| <= MAX_OBJECT_BYTES && 1 <= |b| <= MAX_OBJECT_BYTES && 1 <= |c| <= MAX_OBJECT_BYTES
    requires 0 < t <= keep && keep < u <= keep + t
    ensures var events := [Event(Publish(r, a, false), 0), Event(Publish(q, b, false), t), Event(Publish(z, c, false), u)];
      var before := Run(Empty(), events, sha, keep);
      var sh := Run(Empty(), events + [Event(Get(r), u)], sha, keep);
      && !Rolled(before, keep, u)
      && Live(sh.items, keep, u) == sh.items == [Item(StorageKey(z), Entry(c, u)), Item(StorageKey(q), Entry(b, t))]
      && sh.meta == Some(Meta(Floor(|b| + |c| - |a|), 0, Some(u)))
  {
    hide Valid, StorageKey, NamesItself, Apply, Live;
    KeysDistinct(r, q);
    KeysDistinct(r, z);
    KeysDistinct(q, z);
    var e1, e2, e3, e4 :=
      Event(Publish(r, a, false), 0), Event(Publish(q, b, false), t), Event(Publish(z, c, false), u), Event(Get(r), u);
    var x, y, w := Item(StorageKey(r), Entry(a, 0)), Item(StorageKey(q), Entry(b, t)), Item(StorageKey(z), Entry(c, u));
    FirstStored(r, a, sha, keep);
    SecondStored(r, q, a, b, sha, keep, t);
    ThirdStored(r, q, z, a, b, c, sha, keep, t, u);
    FirstForgotten(r, q, z, a, b, c, sha, keep, t, u);
    var events := [e1, e2, e3];
    assert (events + [e4])[..3] == events && events[..2] == [e1, e2] && [e1, e2][..1] == [e1] && [e1][..0] == [];
    assert Run(Empty(), [e1][..0], sha, keep) == Empty();
    assert Run(Empty(), [e1], sha, keep) == Shard([x], Some(Meta(|a|, 0, Some(0))));
    assert Run(Empty(), [e1, e2], sha, keep) == Shard([y, x], Some(Meta(|a| + |b|, 0, Some(0))));
    assert Run(Empty(), events, sha, keep) == Shard([w, y, x], Some(Meta(|b| + |c|, 0, Some(u))));
  }

  lemma ThirdStored(r: Route, q: Route, z: Route, a: seq<byte>, b: seq<byte>, c: seq<byte>, sha: seq<byte> -> string,
                    keep: int, t: int, u: int)
    requires r.Object? && q.Object? && z.Object? && StorageKey(r) != StorageKey(z) && StorageKey(q) != StorageKey(z)
    requires NamesItself(z, c, sha) && 1 <= |b| <= MAX_OBJECT_BYTES && 1 <= |c| <= MAX_OBJECT_BYTES
    requires 0 < t <= keep && keep < u <= keep + t
    ensures var x, y := Item(StorageKey(r), Entry(a, 0)), Item(StorageKey(q), Entry(b, t));
      Apply(Shard([y, x], Some(Meta(|a| + |b|, 0, Some(0)))), Event(Publish(z, c, false), u), sha, keep).0 ==
        Shard([Item(StorageKey(z), Entry(c, u)), y, x], Some(Meta(|b| + |c|, 0, Some(u))))
  {
    hide NamesItself;
    var x, y := Item(StorageKey(r), Entry(a, 0)), Item(StorageKey(q), Entry(b, t));
    var items := [y, x];
    AbsentDeleted(items, StorageKey(z));
    YoungerLive(x, y, keep, u);
    assert !IsPost(y.key) by { assert y.key[..2][0] == 'o'; }
  }

  /** Of an expired and a live entry the live one counts. */
  lemma YoungerLive(x: Item, y: Item, keep: int, now: int)
    requires Expired(x.entry, keep, now) && !Expired(y.entry, keep, now)
    ensures Live([y, x], keep, now) == [y]
    ensures Bytes([y]) == |y.entry.bytes| && Posts([y]) == if IsPost(y.key) then 1 else 0
  {
    var items := [y, x];
    assert items[1..] == [x] && [x][1..] == [] && [y][1..] == [];
    assert Live([x][1..], keep, now) == [] && Live([x], keep, now) == [];
    assert Bytes([y][1..]) == 0 && Posts([y][1..]) == 0;
  }

  lemma FirstForgotten(r: Route, q: Route, z: Route, a: seq<byte>, b: seq<byte>, c: seq<byte>, sha: seq<byte> -> string,
                       keep: int, t: int, u: int)
    requires r.Object? && StorageKey(r) != StorageKey(z) && StorageKey(r) != StorageKey(q)
    requires 0 < t <= keep && keep < u <= keep + t
    ensures var x, y, w :=
        Item(StorageKey(r), Entry(a, 0)), Item(StorageKey(q), Entry(b, t)), Item(StorageKey(z), Entry(c, u));
      && Live([w, y], keep, u) == [w, y]
      && Apply(Shard([w, y, x], Some(Meta(|b| + |c|, 0, Some(u)))), Event(Get(r), u), sha, keep).0 ==
           Shard([w, y], Some(Meta(Floor(|b| + |c| - |a|), 0, Some(u))))
  {
    var x, y, w := Item(StorageKey(r), Entry(a, 0)), Item(StorageKey(q), Entry(b, t)), Item(StorageKey(z), Entry(c, u));
    var items := [w, y, x];
    assert items[1..] == [y, x] && [y, x][1..] == [x] && [x][1..] == [] && [w, y][1..] == [y] && [y][1..] == [];
    assert Delete([x][1..], x.key) == [] && Delete([x], x.key) == [];
    assert Delete([y, x], x.key) == [y] && Delete(items, x.key) == [w, y];
    assert Live([y][1..], keep, u) == [] && Live([y], keep, u) == [y];
    assert Find([x], x.key) == Some(x.entry) && Find([y, x], x.key) == Some(x.entry) && Find(items, x.key) == Some(x.entry);
    assert !IsPost(x.key) by { assert x.key[..2][0] == 'o'; }
  }

  lemma FirstStored(r: Route, a: seq<byte>, sha: seq<byte> -> string, keep: int)
    requires r.Object? && NamesItself(r, a, sha) && 1 <= |a| <= MAX_OBJECT_BYTES
    ensures Apply(Empty(), Event(Publish(r, a, false), 0), sha, keep).0 ==
      Shard([Item(StorageKey(r), Entry(a, 0))], Some(Meta(|a|, 0, Some(0))))
  {
    hide StorageKey, NamesItself;
  }

  lemma SecondStored(r: Route, q: Route, a: seq<byte>, b: seq<byte>, sha: seq<byte> -> string, keep: int, t: int)
    requires r.Object? && q.Object? && StorageKey(r) != StorageKey(q) && NamesItself(q, b, sha)
    requires 1 <= |a| <= MAX_OBJECT_BYTES && 1 <= |b| <= MAX_OBJECT_BYTES && 0 < t <= keep
    ensures Apply(Shard([Item(StorageKey(r), Entry(a, 0))], Some(Meta(|a|, 0, Some(0)))),
                  Event(Publish(q, b, false), t), sha, keep).0 ==
      Shard([Item(StorageKey(q), Entry(b, t)), Item(StorageKey(r), Entry(a, 0))], Some(Meta(|a| + |b|, 0, Some(0))))
  {
    hide StorageKey, NamesItself;
    var items := [Item(StorageKey(r), Entry(a, 0))];
    assert Absent(items, StorageKey(q));
    AbsentDeleted(items, StorageKey(q));
  }

  lemma FirstExpires(r: Route, q: Route, a: seq<byte>, b: seq<byte>, keep: int, t: int, now: int)
    requires r.Object? && q.Object? && Valid(q) && StorageKey(r) != StorageKey(q)
    requires 1 <= |a| && 1 <= |b| && 0 < t <= keep && keep < now <= keep + t
    ensures var y := Item(StorageKey(q), Entry(b, t));
      && Live([y], keep, now) == [y]
      && !IsPost(StorageKey(r))
      && Read(Shard([y, Item(StorageKey(r), Entry(a, 0))], Some(Meta(|a| + |b|, 0, Some(0)))), r, keep, now).0 ==
           Shard([y], Some(Meta(Floor(|b| - |a|), 0, Some(now))))
  {
    PostKey(q);
    var x, y := Item(StorageKey(r), Entry(a, 0)), Item(StorageKey(q), Entry(b, t));
    var items := [y, x];
    assert items[1..] == [x] && [x][1..] == [] && [y][1..] == [];
    assert Delete([x], x.key) == [];
    assert Delete(items, x.key) == [y];
    assert Live([y][1..], keep, now) == [] && Live([y], keep, now) == [y];
    assert Bytes([y][1..]) == 0 && Posts([y][1..]) == 0;
    assert Bytes([y]) == |b| && Posts([y]) == 0;
    assert Find(items, x.key) == Find([x], x.key) == Some(x.entry);
  }
}
