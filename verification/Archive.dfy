/** The relay's write-once archive: storage, retention, and the byte and post
    counters that are kept beside it. Every step reads the clock once. */
module Archive {
  import opened Wrappers
  import opened BroadcastPaths

  datatype Entry = Entry(bytes: seq<byte>, at: int)

  datatype Item = Item(key: string, entry: Entry)

  datatype Meta = Meta(bytes: nat, posts: nat, since: Option<int>)

  /** The storage in listing order, and the `meta` record kept with it. */
  datatype Shard = Shard(items: seq<Item>, meta: Option<Meta>)

  datatype Response = Response(status: nat, body: seq<byte>)

  const MAX_DESCRIPTOR_BYTES := 512
  const MAX_OBJECT_BYTES := 100_000
  const MAX_FORK_REPORT_BYTES := 2048
  const MAX_POSTS_PER_AUTHOR := 512
  const MAX_SHARD_BYTES := 64 * 1024 * 1024

  // ---- storage

  function Find(items: seq<Item>, key: string): Option<Entry> {
    if items == [] then None
    else if items[0].key == key then Some(items[0].entry)
    else Find(items[1..], key)
  }

  function Delete(items: seq<Item>, key: string): seq<Item> {
    if items == [] then []
    else (if items[0].key == key then [] else [items[0]]) + Delete(items[1..], key)
  }

  function Put(items: seq<Item>, key: string, e: Entry): seq<Item> {
    [Item(key, e)] + Delete(items, key)
  }

  predicate Expired(e: Entry, keep: int, now: int) {
    keep < now - e.at
  }

  function Live(items: seq<Item>, keep: int, now: int): seq<Item> {
    if items == [] then []
    else (if Expired(items[0].entry, keep, now) then [] else [items[0]]) + Live(items[1..], keep, now)
  }

  lemma DeleteNone(key: string)
    ensures Delete([], key) == []
  {
  }

  lemma DeleteStep(x: Item, rest: seq<Item>, key: string)
    ensures Delete([x] + rest, key) == (if x.key == key then [] else [x]) + Delete(rest, key)
  {
    assert ([x] + rest)[1..] == rest;
  }

  lemma LiveNone(keep: int, now: int)
    ensures Live([], keep, now) == []
  {
  }

  lemma LiveCons(x: Item, rest: seq<Item>, keep: int, now: int)
    ensures Live([x] + rest, keep, now) == (if Expired(x.entry, keep, now) then [] else [x]) + Live(rest, keep, now)
  {
    assert ([x] + rest)[1..] == rest;
  }

  predicate IsPost(key: string) {
    2 <= |key| && key[..2] == "d:"
  }

  function Bytes(items: seq<Item>): nat {
    if items == [] then 0 else |items[0].entry.bytes| + Bytes(items[1..])
  }

  function Posts(items: seq<Item>): nat {
    if items == [] then 0 else (if IsPost(items[0].key) then 1 else 0) + Posts(items[1..])
  }

  // ---- accounting

  function Floor(n: int): (r: nat)
    ensures r == n || (r == 0 && n < 0)
  {
    if n < 0 then 0 else n
  }

  /** The counters, counted again from what is live once the window has rolled. */
  function LoadMeta(sh: Shard, keep: int, now: int): Meta {
    var m := sh.meta.GetOr(Meta(0, 0, None));
    if m.since == None || now - m.since.value <= keep then m
    else
      var live := Live(sh.items, keep, now);
      Meta(Bytes(live), Posts(live), if 0 < Posts(live) || 0 < Bytes(live) then Some(now) else None)
  }

  function Forget(sh: Shard, key: string, e: Entry, keep: int, now: int): Shard {
    var rest := Shard(Delete(sh.items, key), sh.meta);
    var m := LoadMeta(rest, keep, now);
    rest.(meta := Some(Meta(Floor(m.bytes - |e.bytes|), if IsPost(key) then Floor(m.posts - 1) else m.posts, m.since)))
  }

  // ---- requests

  function Limit(r: Route): nat {
    match r
    case Descriptor(_, _) => MAX_DESCRIPTOR_BYTES
    case ForkReport(_, _) => MAX_FORK_REPORT_BYTES
    case Object(_) => MAX_OBJECT_BYTES
  }

  predicate NamesItself(r: Route, bytes: seq<byte>, sha: seq<byte> -> string) {
    match r
    case Descriptor(_, _) => true
    case ForkReport(_, hash) => sha(bytes) == hash
    case Object(hash) => sha(bytes) == hash
  }

  function Read(sh: Shard, r: Route, keep: int, now: int): (Shard, Response) {
    var key := StorageKey(r);
    match Find(sh.items, key)
    case None => (sh, Response(404, []))
    case Some(e) =>
      if Expired(e, keep, now) then (Forget(sh, key, e, keep, now), Response(404, []))
      else (sh, Response(200, e.bytes))
  }

  function Stored(sh: Shard, r: Route, bytes: seq<byte>, keep: int, now: int): (Shard, Response) {
    var m := LoadMeta(sh, keep, now);
    if MAX_SHARD_BYTES < m.bytes + |bytes| then (sh, Response(507, []))
    else if r.Descriptor? && MAX_POSTS_PER_AUTHOR <= m.posts then (sh, Response(429, []))
    else
      (Shard(Put(sh.items, StorageKey(r), Entry(bytes, now)),
             Some(Meta(m.bytes + |bytes|, m.posts + (if r.Descriptor? then 1 else 0), Some(m.since.GetOr(now))))),
       Response(201, []))
  }

  function Write(sh: Shard, r: Route, bytes: seq<byte>, authorized: bool, sha: seq<byte> -> string,
                 keep: int, now: int): (Shard, Response) {
    var key := StorageKey(r);
    if bytes == [] then (sh, Response(400, []))
    else if Limit(r) < |bytes| then (sh, Response(413, []))
    else if r.Descriptor? && !authorized then (sh, Response(403, []))
    else if !NamesItself(r, bytes, sha) then (sh, Response(400, []))
    else
      match Find(sh.items, key)
      case None => Stored(sh, r, bytes, keep, now)
      case Some(e) =>
        if Expired(e, keep, now) then Stored(Forget(sh, key, e, keep, now), r, bytes, keep, now)
        else (sh, Response(if e.bytes == bytes then 204 else 409, []))
  }

  function Swept(sh: Shard, keep: int, now: int): Shard {
    var rest := Shard(Live(sh.items, keep, now), sh.meta);
    var m := LoadMeta(rest, keep, now);
    rest.(meta := Some(Meta(Bytes(rest.items), Posts(rest.items), m.since)))
  }

  datatype Op =
    | Get(route: Route)
    | Publish(route: Route, bytes: seq<byte>, authorized: bool)
    | Sweep

  datatype Event = Event(op: Op, now: int)

  function Apply(sh: Shard, e: Event, sha: seq<byte> -> string, keep: int): (Shard, Response) {
    match e.op
    case Get(r) => Read(sh, r, keep, e.now)
    case Publish(r, bytes, authorized) => Write(sh, r, bytes, authorized, sha, keep, e.now)
    case Sweep => (Swept(sh, keep, e.now), Response(200, []))
  }

  function Run(sh: Shard, events: seq<Event>, sha: seq<byte> -> string, keep: int): Shard {
    if events == [] then sh else Apply(Run(sh, events[..|events| - 1], sha, keep), events[|events| - 1], sha, keep).0
  }

  function Empty(): Shard {
    Shard([], None)
  }

  // ---- storage laws

  lemma {:induction false} FindDeleted(items: seq<Item>, key: string, other: string)
    ensures Find(Delete(items, other), key) == if key == other then None else Find(items, key)
    decreases |items|
  {
    if items != [] {
      FindDeleted(items[1..], key, other);
      if items[0].key != other {
        assert Delete(items, other)[1..] == Delete(items[1..], other);
      } else {
        assert Delete(items, other) == Delete(items[1..], other);
      }
    }
  }

  lemma FindPut(items: seq<Item>, key: string, other: string, e: Entry)
    ensures Find(Put(items, other, e), key) == if key == other then Some(e) else Find(items, key)
  {
    FindDeleted(items, key, other);
    assert Put(items, other, e)[1..] == Delete(items, other);
  }

  ghost predicate Absent(items: seq<Item>, key: string) {
    forall i :: 0 <= i < |items| ==> items[i].key != key
  }

  ghost predicate Distinct(items: seq<Item>) {
    forall i, j :: 0 <= i < j < |items| ==> items[i].key != items[j].key
  }

  lemma {:induction false} DeletedAbsent(items: seq<Item>, key: string)
    ensures Absent(Delete(items, key), key)
    ensures forall x :: x in Delete(items, key) <==> x in items && x.key != key
    decreases |items|
  {
    if items != [] {
      DeletedAbsent(items[1..], key);
      assert items == [items[0]] + items[1..];
    }
  }

  lemma {:induction false} DeletedDistinct(items: seq<Item>, key: string)
    requires Distinct(items)
    ensures Distinct(Delete(items, key))
    decreases |items|
  {
    if items != [] {
      DeletedDistinct(items[1..], key);
      DeletedAbsent(items[1..], key);
      var d := Delete(items[1..], key);
      forall j | 0 <= j < |d| ensures d[j].key != items[0].key {
        assert d[j] in items[1..];
      }
    }
  }

  lemma {:induction false} AbsentDeleted(items: seq<Item>, key: string)
    requires Absent(items, key)
    ensures Delete(items, key) == items && Find(items, key) == None
    decreases |items|
  {
    if items != [] {
      AbsentDeleted(items[1..], key);
      assert items == [items[0]] + items[1..];
    }
  }

  lemma {:induction false} DeletedSums(items: seq<Item>, key: string, e: Entry)
    requires Distinct(items) && Find(items, key) == Some(e)
    ensures Bytes(Delete(items, key)) == Bytes(items) - |e.bytes|
    ensures Posts(Delete(items, key)) == Posts(items) - if IsPost(key) then 1 else 0
    decreases |items|
  {
    var rest := items[1..];
    if items[0].key == key {
      AbsentDeleted(rest, key);
      assert Delete(items, key) == rest;
    } else {
      DeletedSums(rest, key, e);
      assert Delete(items, key)[1..] == Delete(rest, key);
    }
  }

  lemma {:induction false} LiveKept(items: seq<Item>, keep: int, now: int)
    ensures forall x :: x in Live(items, keep, now) <==> x in items && !Expired(x.entry, keep, now)
    ensures Bytes(Live(items, keep, now)) <= Bytes(items) && Posts(Live(items, keep, now)) <= Posts(items)
    decreases |items|
  {
    if items != [] {
      LiveKept(items[1..], keep, now);
      assert items == [items[0]] + items[1..];
      var l := Live(items, keep, now);
      if !Expired(items[0].entry, keep, now) {
        assert l[1..] == Live(items[1..], keep, now);
      } else {
        assert l == Live(items[1..], keep, now);
      }
    }
  }

  lemma {:induction false} LiveDistinct(items: seq<Item>, keep: int, now: int)
    requires Distinct(items)
    ensures Distinct(Live(items, keep, now))
    decreases |items|
  {
    if items != [] {
      LiveDistinct(items[1..], keep, now);
      LiveKept(items[1..], keep, now);
      var l := Live(items[1..], keep, now);
      forall j | 0 <= j < |l| ensures l[j].key != items[0].key {
        assert l[j] in items[1..];
      }
    }
  }

  lemma {:induction false} FindLive(items: seq<Item>, key: string, keep: int, now: int)
    requires Distinct(items)
    ensures Find(Live(items, keep, now), key) ==
      match Find(items, key)
      case None => None
      case Some(e) => if Expired(e, keep, now) then None else Some(e)
    decreases |items|
  {
    if items != [] {
      FindLive(items[1..], key, keep, now);
      var l := Live(items, keep, now);
      if !Expired(items[0].entry, keep, now) {
        assert l[1..] == Live(items[1..], keep, now);
      } else {
        assert l == Live(items[1..], keep, now);
        if items[0].key == key {
          AbsentDeleted(items[1..], key);
        }
      }
    }
  }
}
