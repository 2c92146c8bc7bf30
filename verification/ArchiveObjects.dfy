/** The archive as an object over its storage. */
module ArchiveObjects {
  import opened Wrappers
  import opened Sequences
  import opened BroadcastPaths
  import opened Archive

  class BroadcastArchive {
    const keep: int
    const sha: seq<byte> -> string
    var items: seq<Item>
    var meta: Option<Meta>

    constructor (keep: int, sha: seq<byte> -> string)
      ensures this.keep == keep && this.sha == sha && State() == Empty()
    {
      this.keep, this.sha := keep, sha;
      items, meta := [], None;
    }

    ghost function State(): Shard
      reads this
    {
      Shard(items, meta)
    }

    /** Only counts: the counters in storage stay as they are. */
    method Load(now: int) returns (m: Meta)
      ensures m == LoadMeta(State(), keep, now)
    {
      m := meta.GetOr(Meta(0, 0, None));
      if m.since == None || now - m.since.value <= keep {
        return;
      }
      var all := items;
      var bytes, posts, i := 0, 0, |all|;
      while 0 < i
        invariant 0 <= i <= |all|
        invariant bytes == Bytes(Live(all[i..], keep, now)) && posts == Posts(Live(all[i..], keep, now))
      {
        i := i - 1;
        LiveStep(all[i..], keep, now);
        assert all[i..][1..] == all[i + 1..];
        if !Expired(all[i].entry, keep, now) {
          bytes := bytes + |all[i].entry.bytes|;
          if IsPost(all[i].key) {
            posts := posts + 1;
          }
        }
      }
      assert all[0..] == all;
      m := Meta(bytes, posts, if 0 < posts || 0 < bytes then Some(now) else None);
    }

    method ForgetEntry(key: string, e: Entry, now: int)
      modifies this
      ensures State() == Forget(old(State()), key, e, keep, now)
    {
      items := Delete(items, key);
      var m := Load(now);
      meta := Some(Meta(Floor(m.bytes - |e.bytes|), if IsPost(key) then Floor(m.posts - 1) else m.posts, m.since));
    }

    method ReadRoute(r: Route, now: int) returns (out: Response)
      modifies this
      ensures (State(), out) == Read(old(State()), r, keep, now)
    {
      var key := StorageKey(r);
      var held := Find(items, key);
      if held == None {
        return Response(404, []);
      }
      if Expired(held.value, keep, now) {
        ForgetEntry(key, held.value, now);
        return Response(404, []);
      }
      out := Response(200, held.value.bytes);
    }

    method WriteRoute(r: Route, bytes: seq<byte>, authorized: bool, now: int) returns (out: Response)
      modifies this
      ensures (State(), out) == Write(old(State()), r, bytes, authorized, sha, keep, now)
    {
      hide Find, LoadMeta, Put, Forget, StorageKey, NamesItself;
      if bytes == [] {
        return Response(400, []);
      }
      if Limit(r) < |bytes| {
        return Response(413, []);
      }
      if r.Descriptor? && !authorized {
        return Response(403, []);
      }
      if !NamesItself(r, bytes, sha) {
        return Response(400, []);
      }
      var key := StorageKey(r);
      var held := Find(items, key);
      if held.Some? && Expired(held.value, keep, now) {
        ForgetEntry(key, held.value, now);
      }
      if held.Some? && !Expired(held.value, keep, now) {
        return Response(if held.value.bytes == bytes then 204 else 409, []);
      }
      var m := Load(now);
      if MAX_SHARD_BYTES < m.bytes + |bytes| {
        return Response(507, []);
      }
      if r.Descriptor? && MAX_POSTS_PER_AUTHOR <= m.posts {
        return Response(429, []);
      }
      items := Put(items, key, Entry(bytes, now));
      meta := Some(Meta(m.bytes + |bytes|, m.posts + (if r.Descriptor? then 1 else 0), Some(m.since.GetOr(now))));
      out := Response(201, []);
    }

    /** The number of entries removed; what stays is exactly what is live. */
    method SweepAll(now: int) returns (removed: nat)
      requires Distinct(items)
      modifies this
      ensures State() == Swept(old(State()), keep, now)
      ensures removed == |old(items)| - |Live(old(items), keep, now)|
    {
      hide Find, Delete, Live, Bytes, Posts, LoadMeta, Distinct, Expired;
      var all := items;
      var liveBytes, livePosts := 0, 0;
      removed := 0;
      var i := 0;
      NoneLive(keep, now);
      assert all[..0] == [] && [] + all[0..] == all;
      while i < |all|
        invariant 0 <= i <= |all|
        invariant items == Live(all[..i], keep, now) + all[i..]
        invariant liveBytes == Bytes(Live(all[..i], keep, now)) && livePosts == Posts(Live(all[..i], keep, now))
        invariant removed == i - |Live(all[..i], keep, now)|
        invariant meta == old(meta)
      {
        var x := all[i];
        LiveAppend(all[..i], x, keep, now);
        assert all[..i + 1] == all[..i] + [x];
        if Expired(x.entry, keep, now) {
          DeleteHere(all, i, keep, now);
          items := Delete(items, x.key);
          removed := removed + 1;
        } else {
          KeepHere(all, i, Live(all[..i], keep, now));
          liveBytes := liveBytes + |x.entry.bytes|;
          if IsPost(x.key) {
            livePosts := livePosts + 1;
          }
        }
        i := i + 1;
      }
      assert all[..i] == all && all[i..] == [];
      assert Live(all, keep, now) + [] == Live(all, keep, now);
      var m := Load(now);
      meta := Some(Meta(liveBytes, livePosts, m.since));
    }
  }

  lemma NoneLive(keep: int, now: int)
    ensures Live([], keep, now) == [] && Bytes([]) == 0 && Posts([]) == 0
  {
  }

  lemma LiveStep(s: seq<Item>, keep: int, now: int)
    requires s != []
    ensures var x := s[0]; var rest := Live(s[1..], keep, now);
      && Bytes(Live(s, keep, now)) == Bytes(rest) + (if Expired(x.entry, keep, now) then 0 else |x.entry.bytes|)
      && Posts(Live(s, keep, now)) ==
           Posts(rest) + if !Expired(x.entry, keep, now) && IsPost(x.key) then 1 else 0
  {
    var l := Live(s, keep, now);
    if Expired(s[0].entry, keep, now) {
      assert l == Live(s[1..], keep, now);
    } else {
      assert l[1..] == Live(s[1..], keep, now);
    }
  }

  lemma {:induction false} SumsAppend(s: seq<Item>, x: Item)
    ensures Bytes(s + [x]) == Bytes(s) + |x.entry.bytes|
    ensures Posts(s + [x]) == Posts(s) + if IsPost(x.key) then 1 else 0
    decreases |s|
  {
    var t := s + [x];
    if s == [] {
      assert t[1..] == [];
      assert Bytes(t[1..]) == 0 && Posts(t[1..]) == 0;
    } else {
      SumsAppend(s[1..], x);
      assert t[1..] == s[1..] + [x];
    }
  }

  lemma {:induction false} LiveOfAppend(s: seq<Item>, x: Item, keep: int, now: int)
    ensures Live(s + [x], keep, now) == Live(s, keep, now) + if Expired(x.entry, keep, now) then [] else [x]
    decreases |s|
  {
    hide Live, Expired;
    if s == [] {
      assert s + [x] == [x] + [] == [x];
      LiveCons(x, [], keep, now);
      LiveNone(keep, now);
    } else {
      var a, rest := s[0], s[1..];
      LiveOfAppend(rest, x, keep, now);
      assert s == [a] + rest && s + [x] == [a] + (rest + [x]);
      LiveCons(a, rest, keep, now);
      LiveCons(a, rest + [x], keep, now);
      Assoc(if Expired(a.entry, keep, now) then [] else [a], Live(rest, keep, now),
            if Expired(x.entry, keep, now) then [] else [x]);
    }
  }

  lemma LiveAppend(s: seq<Item>, x: Item, keep: int, now: int)
    ensures var l := Live(s, keep, now);
      && Live(s + [x], keep, now) == (if Expired(x.entry, keep, now) then l else l + [x])
      && Bytes(l + [x]) == Bytes(l) + |x.entry.bytes|
      && Posts(l + [x]) == Posts(l) + if IsPost(x.key) then 1 else 0
  {
    hide Live, Bytes, Posts;
    LiveOfAppend(s, x, keep, now);
    SumsAppend(Live(s, keep, now), x);
    assert Live(s, keep, now) + [] == Live(s, keep, now);
  }

  lemma {:induction false} DeleteFrom(a: seq<Item>, b: seq<Item>, key: string)
    ensures Delete(a + b, key) == Delete(a, key) + Delete(b, key)
    decreases |a|
  {
    hide Delete;
    if a == [] {
      assert a + b == b && [] + Delete(b, key) == Delete(b, key);
      DeleteNone(key);
    } else {
      var x, rest := a[0], a[1..];
      DeleteFrom(rest, b, key);
      assert a == [x] + rest && a + b == [x] + (rest + b);
      DeleteStep(x, rest + b, key);
      DeleteStep(x, rest, key);
      Assoc(if x.key == key then [] else [x], Delete(rest, key), Delete(b, key));
    }
  }

  lemma LiveAbsent(all: seq<Item>, i: nat, keep: int, now: int)
    requires Distinct(all) && i < |all|
    ensures Absent(Live(all[..i], keep, now), all[i].key) && Absent(all[i + 1..], all[i].key)
  {
    hide Live;
    var l := Live(all[..i], keep, now);
    LiveKept(all[..i], keep, now);
    forall k | 0 <= k < |l| ensures l[k].key != all[i].key {
      assert l[k] in all[..i];
    }
  }

  /** Deleting the entry the sweep stands at touches nothing else. */
  lemma DeleteHere(all: seq<Item>, i: nat, keep: int, now: int)
    requires Distinct(all) && i < |all|
    ensures var l := Live(all[..i], keep, now); Delete(l + all[i..], all[i].key) == l + all[i + 1..]
  {
    hide *;
    var l, x, rest := Live(all[..i], keep, now), all[i], all[i + 1..];
    LiveAbsent(all, i, keep, now);
    AbsentDeleted(l, x.key);
    AbsentDeleted(rest, x.key);
    assert all[i..] == [x] + rest;
    DeleteStep(x, rest, x.key);
    assert [] + rest == rest;
    DeleteFrom(l, all[i..], x.key);
  }

  lemma KeepHere(all: seq<Item>, i: nat, l: seq<Item>)
    requires i < |all|
    ensures l + all[i..] == (l + [all[i]]) + all[i + 1..]
  {
  }
}
