/** The hub's counters and a session's fields as objects that change in place,
    one method per lock section, each tied to the step `StreamLane` proves
    safe in every interleaving. */
module StreamObjects {
  import opened Wrappers
  import opened StreamLane
  import opened StreamResume

  class Hub {
    var gen: nat
    var bytesCarried: int
    var records: nat
    var connections: nat
    var claimed: seq<Id>
    var metas: map<Id, Meta>
    var parts: map<Id, Bytes>
    var completes: map<Id, Done>
    var events: seq<Event>

    function Value(): Store
      reads this
    {
      Store(gen, bytesCarried, records, connections, claimed, metas, parts, completes, events)
    }

    constructor ()
      ensures Value() == EMPTY_STORE
    {
      gen, bytesCarried, records, connections := 0, 0, 0, 0;
      claimed, metas, parts, completes, events := [], map[], map[], map[], [];
    }

    /** What the other sessions made of the hub while the lock was free. */
    method Become(st: Store)
      modifies this
      ensures Value() == st
    {
      gen, bytesCarried, records, connections := st.gen, st.bytesCarried, st.records, st.connections;
      claimed, metas, parts, completes, events := st.claimed, st.metas, st.parts, st.completes, st.events;
    }

    /** `_stream_complete`. */
    method StreamComplete(w: World, id: Id, meta: Meta, key: Key)
      modifies this
      ensures Value() == Completed(w, old(Value()), id, meta, key)
    {
      if id in completes {
        return;
      }
      var payload := if id in parts then parts[id] else [];
      var sigOk := w.verify(key, meta.sig, payload);
      events := events + [Event(id, payload, key, sigOk, w.known(key))];
      completes := completes[id := Done(sigOk, w.known(key), |payload|)];
      records := records + 1;
    }
  }

  class StreamSession {
    const hub: Hub
    const key: Key
    var gen: Option<nat>
    var phase: Phase
    var have: int
    var counted: int

    function Value(): Session
      reads this
    {
      Session(gen, phase, key, have, counted)
    }

    constructor (hub: Hub, key: Key)
      ensures this.hub == hub && Value() == NewSession(key)
    {
      this.hub, this.key := hub, key;
      gen, phase, have, counted := None, Opening, 0, 0;
    }

    /** `_account`. */
    method Account()
      modifies this`counted, hub`bytesCarried
      ensures (hub.Value(), Value()) == Accounted(old(hub.Value()), old(Value()))
    {
      if have > counted {
        hub.bytesCarried := hub.bytesCarried + (have - counted);
        counted := have;
      }
    }

    /** `_hello`, once its line was accepted. */
    method Greet()
      requires phase == Opening
      modifies this, hub
      ensures (hub.Value(), Value()) == Hello(old(hub.Value()), old(Value()))
    {
      hub.gen := hub.gen + 1;
      gen := Some(hub.gen);
      hub.connections := hub.connections + 1;
      phase := Idle;
    }

    /** `_record` up to its first append: the checks before the lock, the
        header's lock section, the checks after it. */
    method Head(h: Header)
      requires phase == Idle
      modifies this, hub
      ensures hub.Value() == Claim(old(hub.Value()), old(Value()), h).0
      ensures Value() == Check(Claim(old(hub.Value()), old(Value()), h).1)
    {
      if |h.meta.sig| != SIG_BYTES {
        phase := Failed(BadSig);
        return;
      }
      if h.meta.total < 0 || h.meta.total > BLOB_MAX_BYTES {
        phase := Failed(TooLarge);
        return;
      }
      if gen != None && gen != Some(hub.gen) {
        phase := Failed(Preempted);
        return;
      }
      var stored := if h.id in hub.completes then hub.completes[h.id].bytes
                    else if h.id in hub.parts then |hub.parts[h.id]| else 0;
      var meta := h.meta;
      if h.id in hub.metas {
        meta := hub.metas[h.id];
      } else {
        hub.metas := hub.metas[h.id := meta];
        hub.claimed := hub.claimed + [h.id];
      }
      if meta != h.meta {
        phase := Failed(MetaMismatch);
      } else if h.off != stored || h.len < 0 || h.off + h.len != h.meta.total {
        phase := Failed(BadOffset);
      } else {
        phase, have, counted := Writing(h.id, meta, h.body), stored, stored;
      }
    }

    /** The lock section of one received slice. */
    method Write(n: nat)
      requires phase.Writing? && 0 < n <= |phase.rest|
      modifies this, hub
      ensures (hub.Value(), Value()) == Append(old(hub.Value()), old(Value()), n)
    {
      if gen != None && gen != Some(hub.gen) {
        phase := Failed(Preempted);
        return;
      }
      var id, data := phase.id, phase.rest[..n];
      hub.parts := hub.parts[id := (if id in hub.parts then hub.parts[id] else []) + data];
      have := have + n;
      Account();
      phase := Writing(id, phase.wmeta, phase.rest[n..]);
    }

    /** The append loop of `_record`: the pieces are what the socket delivers,
        all of the body or less, and `found` is the hub each time the lock is
        taken again. */
    method WriteAll(pieces: seq<nat>, found: seq<Store>)
      requires |found| == |pieces|
      requires phase.Writing? && (forall i :: 0 <= i < |pieces| ==> 0 < pieces[i]) && Sum(pieces) <= |phase.rest|
      modifies this, hub
      ensures (hub.Value(), Value()) == Interleaved(old(hub.Value()), old(Value()), pieces, found)
    {
      hide Append, Interleaved;
      ghost var goal := Interleaved(hub.Value(), Value(), pieces, found);
      var i := 0;
      assert pieces[0..] == pieces && found[0..] == found;
      while i < |pieces| && phase.Writing?
        invariant 0 <= i <= |pieces|
        invariant Interleaved(hub.Value(), Value(), pieces[i..], found[i..]) == goal
        invariant phase.Writing? ==> Sum(pieces[i..]) <= |phase.rest|
      {
        SliceStep(hub.Value(), Value(), pieces[i..], found[i..]);
        assert pieces[i..][0] == pieces[i] && pieces[i..][1..] == pieces[i + 1..];
        assert found[i..][0] == found[i] && found[i..][1..] == found[i + 1..];
        AppendShortens(found[i], Value(), pieces[i]);
        hub.Become(found[i]);
        Write(pieces[i]);
        i := i + 1;
      }
      InterleavedEnd(hub.Value(), Value(), pieces[i..], found[i..]);
    }

    /** The lock section at the end of a record. */
    method End(w: World)
      requires phase.Writing? && phase.rest == []
      modifies this, hub
      ensures (hub.Value(), Value()) == Finish(w, old(hub.Value()), old(Value()))
    {
      if gen != None && gen != Some(hub.gen) {
        phase := Failed(Preempted);
        return;
      }
      Account();
      hub.StreamComplete(w, phase.id, phase.wmeta, key);
      phase := Idle;
    }

    /** The section every session ends in. */
    method Quit()
      modifies this, hub
      ensures (hub.Value(), Value()) == Close(old(hub.Value()), old(Value()))
    {
      Account();
      phase := Closed;
    }
  }

  lemma SliceStep(st: Store, ss: Session, ns: seq<nat>, found: seq<Store>)
    requires |found| == |ns| && ns != [] && ss.phase.Writing?
    ensures var r := Append(found[0], ss, ns[0]); Interleaved(st, ss, ns, found) == Interleaved(r.0, r.1, ns[1..], found[1..])
  {
    hide Append;
  }

  lemma InterleavedEnd(st: Store, ss: Session, ns: seq<nat>, found: seq<Store>)
    requires |found| == |ns| && (ns == [] || !ss.phase.Writing?)
    ensures Interleaved(st, ss, ns, found) == (st, ss)
  {
  }

  lemma AppendShortens(st: Store, ss: Session, n: nat)
    requires ss.phase.Writing? && 0 < n <= |ss.phase.rest|
    ensures var r := Append(st, ss, n).1; r.phase.Writing? ==> |r.phase.rest| == |ss.phase.rest| - n
  {
  }
}
