/** A relay session as an object: two peers, a lane towards each. */
module RelayObjects {
  import opened Wrappers
  import opened Sequences
  import opened RelayLanes

  datatype Role = A | B

  /** The body a poll answers with. */
  function Body(frames: seq<Frame>): seq<byte> {
    if frames == [] then [] else Body(frames[..|frames| - 1]) + frames[|frames| - 1].data
  }

  /** Drops from the front until both caps hold, keeping the byte count. */
  method Trim(full: seq<Frame>, size: int) returns (q: seq<Frame>, bytes: int)
    requires size == Size(full)
    ensures q == Kept(full) && bytes == Size(q)
  {
    hide Size;
    q, bytes := full, size;
    while MAX_QUEUED_FRAMES < |q| || MAX_QUEUED_BYTES < bytes
      invariant bytes == Size(q) && Kept(q) == Kept(full)
      decreases |q|
    {
      DropStep(q);
      if |q| == 0 {
        break;
      }
      bytes := bytes - |q[0].data|;
      q := q[1..];
    }
    KeptAll(q);
  }

  class RelaySession {
    var sockets: map<Role, Option<nat>>
    var inbox: map<Role, seq<Frame>>
    var inboxBytes: map<Role, int>

    constructor ()
      ensures Valid() && forall r :: LaneTo(r) == Lane(None, [])
    {
      sockets := map[A := None, B := None];
      inbox := map[A := [], B := []];
      inboxBytes := map[A := 0, B := 0];
      new;
      EmptyFits();
      EmptySize();
      forall r: Role
        ensures r in sockets && r in inbox && r in inboxBytes
        ensures sockets[r] == None && inbox[r] == [] && inboxBytes[r] == 0
      {
        match r {
          case A =>
          case B =>
        }
      }
    }

    /** Each byte counter is the size of its queue, within both caps. */
    ghost predicate Valid()
      reads this
    {
      forall r: Role :: r in sockets && r in inbox && r in inboxBytes
        && inboxBytes[r] == Size(inbox[r]) && Fits(inbox[r])
    }

    ghost function LaneTo(r: Role): Lane
      reads this
      requires Valid()
    {
      Lane(sockets[r], inbox[r])
    }

    method Enqueue(role: Role, frame: Frame)
      requires Valid()
      modifies this
      ensures Valid() && LaneTo(role) == RelayLanes.Enqueue(old(LaneTo(role)), frame).lane
      ensures forall r :: r != role ==> LaneTo(r) == old(LaneTo(r))
    {
      hide Fits, Kept, Size;
      SizeMore(inbox[role], frame);
      var q, bytes := Trim(inbox[role] + [frame], inboxBytes[role] + |frame.data|);
      inbox := inbox[role := q];
      inboxBytes := inboxBytes[role := bytes];
    }

    /** `handed` is what the socket takes. */
    method Deliver(role: Role, frame: Frame, ok: bool) returns (handed: seq<Frame>)
      requires Valid()
      modifies this
      ensures Valid() && LaneTo(role) == RelayLanes.Deliver(old(LaneTo(role)), frame, ok).lane
      ensures handed == RelayLanes.Deliver(old(LaneTo(role)), frame, ok).handed
      ensures forall r :: r != role ==> LaneTo(r) == old(LaneTo(r))
    {
      if sockets[role].Some? {
        if ok {
          return [frame];
        }
        sockets := sockets[role := None];
      }
      Enqueue(role, frame);
      handed := [];
    }

    method FlushTo(role: Role, oks: nat -> bool) returns (handed: seq<Frame>)
      requires Valid()
      modifies this
      ensures Valid()
      ensures old(sockets[role]) == None ==> LaneTo(role) == old(LaneTo(role)) && handed == []
      ensures old(sockets[role]) != None ==>
        var r := Flush(Lane(old(sockets[role]), []), old(inbox[role]), oks, 0);
        LaneTo(role) == r.lane && handed == r.handed
      ensures forall r :: r != role ==> LaneTo(r) == old(LaneTo(r))
    {
      hide Fits, Size, Kept, RelayLanes.Enqueue, Flush;
      handed := [];
      if sockets[role] == None {
        return;
      }
      var frames := inbox[role];
      inbox := inbox[role := []];
      inboxBytes := inboxBytes[role := 0];
      EmptyFits();
      EmptySize();
      var i := 0;
      assert frames[0..] == frames;
      while i < |frames|
        invariant 0 <= i <= |frames| && Valid()
        invariant var r := Flush(LaneTo(role), frames[i..], oks, i);
          var all := Flush(Lane(old(sockets[role]), []), frames, oks, 0);
          r.lane == all.lane && handed + r.handed == all.handed
        invariant forall r :: r != role ==> LaneTo(r) == old(LaneTo(r))
      {
        HeadAt(frames, i);
        FlushCons(LaneTo(role), frames[i], frames[i + 1..], oks, i);
        if oks(i) {
          Assoc(handed, [frames[i]], Flush(LaneTo(role), frames[i + 1..], oks, i + 1).handed);
          handed := handed + [frames[i]];
        } else {
          Enqueue(role, frames[i]);
        }
        i := i + 1;
      }
      assert frames[i..] == [];
      FlushNone(LaneTo(role), oks, i);
      NoMore(handed);
    }

    method AttachSocket(role: Role, socket: nat, oks: nat -> bool) returns (handed: seq<Frame>)
      requires Valid()
      modifies this
      ensures Valid() && LaneTo(role) == Attach(old(LaneTo(role)), socket, oks).lane
      ensures handed == Attach(old(LaneTo(role)), socket, oks).handed
      ensures forall r :: r != role ==> LaneTo(r) == old(LaneTo(r))
    {
      sockets := sockets[role := Some(socket)];
      handed := FlushTo(role, oks);
    }

    method DropSocket(role: Role, socket: nat)
      requires Valid()
      modifies this
      ensures Valid() && LaneTo(role) == Closed(old(LaneTo(role)), socket)
      ensures forall r :: r != role ==> LaneTo(r) == old(LaneTo(r))
    {
      if sockets[role] == Some(socket) {
        sockets := sockets[role := None];
      }
    }

    /** 204 with no body is None. */
    method TakeInbox(role: Role) returns (body: Option<seq<byte>>)
      requires Valid()
      modifies this
      ensures Valid() && LaneTo(role) == Take(old(LaneTo(role))).lane
      ensures body == if old(inbox[role]) == [] then None else Some(Body(Take(old(LaneTo(role))).handed))
      ensures body.Some? ==> |body.value| == old(inboxBytes[role])
      ensures forall r :: r != role ==> LaneTo(r) == old(LaneTo(r))
    {
      hide Fits, Size;
      EmptySize();
      var frames := inbox[role];
      if |frames| == 0 {
        return None;
      }
      inbox := inbox[role := []];
      inboxBytes := inboxBytes[role := 0];
      EmptyFits();
      var out, i := [], 0;
      assert frames[..0] == [];
      while i < |frames|
        invariant 0 <= i <= |frames| && out == Body(frames[..i])
      {
        assert frames[..i + 1][..i] == frames[..i];
        out := out + frames[i].data;
        i := i + 1;
      }
      assert frames[..i] == frames;
      BodySize(frames);
      body := Some(out);
    }
  }

  lemma SizeMore(q: seq<Frame>, f: Frame)
    ensures Size(q + [f]) == Size(q) + |f.data|
  {
    SizeSplit(q, [f]);
    assert [f][1..] == [];
    assert Size([f][1..]) == 0;
  }

  lemma DropStep(q: seq<Frame>)
    ensures q != [] ==> Size(q[1..]) == Size(q) - |q[0].data| && (!Fits(q) ==> Kept(q) == Kept(q[1..]))
    ensures q == [] ==> Size(q) == 0
  {
  }

  lemma EmptySize()
    ensures Size([]) == 0
  {
  }

  lemma {:induction false} BodySize(frames: seq<Frame>)
    ensures |Body(frames)| == Size(frames)
    decreases |frames|
  {
    if frames != [] {
      var init, f := frames[..|frames| - 1], frames[|frames| - 1];
      BodySize(init);
      assert frames == init + [f];
      SizeMore(init, f);
    }
  }
}
