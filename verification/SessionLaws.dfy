/** One session through any calls: what it has committed and what is pending, by the
    history of its calls. */
module SessionLaws {
  import opened Wrappers
  import opened Codec
  import opened BlockCodec
  import opened Sessions

  datatype Call = Encoding(cols: seq<Column>) | Decoding(data: seq<byte>, n: nat) | Committing | RollingBack

  ghost predicate Fits(p: Peer, c: Call) {
    c.Encoding? ==> AreColumns(p.committed.nRows, c.cols)
  }

  /** A call that raises leaves the session as it is. */
  function Called(p: Peer, c: Call): (r: Peer)
    requires GoodPeer(p) && (c.Encoding? ==> AreColumns(p.committed.nRows, c.cols))
    ensures GoodPeer(r)
  {
    match c
    case Encoding(cols) => EncodeBlock(p, cols).0
    case Decoding(data, n) => DecodeBlock(p, data, n).0
    case Committing => (match Commit(p) case None => p case Some(q) => q)
    case RollingBack => Rollback(p)
  }

  ghost predicate Callable(p: Peer, calls: seq<Call>)
    requires GoodPeer(p)
    decreases |calls|
  {
    calls != [] ==> Fits(p, calls[0]) && Callable(Called(p, calls[0]), calls[1..])
  }

  ghost function Calls(p: Peer, calls: seq<Call>): Peer
    requires GoodPeer(p) && Callable(p, calls)
    decreases |calls|
  {
    if calls == [] then p else Calls(Called(p, calls[0]), calls[1..])
  }

  /** What a call would commit, if the next one does: the lesson of an encoded block or
      of one that decoded. */
  ghost function LessonOf(st: State, c: Call): Option<State>
    requires GoodState(st) && (c.Encoding? ==> AreColumns(st.nRows, c.cols))
  {
    match c
    case Encoding(cols) => Some(Taught(st, cols))
    case Decoding(data, n) => if Decoded(data, n, st).Block? then Some(Decoded(data, n, st).st) else None
    case _ => None
  }

  predicate Settles(c: Call) {
    c.Committing? || c.RollingBack?
  }

  /** No call changes the committed state but a commit with a block pending, which makes
      it that block's lesson; and what is pending is the lesson of the last block made or
      read since the last commit or rollback. */
  lemma {:induction false} CallMeans(p: Peer, c: Call)
    requires GoodPeer(p) && Fits(p, c)
    ensures var r := Called(p, c);
      && (c.Committing? && p.pending.Some? ==> r.committed == p.pending.value)
      && (!(c.Committing? && p.pending.Some?) ==> r.committed == p.committed)
      && r.pending == (if Settles(c) then None else if LessonOf(p.committed, c).Some? then LessonOf(p.committed, c) else p.pending)
    ensures Commit(p) == None <==> p.pending == None
  {
    hide GoodState, Taught, Decoded;
  }

  /** Commits and rollbacks alone: only the first can commit, and nothing is pending
      after it. */
  lemma {:induction false} NothingPending(p: Peer, calls: seq<Call>)
    requires GoodPeer(p) && Callable(p, calls)
    requires forall i :: 0 <= i < |calls| ==> Settles(calls[i])
    ensures calls != [] ==> Calls(p, calls).pending == None
    ensures Calls(p, calls).committed ==
      if calls != [] && calls[0].Committing? && p.pending.Some? then p.pending.value else p.committed
    decreases |calls|
  {
    hide GoodPeer, Called;
    if calls != [] {
      CallMeans(p, calls[0]);
      NothingPending(Called(p, calls[0]), calls[1..]);
    }
  }

  /** Whatever is encoded and decoded between them, blocks that are rolled back leave no
      trace: the committed state is the one of the last commit. */
  lemma {:induction false} OnlyCommitsGrow(p: Peer, calls: seq<Call>)
    requires GoodPeer(p) && Callable(p, calls) && forall i :: 0 <= i < |calls| ==> !calls[i].Committing?
    ensures Calls(p, calls).committed == p.committed
    decreases |calls|
  {
    hide GoodPeer, Called;
    if calls != [] {
      CallMeans(p, calls[0]);
      OnlyCommitsGrow(Called(p, calls[0]), calls[1..]);
    }
  }
}
