/** One block on the wire: a flag byte, then the adaptive stream or, where
    that one loses, the columns packed at ten bits a symbol. */
module BlockCodec {
  import opened Wrappers
  import opened RangeCoder
  import opened Codec
  import opened CodecProofs
  import opened RawPacking

  const ADAPTIVE: byte := 1
  const RAW: byte := 0

  function Flat(cols: seq<Column>): seq<int> {
    if cols == [] then [] else cols[0] + Flat(cols[1..])
  }

  function Grouped(syms: seq<int>, nRows: nat, n: nat): (cols: seq<Column>)
    requires |syms| == n * nRows
    ensures |cols| == n
    decreases n
  {
    if n == 0 then []
    else
      RowsFit(n, nRows);
      [syms[..nRows]] + Grouped(syms[nRows..], nRows, n - 1)
  }

  lemma RowsFit(n: nat, nRows: nat)
    requires 1 <= n
    ensures n * nRows == (n - 1) * nRows + nRows && 0 <= (n - 1) * nRows
  {
  }

  lemma {:induction false} GroupedColumns(syms: seq<int>, nRows: nat, n: nat)
    requires |syms| == n * nRows && AreSymbols(syms)
    ensures AreColumns(nRows, Grouped(syms, nRows, n))
    decreases n
  {
    if n != 0 {
      RowsFit(n, nRows);
      GroupedColumns(syms[nRows..], nRows, n - 1);
    }
  }

  lemma {:induction false} GroupedFlat(cols: seq<Column>, nRows: nat)
    requires AreColumns(nRows, cols)
    ensures |Flat(cols)| == |cols| * nRows && AreSymbols(Flat(cols))
    ensures Grouped(Flat(cols), nRows, |cols|) == cols
    decreases |cols|
  {
    if cols != [] {
      RowsFit(|cols|, nRows);
      GroupedFlat(cols[1..], nRows);
      assert Flat(cols)[..nRows] == cols[0] && Flat(cols)[nRows..] == Flat(cols[1..]);
      assert cols == [cols[0]] + cols[1..];
    }
  }

  function RawBits(st: State, n: nat): nat {
    n * st.nRows * 10
  }

  /** The bytes `encode` returns. */
  function Encoded(cols: seq<Column>, st: State): (b: seq<byte>)
    requires GoodState(st) && AreColumns(st.nRows, cols)
  {
    GroupedFlat(cols, st.nRows);
    var adaptive := AdaptiveBytes(cols, st);
    if |adaptive| * 8 <= RawBits(st, |cols|) then [ADAPTIVE] + adaptive else [RAW] + Packed(Flat(cols))
  }

  /** What `decode` makes of any byte string: a block with the state it
      taught, or the source's ValueError or IndexError. */
  datatype Outcome = Block(cols: seq<Column>, st: State) | UnknownFlag | OutOfBytes

  function Decoded(data: seq<byte>, n: nat, st: State): (o: Outcome)
    requires GoodState(st)
    ensures o.Block? ==> |o.cols| == n && AreColumns(st.nRows, o.cols) && GoodState(o.st) && o.st.nRows == st.nRows
  {
    if data == [] then OutOfBytes
    else if data[0] == ADAPTIVE then
      match ReadBlock(Opened(data[1..]), st, START, n)
      case None => OutOfBytes
      case Some((cols, last)) => Block(cols, last)
    else if data[0] != RAW then UnknownFlag
    else
      match Unpacked(data[1..], n * st.nRows)
      case None => OutOfBytes
      case Some(syms) =>
        GroupedColumns(syms, st.nRows, n);
        var cols := Grouped(syms, st.nRows, n);
        Block(cols, Taught(st, cols))
  }

  /** The codec's promise: from equal states every block decodes to exactly
      the columns sent, and both ends have learned the same, whichever of
      the two streams was shipped. */
  lemma {:induction false} BlockRoundTrip(cols: seq<Column>, st: State)
    requires GoodState(st) && AreColumns(st.nRows, cols)
    ensures Decoded(Encoded(cols, st), |cols|, st) == Block(cols, Taught(st, cols))
  {
    var data := Encoded(cols, st);
    GroupedFlat(cols, st.nRows);
    if data[0] == ADAPTIVE {
      assert data[1..] == AdaptiveBytes(cols, st);
      AdaptiveRoundTrip(cols, st);
    } else {
      assert data[1..] == Packed(Flat(cols));
      PackRoundTrip(Flat(cols));
    }
  }

  /** A block is one flag byte and the shorter of the two streams, the adaptive one
      where they are equal in bits; the flag says which. */
  lemma {:induction false} BlockCost(cols: seq<Column>, st: State)
    requires GoodState(st) && AreColumns(st.nRows, cols)
    ensures var b, a, raw := Encoded(cols, st), AdaptiveBytes(cols, st), PackedLength(|cols| * st.nRows);
      && |b| == 1 + (if |a| <= raw then |a| else raw)
      && |b| <= 1 + raw && |b| <= 1 + |a|
      && AreSymbols(Flat(cols)) && |Flat(cols)| == |cols| * st.nRows
      && (8 * |a| <= 10 * (|cols| * st.nRows) ==> b == [1] + a)
      && (8 * |a| > 10 * (|cols| * st.nRows) ==> b == [0] + Packed(Flat(cols)))
  {
    GroupedFlat(cols, st.nRows);
    assert |cols| * st.nRows * 10 == 10 * (|cols| * st.nRows);
  }

  /** The column at a place of the packed symbols. */
  lemma {:induction false} FlatAt(cols: seq<Column>, nRows: nat, i: nat, row: nat)
    requires AreColumns(nRows, cols) && i < |cols| && row < nRows
    ensures 0 <= i * nRows + row < |Flat(cols)| && Flat(cols)[i * nRows + row] == cols[i][row]
    decreases |cols|
  {
    GroupedFlat(cols, nRows);
    RowsFit(|cols|, nRows);
    if i != 0 {
      FlatAt(cols[1..], nRows, i - 1, row);
      RowsFit(i, nRows);
      assert Flat(cols)[nRows..] == Flat(cols[1..]);
    }
  }

  /** What each byte string is rejected for: an unknown flag, or too few bytes. */
  lemma {:induction false} Rejections(data: seq<byte>, n: nat, st: State)
    requires GoodState(st)
    ensures Decoded(data, n, st) == UnknownFlag <==> data != [] && data[0] != 0 && data[0] != 1
    ensures data == [] ==> Decoded(data, n, st) == OutOfBytes
    ensures data != [] && data[0] == 0 ==>
      (Decoded(data, n, st) == OutOfBytes <==> 8 * (|data| - 1) < 10 * (n * st.nRows))
  {
    hide GoodState;
  }
}
