/** Byte strings: slices that stop at the end, and 16-bit words. */
module ByteStrings {
  import opened Wrappers

  /** Sixteen bits, most significant byte first. */
  function Bytes16(n: nat): (b: seq<byte>)
    requires n < 65536
    ensures |b| == 2
  {
    [n / 256, n % 256]
  }

  function Word16(hi: byte, lo: byte): nat {
    hi as int * 256 + lo as int
  }

  function Slice(b: seq<byte>, from: nat, to: nat): (r: seq<byte>)
    requires from <= to
    ensures |r| <= to - from
  {
    if |b| <= from then [] else if |b| <= to then b[from..] else b[from..to]
  }

  lemma Dropped(s: seq<byte>, pos: nat, n: nat)
    requires pos + n <= |s|
    ensures s[pos..][n..] == s[pos + n..]
  {
  }

  lemma SliceShift(s: seq<byte>, pos: nat, from: nat, to: nat)
    requires pos <= |s| && from <= to
    ensures Slice(s[pos..], from, to) == Slice(s, pos + from, pos + to)
  {
    if from < |s| - pos {
      if |s| - pos <= to {
        Dropped(s, pos, from);
      } else {
        assert s[pos..][from..to] == s[pos + from..pos + to];
      }
    }
  }

  lemma SliceAt(pre: seq<byte>, mid: seq<byte>, post: seq<byte>)
    ensures Slice(pre + mid + post, |pre|, |pre| + |mid|) == mid
  {
    var s := pre + mid + post;
    if |s| <= |pre| {
      assert mid == [];
    } else if |s| <= |pre| + |mid| {
      assert s[|pre|..] == mid;
    } else {
      assert s[|pre|..|pre| + |mid|] == mid;
    }
  }
}
