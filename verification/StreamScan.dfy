/** Streaming search: a file read in blocks, each window carrying over one byte
    less than the longest needle. */
module StreamScan {
  import opened Wrappers

  function LowerByte(b: byte): byte {
    if 65 <= b <= 90 then b + 32 else b
  }

  function Lower(s: seq<byte>): (r: seq<byte>)
    ensures |r| == |s| && forall i :: 0 <= i < |s| ==> r[i] == LowerByte(s[i])
  {
    seq(|s|, i requires 0 <= i < |s| => LowerByte(s[i]))
  }

  ghost predicate Occurs(s: seq<byte>, needle: seq<byte>, at: int) {
    0 <= at <= |s| - |needle| && s[at..at + |needle|] == needle
  }

  /** `at` is the first place of the needle, or -1 when it has none. */
  ghost predicate First(s: seq<byte>, needle: seq<byte>, at: int) {
    if at == -1 then forall p :: !Occurs(s, needle, p)
    else Occurs(s, needle, at) && forall p :: p < at ==> !Occurs(s, needle, p)
  }

  /** A needle occurs in the lower-cased bytes exactly where each of its bytes is the
      byte there, or, where that is one of A to Z, its small letter. */
  lemma {:induction false} OccursFolded(s: seq<byte>, needle: seq<byte>, at: int)
    ensures Occurs(Lower(s), needle, at) <==>
      (0 <= at <= |s| - |needle| && forall k :: 0 <= k < |needle| ==>
        needle[k] as int == if 'A' as int <= s[at + k] <= 'Z' as int then s[at + k] - 'A' as int + 'a' as int else s[at + k])
  {
    if 0 <= at <= |s| - |needle| {
      var there := Lower(s)[at..at + |needle|];
      assert forall k :: 0 <= k < |needle| ==> there[k] == LowerByte(s[at + k]);
      assert there == needle <==> forall k :: 0 <= k < |needle| ==> there[k] == needle[k];
    }
  }

  /** bytes.find. */
  method Find(s: seq<byte>, needle: seq<byte>) returns (at: int)
    ensures First(s, needle, at)
  {
    at := 0;
    while at <= |s| - |needle|
      invariant 0 <= at
      invariant forall p :: p < at ==> !Occurs(s, needle, p)
    {
      if s[at..at + |needle|] == needle {
        return;
      }
      at := at + 1;
    }
    at := -1;
  }

  function Joined(blocks: seq<seq<byte>>): seq<byte> {
    if blocks == [] then [] else Joined(blocks[..|blocks| - 1]) + blocks[|blocks| - 1]
  }

  function Longest(needles: seq<seq<byte>>): (n: nat)
    requires needles != []
    ensures forall i :: 0 <= i < |needles| ==> |needles[i]| <= n
    ensures exists i :: 0 <= i < |needles| && |needles[i]| == n
  {
    if |needles| == 1 then |needles[0]|
    else
      var r := Longest(needles[..|needles| - 1]);
      var last := |needles[|needles| - 1]|;
      assert forall i :: 0 <= i < |needles| - 1 ==> needles[i] == needles[..|needles| - 1][i];
      if r < last then last else r
  }

  function Min(a: nat, b: nat): nat {
    if a < b then a else b
  }

  lemma LowerTail(s: seq<byte>, k: nat)
    requires k <= |s|
    ensures Lower(s[k..]) == Lower(s)[k..]
  {
  }

  lemma LowerJoin(a: seq<byte>, b: seq<byte>)
    ensures Lower(a + b) == Lower(a) + Lower(b)
  {
  }

  /** A place found in the window is the place in the file so far. */
  lemma InWindow(file: seq<byte>, needle: seq<byte>, skipped: nat, p: int)
    requires skipped <= |file|
    ensures 0 <= p ==> (Occurs(file[skipped..], needle, p) <==> Occurs(file, needle, skipped + p))
  {
    if 0 <= p <= |file| - skipped - |needle| {
      assert file[skipped..][p..p + |needle|] == file[skipped + p..skipped + p + |needle|];
    }
  }

  /** A needle that ends in what was read before was there before. */
  lemma Earlier(before: seq<byte>, block: seq<byte>, needle: seq<byte>, p: int)
    requires p < 0 || p + |needle| <= |before|
    ensures Occurs(before + block, needle, p) <==> Occurs(before, needle, p)
  {
    if 0 <= p {
      assert (before + block)[p..p + |needle|] == before[p..p + |needle|];
    }
  }

  /** What the window shows of a needle not found before: its first place in
      the file so far. */
  lemma {:induction false} WindowFirst(before: seq<byte>, block: seq<byte>, needle: seq<byte>, carried: nat, longest: nat, at: int)
    requires 1 <= |needle| <= longest && carried == Min(longest - 1, |before|)
    requires First(before, needle, -1)
    requires First((before + block)[|before| - carried..], needle, at)
    ensures First(before + block, needle, if at == -1 then -1 else |before| - carried + at)
  {
    var all, skipped := before + block, |before| - carried;
    forall p | p < skipped ensures !Occurs(all, needle, p) {
      Earlier(before, block, needle, p);
    }
    forall p: int ensures 0 <= p ==> (Occurs(all[skipped..], needle, p) <==> Occurs(all, needle, skipped + p)) {
      InWindow(all, needle, skipped, p);
    }
    forall p | skipped <= p ensures Occurs(all, needle, p) <==> Occurs(all[skipped..], needle, p - skipped) {
      InWindow(all, needle, skipped, p - skipped);
    }
  }

  /** A needle already found keeps its first place. */
  lemma FoundStays(before: seq<byte>, block: seq<byte>, needle: seq<byte>, at: int)
    requires 0 <= at && First(before, needle, at)
    ensures First(before + block, needle, at)
  {
    Earlier(before, block, needle, at);
    forall p | p < at ensures !Occurs(before + block, needle, p) {
      Earlier(before, block, needle, p);
    }
  }

  /** One pass over the needles for one window. */
  method Look(ghost before: seq<byte>, ghost block: seq<byte>, low: seq<byte>, base: nat, carried: nat,
              ghost longest: nat, needles: seq<seq<byte>>, found: seq<int>) returns (more: seq<int>)
    requires |found| == |needles| && base == |before| && 1 <= longest && carried == Min(longest - 1, base)
    requires low == (before + block)[base - carried..]
    requires forall i :: 0 <= i < |needles| ==> 1 <= |needles[i]| <= longest
    requires forall i :: 0 <= i < |needles| ==> First(before, needles[i], found[i])
    ensures |more| == |needles| && forall i :: 0 <= i < |needles| ==> First(before + block, needles[i], more[i])
  {
    more := found;
    var i := 0;
    while i < |needles|
      invariant 0 <= i <= |needles| == |more|
      invariant forall k :: 0 <= k < i ==> First(before + block, needles[k], more[k])
      invariant forall k :: i <= k < |needles| ==> more[k] == found[k]
    {
      if more[i] < 0 {
        var at := Find(low, needles[i]);
        WindowFirst(before, block, needles[i], carried, longest, at);
        if 0 <= at {
          more := more[i := base - carried + at];
        }
      } else {
        FoundStays(before, block, needles[i], more[i]);
      }
      i := i + 1;
    }
  }

  lemma NothingRead(needles: seq<seq<byte>>, found: seq<int>)
    requires |found| == |needles| && forall i :: 0 <= i < |needles| ==> needles[i] != [] && found[i] == -1
    ensures Joined([]) == [] && forall i :: 0 <= i < |needles| ==> First(Lower(Joined([])), needles[i], found[i])
  {
  }

  lemma OneMore(blocks: seq<seq<byte>>, k: nat)
    requires k < |blocks|
    ensures Joined(blocks[..k + 1]) == Joined(blocks[..k]) + blocks[k]
  {
    assert blocks[..k + 1][..k] == blocks[..k];
  }

  /** The window is the tail of the file so far, and so is what it leaves. */
  lemma Windowed(before: seq<byte>, block: seq<byte>, carry: seq<byte>, keep: nat)
    requires |carry| <= |before| && carry == before[|before| - |carry|..] && keep <= |carry + block|
    ensures var window, all := carry + block, before + block;
      && Lower(window) == (Lower(before) + Lower(block))[|before| - |carry|..]
      && Lower(all) == Lower(before) + Lower(block)
      && window[|window| - keep..] == all[|all| - keep..]
  {
    var window, all := carry + block, before + block;
    assert window == all[|before| - |carry|..];
    LowerTail(all, |before| - |carry|);
    LowerJoin(before, block);
  }

  /** However the reads cut the file, every needle's first place in the
      lower-cased whole, or -1. */
  method ScanFile(blocks: seq<seq<byte>>, needles: seq<seq<byte>>) returns (found: seq<int>)
    requires needles != [] && forall i :: 0 <= i < |needles| ==> needles[i] != []
    ensures |found| == |needles|
    ensures forall i :: 0 <= i < |needles| ==> First(Lower(Joined(blocks)), needles[i], found[i])
  {
    hide First, Joined, Lower, Longest;
    var longest := Longest(needles);
    found := seq(|needles|, _ => -1);
    var carry: seq<byte>, base, k := [], 0, 0;
    assert blocks[..0] == [];
    NothingRead(needles, found);
    while k < |blocks|
      invariant 0 <= k <= |blocks| && |found| == |needles|
      invariant base == |Joined(blocks[..k])| && |carry| == Min(longest - 1, base)
      invariant carry == Joined(blocks[..k])[base - |carry|..]
      invariant forall i :: 0 <= i < |needles| ==> First(Lower(Joined(blocks[..k])), needles[i], found[i])
    {
      var block := blocks[k];
      ghost var before, all := Joined(blocks[..k]), Joined(blocks[..k + 1]);
      OneMore(blocks, k);
      var window := carry + block;
      var low := Lower(window);
      Windowed(before, block, carry, Min(longest - 1, |window|));
      found := Look(Lower(before), Lower(block), low, base, |carry|, longest, needles, found);
      var keep := Min(longest - 1, |window|);
      carry := window[|window| - keep..];
      base := base + |block|;
      k := k + 1;
    }
    assert blocks[..k] == blocks;
  }
}
