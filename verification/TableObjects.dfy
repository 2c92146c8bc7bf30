/** The frequency table as an object that counts in place. */
module TableObjects {
  import opened Wrappers
  import opened RangeCoder
  import opened FreqTables

  /** The keys from `k` on, ascending. */
  function KeysFrom(freq: map<int, int>, k: int): (keys: seq<int>)
    requires k <= IDS
    ensures forall i :: 0 <= i < |keys| ==> keys[i] in freq && k <= keys[i] < IDS
    ensures forall i, j :: 0 <= i < j < |keys| ==> keys[i] < keys[j]
    decreases IDS - k, |freq|
  {
    if k == IDS then [] else if k in freq then [k] + KeysFrom(freq, k + 1) else KeysFrom(freq, k + 1)
  }

  /** Python's `sorted` over the keys of a table. */
  function Sorted(freq: map<int, int>): seq<int> {
    KeysFrom(freq, ESCAPE)
  }

  lemma {:induction false} PositionFrom(freq: map<int, int>, k: int, x: int) returns (i: nat)
    requires x in freq && k <= x < IDS
    ensures i < |KeysFrom(freq, k)| && KeysFrom(freq, k)[i] == x
    decreases IDS - k
  {
    if x == k {
      i := 0;
    } else {
      i := PositionFrom(freq, k + 1, x);
      if k in freq {
        i := i + 1;
      }
    }
  }

  lemma PositionOf(t: Table, x: int) returns (i: nat)
    requires Good(t) && x in t.freq
    ensures i < |Sorted(t.freq)| && Sorted(t.freq)[i] == x
  {
    i := PositionFrom(t.freq, ESCAPE, x);
  }

  /** No key lies between two neighbours of the sorted list. */
  lemma NoKeyBetween(t: Table, i: nat, s: int)
    requires Good(t) && i < |Sorted(t.freq)| && s in t.freq && Sorted(t.freq)[i] < s
    ensures i + 1 < |Sorted(t.freq)| && Sorted(t.freq)[i + 1] <= s
  {
    var j := PositionOf(t, s);
    assert i < j;
  }

  lemma FirstKey(t: Table)
    requires Good(t)
    ensures 0 < |Sorted(t.freq)| && Sorted(t.freq)[0] == ESCAPE
    ensures Cum(t.freq, ESCAPE) == 0
  {
    var j := PositionOf(t, ESCAPE);
  }

  /** Walking the sorted keys accumulates `Cum`. */
  lemma NextKey(t: Table, i: nat)
    requires Good(t) && i < |Sorted(t.freq)|
    ensures var keys := Sorted(t.freq);
      Cum(t.freq, keys[i]) + t.freq[keys[i]] == if i + 1 < |keys| then Cum(t.freq, keys[i + 1]) else t.total
  {
    var keys := Sorted(t.freq);
    var stop := if i + 1 < |keys| then keys[i + 1] else IDS;
    forall s | keys[i] + 1 <= s < stop ensures s !in t.freq {
      if s in t.freq {
        NoKeyBetween(t, i, s);
      }
    }
    CumGap(t.freq, keys[i] + 1, stop);
  }

  lemma BumpedInRange(t: Table, sym: int)
    requires Good(t) && 0 <= sym < IDS
    ensures ESCAPE in Bumped(t.freq, sym) && forall s <- Bumped(t.freq, sym) :: ESCAPE <= s < IDS
  {
  }

  lemma SameMap<K, V>(a: map<K, V>, b: map<K, V>)
    ensures (forall k <- a :: k in b && a[k] == b[k]) && (forall k <- b :: k in a) ==> a == b
  {
  }

  class FreqTable {
    var freq: map<int, int>
    var total: int

    ghost function Value(): Table
      reads this
    {
      Table(freq, total)
    }

    ghost predicate Valid()
      reads this
    {
      Good(Value())
    }

    constructor ()
      ensures Value() == FRESH_TABLE
    {
      freq, total := map[ESCAPE := 1], 1;
    }

    method Add(sym: int)
      requires Valid() && 0 <= sym < IDS
      modifies this
      ensures Valid() && Value() == Added(old(Value()), sym)
    {
      AddedGood(Value(), sym);
      BumpedInRange(Value(), sym);
      ghost var bumped := Bumped(freq, sym);
      var items := freq;
      if sym !in items {
        items := items[ESCAPE := items[ESCAPE] + 1];
        total := total + 1;
      }
      items := items[sym := (if sym in items then items[sym] else 0) + BUMP];
      assert items == bumped;
      freq := items;
      total := total + BUMP;
      if total >= BOT {
        Halve();
        assert Value() == Table(Halved(bumped), Cum(Halved(bumped), IDS));
      }
    }

    method Halve()
      requires ESCAPE in freq && forall s <- freq :: ESCAPE <= s < IDS
      modifies this
      ensures freq == Halved(old(freq)) && total == Cum(freq, IDS)
    {
      var items := freq;
      var halves: map<int, int>, sum := map[], 0;
      var keys := Sorted(items);
      CumGap(halves, ESCAPE, IDS);
      for i := 0 to |keys|
        invariant forall s <- halves :: s in items && halves[s] == Half(items[s])
        invariant forall k :: 0 <= k < i ==> keys[k] in halves
        invariant forall k :: i <= k < |keys| ==> keys[k] !in halves
        invariant sum == Cum(halves, IDS)
      {
        var s := keys[i];
        var nf := if items[s] / 2 < 1 then 1 else items[s] / 2;
        CumUpdate(halves, s, nf, IDS);
        halves := halves[s := nf];
        sum := sum + nf;
      }
      forall s | s in halves ensures s in Halved(items) && halves[s] == Halved(items)[s] {
      }
      forall s | s in Halved(items) ensures s in halves {
        var k := PositionFrom(items, ESCAPE, s);
      }
      SameMap(halves, Halved(items));
      freq, total := halves, sum;
    }

    method IntervalFor(sym: int) returns (iv: Option<Interval>)
      requires Valid()
      ensures iv == if sym in freq then Some(IntervalOf(Value(), sym)) else None
    {
      var keys := Sorted(freq);
      var cum := 0;
      FirstKey(Value());
      for i := 0 to |keys|
        invariant forall k :: 0 <= k < i ==> keys[k] != sym
        invariant i < |keys| ==> cum == Cum(freq, keys[i])
      {
        NextKey(Value(), i);
        if keys[i] == sym {
          return Some(Interval(cum, freq[sym], total));
        }
        cum := cum + freq[keys[i]];
      }
      if sym in freq {
        var k := PositionOf(Value(), sym);
      }
      return None;
    }

    method SymbolAtPoint(point: int) returns (sym: int, cum: int, f: int, tot: int)
      requires Valid() && 0 <= point < total
      ensures sym == SymbolAt(Value(), point) && sym in freq
      ensures Interval(cum, f, tot) == IntervalOf(Value(), sym)
    {
      var keys := Sorted(freq);
      cum := 0;
      FirstKey(Value());
      for i := 0 to |keys|
        invariant cum <= point
        invariant cum == if i < |keys| then Cum(freq, keys[i]) else total
      {
        NextKey(Value(), i);
        f := freq[keys[i]];
        if point < cum + f {
          OwnerUnique(Value(), keys[i], SymbolAt(Value(), point), point);
          return keys[i], cum, f, total;
        }
        cum := cum + f;
      }
      assert false;
    }
  }
}
