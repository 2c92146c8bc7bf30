/** Dotted names: splitting at dots, joining with dots, stripping dots. */
module DottedNames {
  import opened Base32

  predicate NoDot(s: string) {
    forall i :: 0 <= i < |s| ==> s[i] != '.'
  }

  predicate NoDots(ls: seq<string>) {
    forall i :: 0 <= i < |ls| ==> NoDot(ls[i])
  }

  function Split(s: string): (ls: seq<string>)
    ensures 1 <= |ls| && NoDots(ls)
  {
    if s == "" then [""]
    else
      var rest := Split(s[1..]);
      if s[0] == '.' then [""] + rest else [[s[0]] + rest[0]] + rest[1..]
  }

  function Join(ls: seq<string>): string {
    if ls == [] then "" else if |ls| == 1 then ls[0] else ls[0] + "." + Join(ls[1..])
  }

  function Strip(s: string): string {
    if s != "" && s[0] == '.' then Strip(s[1..])
    else if s != "" && s[|s| - 1] == '.' then Strip(s[..|s| - 1])
    else s
  }

  lemma JoinMore(a: string, rest: seq<string>)
    requires 1 <= |rest|
    ensures Join([a] + rest) == a + "." + Join(rest)
  {
    assert ([a] + rest)[1..] == rest;
  }

  lemma Fourfold(a: string, b: string, c: string, d: string)
    ensures a + b + c + d == a + (b + c + d)
  {
  }

  lemma JoinHead(c: char, ls: seq<string>)
    requires 1 <= |ls|
    ensures Join([[c] + ls[0]] + ls[1..]) == [c] + Join(ls)
  {
    hide Join;
    if |ls| == 1 {
      JoinOne([c] + ls[0]);
      JoinOne(ls[0]);
      assert [[c] + ls[0]] + ls[1..] == [[c] + ls[0]] && ls == [ls[0]];
    } else {
      JoinMore([c] + ls[0], ls[1..]);
      JoinMore(ls[0], ls[1..]);
      assert [ls[0]] + ls[1..] == ls;
      Fourfold([c], ls[0], ".", Join(ls[1..]));
    }
  }

  lemma JoinOne(a: string)
    ensures Join([a]) == a
  {
  }

  lemma {:induction false} JoinSplit(s: string)
    ensures Join(Split(s)) == s
    decreases |s|
  {
    if s != "" {
      JoinSplit(s[1..]);
      var rest := Split(s[1..]);
      assert s == [s[0]] + s[1..];
      if s[0] == '.' {
        assert ([""] + rest)[1..] == rest;
        assert "" + "." + Join(rest) == "." + Join(rest);
      } else {
        JoinHead(s[0], rest);
      }
    }
  }

  /** Splitting one dotless label off the front. */
  lemma {:induction false} SplitFront(a: string, s: string)
    requires NoDot(a)
    ensures Split(a + "." + s) == [a] + Split(s)
    decreases |a|
  {
    var t := a + "." + s;
    if a == "" {
      assert t == "." + s && t[1..] == s;
    } else {
      SplitFront(a[1..], s);
      assert t[1..] == a[1..] + "." + s;
      assert ([a[1..]] + Split(s))[1..] == Split(s);
      assert [t[0]] + a[1..] == a;
    }
  }

  lemma {:induction false} SplitOne(a: string)
    requires NoDot(a)
    ensures Split(a) == [a]
    decreases |a|
  {
    if a != "" {
      SplitOne(a[1..]);
      assert [a[0]] + a[1..] == a;
      assert [a[1..]][1..] == [];
      assert [a] + [] == [a];
    }
  }

  lemma {:induction false} SplitJoin(ls: seq<string>)
    requires 1 <= |ls| && NoDots(ls)
    ensures Split(Join(ls)) == ls
    decreases |ls|
  {
    if |ls| == 1 {
      SplitOne(ls[0]);
    } else {
      SplitJoin(ls[1..]);
      SplitFront(ls[0], Join(ls[1..]));
      assert ls == [ls[0]] + ls[1..];
    }
  }

  lemma {:induction false} JoinAppend(a: seq<string>, b: seq<string>)
    requires 1 <= |a| && 1 <= |b|
    ensures Join(a + b) == Join(a) + "." + Join(b)
    decreases |a|
  {
    if |a| == 1 {
      assert (a + b)[1..] == b;
    } else {
      JoinAppend(a[1..], b);
      assert (a + b)[1..] == a[1..] + b;
      assert a[0] + "." + (Join(a[1..]) + "." + Join(b)) == (a[0] + "." + Join(a[1..])) + "." + Join(b);
    }
  }

  function LowerAll(ls: seq<string>): (r: seq<string>)
    ensures |r| == |ls| && forall i :: 0 <= i < |r| ==> r[i] == Lower(ls[i])
  {
    seq(|ls|, i requires 0 <= i < |ls| => Lower(ls[i]))
  }

  lemma {:induction false} LowerSplits(s: string)
    ensures Split(Lower(s)) == LowerAll(Split(s))
    decreases |s|
  {
    hide Split, LowerAll, Lower;
    if s == "" {
      SplitNothing();
      LowerNothing();
    } else {
      var c, t := s[0], s[1..];
      LowerSplits(t);
      LowerCons(c, t);
      SplitStep(c, t);
      SplitStep(LowerChar(c), Lower(t));
      LowerFront(c, Split(t));
      assert s == [c] + t;
    }
  }

  lemma LowerNothing()
    ensures Lower("") == "" && LowerAll([""]) == [""]
  {
  }

  lemma LowerCons(c: char, t: string)
    ensures Lower([c] + t) == [LowerChar(c)] + Lower(t)
  {
  }

  lemma LowerFront(c: char, rest: seq<string>)
    requires rest != []
    ensures LowerAll([""] + rest) == [""] + LowerAll(rest)
    ensures LowerAll([[c] + rest[0]] + rest[1..]) == [[LowerChar(c)] + LowerAll(rest)[0]] + LowerAll(rest)[1..]
  {
    hide Lower;
    LowerNothing();
    LowerCons(c, rest[0]);
  }

  lemma LowerConcat(s: string, t: string)
    ensures Lower(s + t) == Lower(s) + Lower(t)
  {
  }

  lemma LowerTwice(s: string)
    ensures Lower(Lower(s)) == Lower(s)
  {
  }

  lemma {:induction false} LowerJoin(ls: seq<string>)
    ensures Lower(Join(ls)) == Join(LowerAll(ls))
    decreases |ls|
  {
    if 2 <= |ls| {
      LowerJoin(ls[1..]);
      assert LowerAll(ls)[1..] == LowerAll(ls[1..]);
      LowerConcat(ls[0] + ".", Join(ls[1..]));
      LowerConcat(ls[0], ".");
      assert Lower(".") == ".";
    }
  }

  lemma {:induction false} JoinEnds(ls: seq<string>)
    requires 1 <= |ls| && ls[0] != "" && ls[0][0] != '.'
    requires var last := ls[|ls| - 1]; last != "" && last[|last| - 1] != '.'
    ensures var s := Join(ls); s != "" && s[0] != '.' && s[|s| - 1] != '.'
    decreases |ls|
  {
    if 2 <= |ls| {
      var r := Join(ls[1..]);
      JoinLast(ls[1..]);
      assert Join(ls)[|Join(ls)| - 1] == r[|r| - 1];
    }
  }

  lemma {:induction false} JoinLast(ls: seq<string>)
    requires 1 <= |ls| && var last := ls[|ls| - 1]; last != "" && last[|last| - 1] != '.'
    ensures var s := Join(ls); s != "" && s[|s| - 1] != '.'
    decreases |ls|
  {
    if 2 <= |ls| {
      JoinLast(ls[1..]);
    }
  }

  lemma SplitStep(c: char, t: string)
    ensures Split([c] + t) ==
      if c == '.' then [""] + Split(t) else [[c] + Split(t)[0]] + Split(t)[1..]
  {
    assert ([c] + t)[1..] == t;
  }

  lemma FrontTogether(c: char, x: seq<string>, y: seq<string>)
    requires x != []
    ensures ([[c] + x[0]] + x[1..]) + y == [[c] + (x + y)[0]] + (x + y)[1..]
    ensures ([""] + x) + y == [""] + (x + y)
  {
    assert (x + y)[1..] == x[1..] + y;
  }

  lemma {:induction false} SplitConcat(a: string, s: string)
    ensures Split(a + "." + s) == Split(a) + Split(s)
    decreases |a|
  {
    hide Split;
    if a == "" {
      assert "" + "." + s == ['.'] + s;
      SplitStep('.', s);
      SplitNothing();
    } else {
      SplitConcat(a[1..], s);
      assert a + "." + s == [a[0]] + (a[1..] + "." + s) && a == [a[0]] + a[1..];
      SplitStep(a[0], a[1..] + "." + s);
      SplitStep(a[0], a[1..]);
      FrontTogether(a[0], Split(a[1..]), Split(s));
    }
  }

  lemma SplitNothing()
    ensures Split("") == [""]
  {
  }

  lemma SplitSingle(a: string)
    ensures |Split(a)| == 1 <==> NoDot(a)
    ensures NoDot(a) ==> Split(a) == [a]
  {
    hide Split;
    if NoDot(a) {
      SplitOne(a);
    } else if |Split(a)| == 1 {
      JoinSplit(a);
      JoinOne(Split(a)[0]);
    }
  }

  /** What splitting a joined name finds, when labels may hold dots. */
  function LabelPieces(ls: seq<string>): seq<string> {
    if ls == [] then [] else Split(ls[0]) + LabelPieces(ls[1..])
  }

  lemma {:induction false} SplitPieces(ls: seq<string>)
    requires 1 <= |ls|
    ensures Split(Join(ls)) == LabelPieces(ls)
    decreases |ls|
  {
    hide Split;
    if |ls| == 1 {
      assert ls == [ls[0]] && LabelPieces(ls[1..]) == [];
      JoinOne(ls[0]);
    } else {
      SplitPieces(ls[1..]);
      SplitConcat(ls[0], Join(ls[1..]));
    }
  }

  lemma {:induction false} PiecesWhole(ls: seq<string>)
    requires NoDots(ls)
    ensures LabelPieces(ls) == ls
    decreases |ls|
  {
    hide Split;
    if ls != [] {
      SplitSingle(ls[0]);
      PiecesWhole(ls[1..]);
    }
  }

  lemma PiecesMore(a: string, rest: seq<string>)
    ensures LabelPieces([a] + rest) == Split(a) + LabelPieces(rest)
  {
    hide Split;
    assert ([a] + rest)[1..] == rest;
  }

  predicate EndsWith(s: string, t: string) {
    |t| <= |s| && s[|s| - |t|..] == t
  }

  /** The labels that are not empty. */
  function NonEmpty(ls: seq<string>): (r: seq<string>)
    ensures forall i :: 0 <= i < |r| ==> r[i] != ""
  {
    if ls == [] then [] else (if ls[0] == "" then [] else [ls[0]]) + NonEmpty(ls[1..])
  }

  lemma {:induction false} AllNonEmpty(ls: seq<string>)
    requires forall i :: 0 <= i < |ls| ==> ls[i] != ""
    ensures NonEmpty(ls) == ls
    decreases |ls|
  {
    if ls != [] {
      AllNonEmpty(ls[1..]);
    }
  }
}
