/** Order-preserving merges of two sequences. */
module Shuffle {

  /** `c` merges `a` and `b`, each in its order. */
  predicate Shuffles<T(==)>(a: seq<T>, b: seq<T>, c: seq<T>)
    decreases |c|
  {
    if c == [] then a == [] && b == []
    else
      var c', x := c[..|c| - 1], c[|c| - 1];
      || (a != [] && a[|a| - 1] == x && Shuffles(a[..|a| - 1], b, c'))
      || (b != [] && b[|b| - 1] == x && Shuffles(a, b[..|b| - 1], c'))
  }

  lemma {:induction false} ShuffleLength<T>(a: seq<T>, b: seq<T>, c: seq<T>)
    requires Shuffles(a, b, c)
    ensures |c| == |a| + |b|
    decreases |c|
  {
    if c != [] {
      var c', x := c[..|c| - 1], c[|c| - 1];
      if a != [] && a[|a| - 1] == x && Shuffles(a[..|a| - 1], b, c') {
        ShuffleLength(a[..|a| - 1], b, c');
      } else {
        ShuffleLength(a, b[..|b| - 1], c');
      }
    }
  }

  /** What a table cell for the first `i` of `a` and the first `j` of `b` holds. */
  predicate CellIs<T(==)>(lines: seq<T>, at: nat, a: seq<T>, b: seq<T>, i: nat, j: nat)
    requires i <= |a| && j <= |b|
  {
    at + i + j <= |lines| && Shuffles(a[..i], b[..j], lines[at..at + i + j])
  }

  lemma CellStep<T>(lines: seq<T>, at: nat, a: seq<T>, b: seq<T>, i: nat, j: nat)
    requires i <= |a| && j <= |b| && i + j > 0 && at <= |lines|
    ensures CellIs(lines, at, a, b, i, j) <==>
            (at + i + j <= |lines|
             && ((i > 0 && CellIs(lines, at, a, b, i - 1, j) && a[i - 1] == lines[at + i + j - 1])
                 || (j > 0 && CellIs(lines, at, a, b, i, j - 1) && b[j - 1] == lines[at + i + j - 1])))
  {
    if at + i + j <= |lines| {
      var c := lines[at..at + i + j];
      assert c[..|c| - 1] == lines[at..at + i + j - 1];
      assert i > 0 ==> a[..i][..i - 1] == a[..i - 1];
      assert j > 0 ==> b[..j][..j - 1] == b[..j - 1];
    }
  }

  /** Whether `lines` from `at` on starts with a merge of `a` and `b`, filling the table
      row by row. A cell past the end of `lines` compares against no line. */
  method Interleaves<T(==)>(lines: seq<T>, at: nat, a: seq<T>, b: seq<T>) returns (ok: bool)
    requires at <= |lines|
    ensures ok <==> at + |a| + |b| <= |lines| && Shuffles(a, b, lines[at..at + |a| + |b|])
  {
    var cell := new bool[|a| + 1, |b| + 1];
    for i := 0 to |a| + 1
      invariant forall p, q | 0 <= p < i && 0 <= q <= |b| :: cell[p, q] <==> CellIs(lines, at, a, b, p, q)
    {
      for j := 0 to |b| + 1
        invariant forall p, q | 0 <= p < i && 0 <= q <= |b| :: cell[p, q] <==> CellIs(lines, at, a, b, p, q)
        invariant forall q | 0 <= q < j :: cell[i, q] <==> CellIs(lines, at, a, b, i, q)
      {
        if i == 0 && j == 0 {
          cell[i, j] := true;
        } else {
          CellStep(lines, at, a, b, i, j);
          var k := at + i + j - 1;
          cell[i, j] :=
            || (i > 0 && cell[i - 1, j] && k < |lines| && a[i - 1] == lines[k])
            || (j > 0 && cell[i, j - 1] && k < |lines| && b[j - 1] == lines[k]);
        }
      }
    }
    ok := cell[|a|, |b|];
    assert a[..|a|] == a && b[..|b|] == b;
  }

  // ----- the same relation, said by which side each line comes from -----

  /** The elements of `c` that `mask` gives to `side`. */
  function Taken<T>(c: seq<T>, mask: seq<bool>, side: bool): seq<T>
    requires |mask| == |c|
  {
    if c == [] then []
    else
      var rest := Taken(c[..|c| - 1], mask[..|c| - 1], side);
      if mask[|c| - 1] == side then rest + [c[|c| - 1]] else rest
  }

  ghost predicate MaskFits<T>(a: seq<T>, b: seq<T>, c: seq<T>, mask: seq<bool>)
  {
    |mask| == |c| && Taken(c, mask, true) == a && Taken(c, mask, false) == b
  }

  lemma {:induction false} ShuffleHasMask<T>(a: seq<T>, b: seq<T>, c: seq<T>) returns (mask: seq<bool>)
    requires Shuffles(a, b, c)
    ensures MaskFits(a, b, c, mask)
    decreases |c|
  {
    if c == [] {
      mask := [];
    } else {
      var c', x := c[..|c| - 1], c[|c| - 1];
      var left := a != [] && a[|a| - 1] == x && Shuffles(a[..|a| - 1], b, c');
      var rest;
      if left {
        rest := ShuffleHasMask(a[..|a| - 1], b, c');
      } else {
        rest := ShuffleHasMask(a, b[..|b| - 1], c');
      }
      mask := rest + [left];
      assert mask[..|c| - 1] == rest;
    }
  }

  lemma {:induction false} MaskShuffles<T>(a: seq<T>, b: seq<T>, c: seq<T>, mask: seq<bool>)
    requires MaskFits(a, b, c, mask)
    ensures Shuffles(a, b, c)
    decreases |c|
  {
    if c != [] {
      var c', m' := c[..|c| - 1], mask[..|c| - 1];
      MaskShuffles(Taken(c', m', true), Taken(c', m', false), c', m');
    }
  }

  /** A merge is exactly a way of dealing the lines out to the two sides that leaves each
      side whole and in order. */
  lemma ShufflesMeansDealt<T>(a: seq<T>, b: seq<T>, c: seq<T>)
    ensures Shuffles(a, b, c) <==> exists mask :: MaskFits(a, b, c, mask)
  {
    if Shuffles(a, b, c) {
      var mask := ShuffleHasMask(a, b, c);
    }
    forall mask | MaskFits(a, b, c, mask)
      ensures Shuffles(a, b, c)
    {
      MaskShuffles(a, b, c, mask);
    }
  }

  /** With one side empty the only merge is the other side. */
  lemma {:induction false} ShuffleAlone<T>(a: seq<T>, c: seq<T>)
    ensures Shuffles(a, [], c) <==> c == a
    ensures Shuffles([], a, c) <==> c == a
    decreases |c|
  {
    if c != [] && a != [] {
      ShuffleAlone(a[..|a| - 1], c[..|c| - 1]);
      assert a == a[..|a| - 1] + [a[|a| - 1]];
      assert c == c[..|c| - 1] + [c[|c| - 1]];
    }
  }
}
