/** Longest common subsequences, by a table kept one row at a time. */
module Lcs {

  /** `c` is `a` with some elements left out. */
  predicate IsSubseq<T(==)>(c: seq<T>, a: seq<T>)
    decreases |a|
  {
    c == []
    || (a != []
        && ((c[|c| - 1] == a[|a| - 1] && IsSubseq(c[..|c| - 1], a[..|a| - 1]))
            || IsSubseq(c, a[..|a| - 1])))
  }

  function Max(x: nat, y: nat): nat
  {
    if x > y then x else y
  }

  function LcsLen<T(==)>(a: seq<T>, b: seq<T>): nat
    decreases |a| + |b|
  {
    if a == [] || b == [] then 0
    else if a[|a| - 1] == b[|b| - 1] then LcsLen(a[..|a| - 1], b[..|b| - 1]) + 1
    else Max(LcsLen(a[..|a| - 1], b), LcsLen(a, b[..|b| - 1]))
  }

  /** Fills row after row of the table of prefix lengths, keeping only the last. */
  method Length<T(==)>(a: seq<T>, b: seq<T>) returns (n: nat)
    ensures n == LcsLen(a, b)
  {
    var prev := new nat[|b| + 1](_ => 0);
    for i := 0 to |a|
      invariant prev.Length == |b| + 1
      invariant forall k :: 0 <= k <= |b| ==> prev[k] == LcsLen(a[..i], b[..k])
    {
      var cur := new nat[|b| + 1](_ => 0);
      for j := 0 to |b|
        invariant cur.Length == |b| + 1
        invariant forall k :: 0 <= k <= |b| ==> prev[k] == LcsLen(a[..i], b[..k])
        invariant forall k :: 0 <= k <= j ==> cur[k] == LcsLen(a[..i + 1], b[..k])
      {
        assert a[..i + 1][..i] == a[..i] && b[..j + 1][..j] == b[..j];
        if a[i] == b[j] {
          cur[j + 1] := prev[j] + 1;
        } else {
          cur[j + 1] := Max(prev[j + 1], cur[j]);
        }
      }
      prev := cur;
    }
    assert a[..|a|] == a && b[..|b|] == b;
    n := prev[|b|];
  }

  lemma {:induction false} SubseqInit<T>(c: seq<T>, a: seq<T>)
    requires c != [] && IsSubseq(c, a)
    ensures IsSubseq(c[..|c| - 1], a)
    decreases |a|
  {
    var a' := a[..|a| - 1];
    if c[|c| - 1] == a[|a| - 1] && IsSubseq(c[..|c| - 1], a') {
    } else {
      SubseqInit(c, a');
    }
  }

  /** Some common subsequence has the computed length. */
  lemma {:induction false} CommonOfLength<T>(a: seq<T>, b: seq<T>) returns (c: seq<T>)
    ensures IsSubseq(c, a) && IsSubseq(c, b) && |c| == LcsLen(a, b)
    decreases |a| + |b|
  {
    if a == [] || b == [] {
      c := [];
    } else {
      var a', b', x := a[..|a| - 1], b[..|b| - 1], a[|a| - 1];
      if x == b[|b| - 1] {
        c := CommonOfLength(a', b');
        assert (c + [x])[..|c|] == c;
        c := c + [x];
      } else if LcsLen(a', b) > LcsLen(a, b') {
        c := CommonOfLength(a', b);
      } else {
        c := CommonOfLength(a, b');
      }
    }
  }

  /** No common subsequence is longer. */
  lemma {:induction false} NoneLonger<T>(a: seq<T>, b: seq<T>, c: seq<T>)
    requires IsSubseq(c, a) && IsSubseq(c, b)
    ensures |c| <= LcsLen(a, b)
    decreases |a| + |b|
  {
    if c != [] {
      var a', b', c' := a[..|a| - 1], b[..|b| - 1], c[..|c| - 1];
      if a[|a| - 1] == b[|b| - 1] {
        if IsSubseq(c, a') { SubseqInit(c, a'); }
        if IsSubseq(c, b') { SubseqInit(c, b'); }
        NoneLonger(a', b', c');
      } else if IsSubseq(c, a') {
        NoneLonger(a', b, c);
      } else {
        NoneLonger(a, b', c);
      }
    }
  }

  lemma {:induction false} SubseqBag<T>(c: seq<T>, a: seq<T>)
    requires IsSubseq(c, a)
    ensures multiset(c) <= multiset(a)
    decreases |a|
  {
    if c != [] {
      var a', c' := a[..|a| - 1], c[..|c| - 1];
      assert a == a' + [a[|a| - 1]] && c == c' + [c[|c| - 1]];
      if c[|c| - 1] == a[|a| - 1] && IsSubseq(c', a') {
        SubseqBag(c', a');
      } else {
        SubseqBag(c, a');
      }
    }
  }

  lemma {:induction false} SubseqConcat<T>(c: seq<T>, a: seq<T>, c2: seq<T>, a2: seq<T>)
    requires IsSubseq(c, a) && IsSubseq(c2, a2)
    ensures IsSubseq(c + c2, a + a2)
    decreases |a2|
  {
    if a2 == [] {
      assert a + a2 == a && c + c2 == c;
    } else if c + c2 != [] {
      var a2', c2' := a2[..|a2| - 1], if c2 == [] then [] else c2[..|c2| - 1];
      assert (a + a2)[..|a + a2| - 1] == a + a2';
      if c2 != [] && c2[|c2| - 1] == a2[|a2| - 1] && IsSubseq(c2', a2') {
        SubseqConcat(c, a, c2', a2');
        assert (c + c2)[..|c + c2| - 1] == c + c2';
      } else {
        SubseqConcat(c, a, c2, a2');
      }
    }
  }

  lemma {:induction false} SubseqSelf<T>(a: seq<T>)
    ensures IsSubseq(a, a)
  {
    if a != [] {
      SubseqSelf(a[..|a| - 1]);
    }
  }

  lemma {:induction false} SubseqTransitive<T>(c: seq<T>, b: seq<T>, a: seq<T>)
    requires IsSubseq(c, b) && IsSubseq(b, a)
    ensures IsSubseq(c, a)
    decreases |a|
  {
    if c != [] {
      var a', b', c' := a[..|a| - 1], b[..|b| - 1], c[..|c| - 1];
      if b[|b| - 1] == a[|a| - 1] && IsSubseq(b', a') {
        if c[|c| - 1] == b[|b| - 1] && IsSubseq(c', b') {
          SubseqTransitive(c', b', a');
        } else {
          SubseqTransitive(c, b', a');
        }
      } else {
        SubseqTransitive(c, b, a');
      }
    }
  }
}
