/** Cutting a sequence at a separator, the notion both the request framing and the line
    readers are specified by. */
module Split {

  /** The first index of `x` in `s`, or `|s|` when `s` has none. */
  function IndexOf<T(==)>(s: seq<T>, x: T): (k: nat)
    ensures k <= |s|
    ensures x !in s[..k]
    ensures k < |s| ==> s[k] == x
    ensures k == |s| <==> x !in s
  {
    if s == [] then 0
    else if s[0] == x then 0
    else
      assert s == [s[0]] + s[1..];
      var k := IndexOf(s[1..], x);
      assert s[..k + 1] == [s[0]] + s[1..][..k];
      k + 1
  }

  /** The runs of `s` between separators; the last one runs to the end of `s`. */
  function Pieces<T(==)>(s: seq<T>, sep: T): (p: seq<seq<T>>)
    ensures |p| >= 1
    decreases |s|
  {
    var k := IndexOf(s, sep);
    if k == |s| then [s] else [s[..k]] + Pieces(s[k + 1..], sep)
  }

  /** The sequence whose pieces are `p`. */
  function Glue<T>(p: seq<seq<T>>, sep: T): seq<T>
    requires |p| >= 1
  {
    if |p| == 1 then p[0] else p[0] + [sep] + Glue(p[1..], sep)
  }

  lemma IndexOfPrefix<T>(a: seq<T>, x: T, b: seq<T>)
    requires x !in a
    ensures IndexOf(a + [x] + b, x) == |a|
  {
    var s := a + [x] + b;
    var k := IndexOf(s, x);
    assert s[|a|] == x && forall i :: 0 <= i < |a| ==> s[i] == a[i];
    forall i | 0 <= i < k
      ensures s[i] != x
    {
      assert s[i] == s[..k][i];
    }
  }

  lemma {:induction false} GluePieces<T>(s: seq<T>, sep: T)
    ensures Glue(Pieces(s, sep), sep) == s
    decreases |s|
  {
    var k := IndexOf(s, sep);
    if k < |s| {
      GluePieces(s[k + 1..], sep);
      var rest, all := Pieces(s[k + 1..], sep), Pieces(s, sep);
      assert all == [s[..k]] + rest;
      GlueFirst(s, k, sep, rest, all);
    }
  }

  lemma GlueFirst<T>(s: seq<T>, k: nat, sep: T, rest: seq<seq<T>>, all: seq<seq<T>>)
    requires k < |s| && s[k] == sep
    requires rest != [] && Glue(rest, sep) == s[k + 1..] && all == [s[..k]] + rest
    ensures Glue(all, sep) == s
  {
    assert all[1..] == rest;
    assert s == s[..k] + [sep] + s[k + 1..];
  }

  lemma {:induction false} PiecesFree<T>(s: seq<T>, sep: T)
    ensures forall i :: 0 <= i < |Pieces(s, sep)| ==> sep !in Pieces(s, sep)[i]
    decreases |s|
  {
    var k := IndexOf(s, sep);
    if k < |s| {
      PiecesFree(s[k + 1..], sep);
    }
  }

  /** Pieces undoes Glue: separator-free runs survive the round trip. */
  lemma {:induction false} PiecesGlue<T>(p: seq<seq<T>>, sep: T)
    requires |p| >= 1
    requires forall i :: 0 <= i < |p| ==> sep !in p[i]
    ensures Pieces(Glue(p, sep), sep) == p
  {
    var s := Glue(p, sep);
    if |p| == 1 {
      assert sep !in p[0];
      assert IndexOf(s, sep) == |s|;
    } else {
      var rest := Glue(p[1..], sep);
      assert sep !in p[0];
      IndexOfPrefix(p[0], sep, rest);
      assert s == p[0] + [sep] + rest;
      assert s[..|p[0]|] == p[0];
      assert s[|p[0]| + 1..] == rest;
      PiecesGlue(p[1..], sep);
    }
  }

  lemma {:induction false} LastPiece<T>(s: seq<T>, sep: T)
    ensures var p := Pieces(s, sep);
            p[|p| - 1] == [] <==> s == [] || s[|s| - 1] == sep
    decreases |s|
  {
    var k := IndexOf(s, sep);
    if k < |s| {
      LastPiece(s[k + 1..], sep);
    }
  }

  lemma {:induction false} GlueSnoc<T>(p: seq<seq<T>>, sep: T, last: seq<T>)
    requires |p| >= 1
    ensures Glue(p + [last], sep) == Glue(p, sep) + [sep] + last
  {
    if |p| > 1 {
      GlueSnoc(p[1..], sep, last);
      assert (p + [last])[1..] == p[1..] + [last];
    }
  }

  lemma {:induction false} PieceElements<T>(s: seq<T>, sep: T, x: T, i: nat)
    requires i < |Pieces(s, sep)| && x in Pieces(s, sep)[i]
    ensures x in s
    decreases |s|
  {
    var k := IndexOf(s, sep);
    if k < |s| && i > 0 {
      PieceElements(s[k + 1..], sep, x, i - 1);
    }
  }
}
