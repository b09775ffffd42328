/** Whether one text is another with some lines taken out and some put in. */
module Moved {
  import opened Text
  import opened Lcs

  /** What the check demands of two lists of lines. */
  predicate Accepts<T(==)>(a: seq<T>, b: seq<T>, leave: seq<T>, enter: seq<T>)
  {
    && multiset(a) + multiset(enter) == multiset(b) + multiset(leave)
    && LcsLen(a, b) >= |a| - |leave|
  }

  /** `b` is `a` with the `leave` lines taken out and the `enter` lines put in, the `kept`
      rest in order. */
  ghost predicate EditKeeping<T>(a: seq<T>, b: seq<T>, leave: seq<T>, enter: seq<T>, kept: seq<T>)
  {
    && IsSubseq(kept, a) && multiset(a) == multiset(kept) + multiset(leave)
    && IsSubseq(kept, b) && multiset(b) == multiset(kept) + multiset(enter)
  }

  ghost predicate Edit<T(!new)>(a: seq<T>, b: seq<T>, leave: seq<T>, enter: seq<T>)
  {
    exists kept :: EditKeeping(a, b, leave, enter, kept)
  }

  function CountIn(count: map<string, int>, line: string): int
  {
    if line in count then count[line] else 0
  }

  function Tally<T(==)>(lines: seq<T>, x: T): int
  {
    multiset(lines)[x]
  }

  lemma TallySnoc<T>(lines: seq<T>, line: T, x: T)
    ensures Tally(lines + [line], x) == Tally(lines, x) + if x == line then 1 else 0
  {
  }

  ghost predicate Counted(sum: map<string, int>, count: map<string, int>, lines: seq<string>, sign: int)
  {
    forall x :: CountIn(sum, x) == CountIn(count, x) + sign * Tally(lines, x)
  }

  lemma CountedSnoc(sum: map<string, int>, count: map<string, int>, lines: seq<string>, sign: int, line: string)
    requires Counted(sum, count, lines, sign)
    ensures Counted(sum[line := CountIn(sum, line) + sign], count, lines + [line], sign)
  {
    var now := sum[line := CountIn(sum, line) + sign];
    forall x
      ensures CountIn(now, x) == CountIn(count, x) + sign * Tally(lines + [line], x)
    {
      TallySnoc(lines, line, x);
      assert CountIn(sum, x) == CountIn(count, x) + sign * Tally(lines, x);
      if x == line {
        assert sign * (Tally(lines, x) + 1) == sign * Tally(lines, x) + sign;
      } else {
        assert Tally(lines + [line], x) == Tally(lines, x);
      }
    }
  }

  /** Counts each of `lines` once with `sign`. */
  method Add(count: map<string, int>, lines: seq<string>, sign: int) returns (sum: map<string, int>)
    ensures Counted(sum, count, lines, sign)
  {
    sum := count;
    for i := 0 to |lines|
      invariant Counted(sum, count, lines[..i], sign)
    {
      CountedSnoc(sum, count, lines[..i], sign, lines[i]);
      assert lines[..i + 1] == lines[..i] + [lines[i]];
      sum := sum[lines[i] := CountIn(sum, lines[i]) + sign];
    }
    assert lines[..|lines|] == lines;
  }

  /** Whether every count is zero, in whatever order the table is walked. */
  method AllZero(count: map<string, int>) returns (zero: bool)
    ensures zero <==> forall x :: CountIn(count, x) == 0
  {
    var left := count.Keys;
    while left != {}
      invariant left <= count.Keys
      invariant forall x :: x in count && x !in left ==> count[x] == 0
      decreases left
    {
      var x :| x in left;
      if count[x] != 0 {
        assert CountIn(count, x) != 0;
        return false;
      }
      left := left - {x};
    }
    return true;
  }

  /** The check itself: each text's lines counted against the lines that move, then the
      longest common subsequence measured against what should stay. */
  method Check(from: string, to: string, leave: seq<string>, enter: seq<string>) returns (ok: bool)
    ensures ok <==> Accepts(EndedLines(from), EndedLines(to), leave, enter)
  {
    var a, b := EndedLines(from), EndedLines(to);
    var count := Add(map[], a, 1);
    count := Add(count, leave, -1);
    count := Add(count, enter, 1);
    count := Add(count, b, -1);
    var balanced := AllZero(count);
    assert balanced <==> multiset(a) + multiset(enter) == multiset(b) + multiset(leave) by {
      BalanceIsEquality(a, b, leave, enter, count);
    }
    if !balanced {
      return false;
    }
    var n := Length(a, b);
    return n >= |a| - |leave|;
  }

  lemma BalanceIsEquality(a: seq<string>, b: seq<string>, leave: seq<string>, enter: seq<string>, count: map<string,
                          int>)
    requires forall x :: CountIn(count, x) == Tally(a, x) - Tally(leave, x) + Tally(enter, x) - Tally(b, x)
    ensures (forall x :: CountIn(count, x) == 0) <==> multiset(a) + multiset(enter) == multiset(b) + multiset(leave)
  {
    var l, r := multiset(a) + multiset(enter), multiset(b) + multiset(leave);
    if l == r {
      forall x
        ensures CountIn(count, x) == 0
      {
        assert l[x] == r[x];
      }
    }
    if forall x :: CountIn(count, x) == 0 {
      forall x
        ensures l[x] == r[x]
      {
        assert CountIn(count, x) == 0;
      }
    }
  }

  // ----- what the check means -----

  /** Every edit is accepted. */
  lemma EditAccepted<T(!new)>(a: seq<T>, b: seq<T>, leave: seq<T>, enter: seq<T>)
    requires Edit(a, b, leave, enter)
    ensures Accepts(a, b, leave, enter)
  {
    var kept :| EditKeeping(a, b, leave, enter, kept);
    NoneLonger(a, b, kept);
    assert |multiset(a)| == |a| && |multiset(kept)| == |kept| && |multiset(leave)| == |leave|;
  }

  lemma BagFull<T>(small: multiset<T>, big: multiset<T>)
    requires small <= big && |small| >= |big|
    ensures small == big
  {
    assert big == small + (big - small);
  }

  /** With no line both leaving and entering, only edits are accepted. */
  lemma AcceptedIsEdit<T(!new)>(a: seq<T>, b: seq<T>, leave: seq<T>, enter: seq<T>)
    requires Accepts(a, b, leave, enter) && multiset(leave) !! multiset(enter)
    ensures Edit(a, b, leave, enter)
  {
    var c := CommonOfLength(a, b);
    SubseqBag(c, a);
    SubseqBag(c, b);
    var ma, mb, ml, me, mc := multiset(a), multiset(b), multiset(leave), multiset(enter), multiset(c);
    forall x
      ensures ml[x] <= ma[x] && mc[x] <= (ma - ml)[x]
    {
      assert (ma + me)[x] == (mb + ml)[x];
      assert ml[x] == 0 || me[x] == 0;
      assert mc[x] <= ma[x] && mc[x] <= mb[x];
    }
    assert ma == (ma - ml) + ml;
    BagFull(mc, ma - ml);
    forall x
      ensures mb[x] == (mc + me)[x]
    {
      assert (ma + me)[x] == (mb + ml)[x];
      assert ml[x] <= ma[x];
    }
    assert EditKeeping(a, b, leave, enter, c);
  }

  // ----- exactly when the check means that -----

  /** A length every one of `lines` is shorter than. */
  function Beyond(lines: seq<string>): (n: nat)
    ensures forall line | line in lines :: |line| < n
  {
    if lines == [] then 0 else Lcs.Max(Beyond(lines[1..]), |lines[0]| + 1)
  }

  lemma {:induction false} SubseqPrefix(c: seq<string>, front: seq<string>, tail: seq<string>)
    requires IsSubseq(c, front + tail) && forall x | x in c :: x !in tail
    ensures IsSubseq(c, front)
    decreases |tail|
  {
    if tail == [] {
      assert front + tail == front;
    } else if c != [] {
      assert (front + tail)[..|front + tail| - 1] == front + tail[..|tail| - 1];
      assert (front + tail)[|front + tail| - 1] in tail;
      assert c[|c| - 1] in c;
      SubseqPrefix(c, front, tail[..|tail| - 1]);
    }
  }

  lemma Three(x: string, y: string, z: string, c: seq<string>)
    requires x != y && y != z && z != x && multiset(c) == multiset{y, z}
    ensures IsSubseq(c, [x, y, z]) <==> c == [y, z]
  {
    PairOf(y, z, c);
    var xy := [x, y];
    assert [x, y, z][..2] == xy && xy[..1] == [x] && [x][..0] == [];
    if c == [y, z] {
      assert c[..1] == [y] && c[..1][..0] == [];
      assert IsSubseq([y], xy);
    } else {
      assert c == [z, y] && c[..1] == [z];
      assert !IsSubseq(c, []) && !IsSubseq([z], []);
      assert !IsSubseq(c, [x]) && !IsSubseq([z], [x]);
      assert !IsSubseq(c, xy);
    }
  }

  lemma Ends(x: string, y: string, z: string)
    ensures IsSubseq([x, z], [x, y, z]) && IsSubseq([x, z], [x, z, y])
  {
    assert [x, y, z][..2] == [x, y] && [x, y][..1] == [x] && [x][..0] == [];
    assert [x, z, y][..2] == [x, z] && [x, z][..1] == [x];
    assert IsSubseq([x], [x]);
    assert IsSubseq([x], [x, y]);
    assert IsSubseq([x, z], [x, z]);
  }

  lemma PairOf(y: string, z: string, c: seq<string>)
    requires y != z && multiset(c) == multiset{y, z}
    ensures c == [y, z] || c == [z, y]
  {
    assert |c| == |multiset(c)| == 2;
    assert c == [c[0], c[1]];
    assert multiset(c)[y] == 1 && multiset(c)[z] == 1;
    assert c[0] in multiset(c) && c[1] in multiset(c);
  }

  lemma DropOne(lines: seq<string>, x: string) returns (rest: seq<string>)
    requires x in lines
    ensures multiset(lines) == multiset(rest) + multiset{x} && |lines| == |rest| + 1
    ensures forall y | y in rest :: y in lines
  {
    var i :| 0 <= i < |lines| && lines[i] == x;
    rest := lines[..i] + lines[i + 1..];
    assert lines == lines[..i] + [x] + lines[i + 1..];
  }

  /** Whatever line both leaves and enters, some pair of texts is accepted that is no edit:
      two other lines trade places, and the line that could have stayed pays for it. */
  lemma SharedMisleads(leave: seq<string>, enter: seq<string>, x: string) returns (a: seq<string>, b: seq<string>)
    requires x in leave && x in enter
    ensures Accepts(a, b, leave, enter) && !Edit(a, b, leave, enter)
  {
    var n := Beyond(leave + enter);
    var y, z := seq(n, _ => 'a'), seq(n + 1, _ => 'a');
    assert |y| == n && |z| == n + 1;
    assert x in leave + enter;
    assert forall l | l in leave :: l in leave + enter;
    assert forall l | l in enter :: l in leave + enter;
    var stay := DropOne(leave, x);
    var come := DropOne(enter, x);
    var xyz, xzy := [x, y, z], [x, z, y];
    a, b := xyz + stay, xzy + come;
    SharedAccepted(x, y, z, stay, come, leave, enter);
    forall kept
      ensures !EditKeeping(a, b, leave, enter, kept)
    {
      if EditKeeping(a, b, leave, enter, kept) {
        KeptPair(x, y, z, stay, leave, kept);
        SubseqPrefix(kept, xyz, stay);
        SubseqPrefix(kept, xzy, come);
        Three(x, y, z, kept);
        Three(x, z, y, kept);
      }
    }
  }

  lemma BagRest<T>(kept: multiset<T>, leave: multiset<T>, stay: multiset<T>, x: multiset<T>, yz: multiset<T>)
    requires leave == stay + x && (x + yz) + stay == kept + leave
    ensures kept == yz
  {
    forall l
      ensures kept[l] == yz[l]
    {
      assert (kept + leave)[l] == ((x + yz) + stay)[l];
    }
  }

  lemma KeptPair<T>(x: T, y: T, z: T, stay: seq<T>, leave: seq<T>, kept: seq<T>)
    requires multiset(leave) == multiset(stay) + multiset{x}
    requires multiset([x, y, z] + stay) == multiset(kept) + multiset(leave)
    ensures multiset(kept) == multiset{y, z} && forall l | l in kept :: l in {y, z}
  {
    assert multiset([x, y, z]) == multiset{x} + multiset{y, z};
    BagRest(multiset(kept), multiset(leave), multiset(stay), multiset{x}, multiset{y, z});
    forall l | l in kept
      ensures l in {y, z}
    {
      assert l in multiset(kept);
    }
  }

  lemma SharedAccepted(x: string, y: string, z: string, stay: seq<string>, come: seq<string>, leave: seq<string>,
                       enter: seq<string>)
    requires x != y && y != z && z != x
    requires multiset(leave) == multiset(stay) + multiset{x} && |leave| == |stay| + 1
    requires multiset(enter) == multiset(come) + multiset{x}
    ensures Accepts([x, y, z] + stay, [x, z, y] + come, leave, enter)
  {
    var a, b := [x, y, z] + stay, [x, z, y] + come;
    assert multiset([x, y, z]) == multiset([x, z, y]);
    assert multiset(a) + multiset(enter) == multiset(b) + multiset(leave);
    Ends(x, y, z);
    SubseqConcat([x, z], [x, y, z], [], stay);
    SubseqConcat([x, z], [x, z, y], [], come);
    assert [x, z] + [] == [x, z];
    NoneLonger(a, b, [x, z]);
  }

  /** The check means exactly an edit, on every pair of texts, if and only if no line both
      leaves and enters. */
  lemma ExactWhenDisjoint(leave: seq<string>, enter: seq<string>)
    ensures (forall a, b :: Accepts(a, b, leave, enter) <==> Edit(a, b, leave, enter))
       <==> multiset(leave) !! multiset(enter)
  {
    if multiset(leave) !! multiset(enter) {
      forall a, b
        ensures Accepts(a, b, leave, enter) <==> Edit(a, b, leave, enter)
      {
        if Accepts(a, b, leave, enter) { AcceptedIsEdit(a, b, leave, enter); }
        if Edit(a, b, leave, enter) { EditAccepted(a, b, leave, enter); }
      }
    } else {
      var x :| x in multiset(leave) && x in multiset(enter);
      var a, b := SharedMisleads(leave, enter, x);
    }
  }
}
