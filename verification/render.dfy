/** The one-column rendering of a diff: unchanged lines, and at each hunk its old lines then
    its new ones. */
module Render {
  import opened Wrappers
  import opened Text
  import opened Diff
  import opened Splice
  import opened Nav
  import opened Revert

  function ContextRows(i: nat, j: nat, count: nat): (rows: seq<Row>)
    ensures |rows| == count
  {
    if count == 0 then []
    else ContextRows(i, j, count - 1) + [Row(Context, Some(i + count), Some(j + count), None)]
  }

  function OldRowsOf(i: nat, count: nat, k: nat): (rows: seq<Row>)
    ensures |rows| == count
  {
    if count == 0 then []
    else OldRowsOf(i, count - 1, k) + [Row(Old, Some(i + count), None, Some(k))]
  }

  function NewRowsOf(j: nat, count: nat, k: nat): (rows: seq<Row>)
    ensures |rows| == count
  {
    if count == 0 then []
    else NewRowsOf(j, count - 1, k) + [Row(New, None, Some(j + count), Some(k))]
  }

  function HunkRows(h: Hunk, k: nat): (rows: seq<Row>)
    requires OldAt(h) >= 0 && NewAt(h) >= 0
    ensures |rows| == h.oldCount + h.newCount
  {
    OldRowsOf(OldAt(h), h.oldCount, k) + NewRowsOf(NewAt(h), h.newCount, k)
  }

  /** The rows from old line `i`, new line `j` and the `k`th hunk on, hunks numbered from one. */
  function StackedRows<T(==)>(was: seq<T>, now: seq<T>, hunks: seq<Hunk>, k: nat, i: nat, j: nat): seq<Row>
    requires Valid(was, now, hunks, k, i, j)
    decreases |hunks| - k
  {
    if k == |hunks| then ContextRows(i, j, |was| - i)
    else
      var h := hunks[k];
      ContextRows(i, j, OldAt(h) - i)
      + HunkRows(h, k + 1)
      + StackedRows(was, now, hunks, k + 1, OldAt(h) + h.oldCount, NewAt(h) + h.newCount)
  }

  /** What is shown: nothing for a diff with no hunks. */
  function Rendered<T(==)>(was: seq<T>, now: seq<T>, hunks: seq<Hunk>): seq<Row>
    requires Valid(was, now, hunks, 0, 0, 0)
  {
    if hunks == [] then [] else StackedRows(was, now, hunks, 0, 0, 0)
  }

  method PushContext(m: LineMap, i: nat, j: nat, count: int)
    requires Pushed(m)
    modifies m
    ensures Pushed(m) && m.lines == old(m.lines) + ContextRows(i, j, if count > 0 then count else 0)
  {
    if count <= 0 {
      return;
    }
    for r := 0 to count
      invariant Pushed(m) && m.lines == old(m.lines) + ContextRows(i, j, r)
    {
      PushKeeps(m.lines, Row(Context, Some(i + r + 1), Some(j + r + 1), None));
      var lnum := m.Push(Row(Context, Some(i + r + 1), Some(j + r + 1), None));
    }
  }

  method PushHunk(m: LineMap, h: Hunk, k: nat)
    requires Pushed(m) && OldAt(h) >= 0 && NewAt(h) >= 0
    modifies m
    ensures Pushed(m) && m.lines == old(m.lines) + HunkRows(h, k)
  {
    for r := 0 to h.oldCount
      invariant Pushed(m) && m.lines == old(m.lines) + OldRowsOf(OldAt(h), r, k)
    {
      PushKeeps(m.lines, Row(Old, Some(h.oldStart + r), None, Some(k)));
      var lnum := m.Push(Row(Old, Some(h.oldStart + r), None, Some(k)));
    }
    ghost var olds := m.lines;
    for r := 0 to h.newCount
      invariant Pushed(m) && m.lines == olds + NewRowsOf(NewAt(h), r, k)
    {
      PushKeeps(m.lines, Row(New, None, Some(h.newStart + r), Some(k)));
      var lnum := m.Push(Row(New, None, Some(h.newStart + r), Some(k)));
    }
  }

  /** The walk makes `all` of `rows` with the hunks from the `k`th still to come. */
  predicate Makes<T(==)>(all: seq<Row>, was: seq<T>, now: seq<T>, hunks: seq<Hunk>, k: nat, i: nat, j: nat,
                         rows: seq<Row>)
    requires Valid(was, now, hunks, k, i, j)
    decreases |hunks| - k
  {
    if k == |hunks| then all == rows + ContextRows(i, j, |was| - i)
    else
      var h := hunks[k];
      Makes(all, was, now, hunks, k + 1, OldAt(h) + h.oldCount, NewAt(h) + h.newCount,
            rows + ContextRows(i, j, OldAt(h) - i) + HunkRows(h, k + 1))
  }

  lemma {:induction false} MakesStacked<T>(was: seq<T>, now: seq<T>, hunks: seq<Hunk>, k: nat, i: nat, j: nat,
                                           rows: seq<Row>)
    requires Valid(was, now, hunks, k, i, j)
    ensures Makes(rows + StackedRows(was, now, hunks, k, i, j), was, now, hunks, k, i, j, rows)
    decreases |hunks| - k
  {
    if k < |hunks| {
      var h := hunks[k];
      var i', j' := OldAt(h) + h.oldCount, NewAt(h) + h.newCount;
      var context, block, rest := ContextRows(i, j, OldAt(h) - i), HunkRows(h, k + 1),
                                  StackedRows(was, now, hunks, k + 1, i', j');
      MakesStacked(was, now, hunks, k + 1, i', j', rows + context + block);
      assert rows + context + block + rest == rows + (context + block + rest);
    }
  }

  lemma MakesTurn<T>(all: seq<Row>, was: seq<T>, now: seq<T>, hunks: seq<Hunk>, k: nat, i: nat, j: nat, rows: seq<Row>,
                     rows': seq<Row>)
    requires Valid(was, now, hunks, k, i, j) && k < |hunks| && Makes(all, was, now, hunks, k, i, j, rows)
    requires rows' == rows + ContextRows(i, j, OldAt(hunks[k]) - i) + HunkRows(hunks[k], k + 1)
    ensures Makes(all, was, now, hunks, k + 1, OldAt(hunks[k]) + hunks[k].oldCount, NewAt(hunks[k]) + hunks[k].newCount,
                  rows')
  {
  }

  /** The unchanged lines up to a hunk, then the hunk. */
  method PushTurn(m: LineMap, h: Hunk, k: nat, i: nat, j: nat)
    requires Pushed(m) && i <= OldAt(h) && NewAt(h) >= 0
    modifies m
    ensures Pushed(m) && m.lines == old(m.lines) + ContextRows(i, j, OldAt(h) - i) + HunkRows(h, k)
  {
    PushContext(m, i, j, OldAt(h) - i);
    PushHunk(m, h, k);
  }

  /** Walks the hunks; a diff with none shows nothing. */
  method RenderStacked<T(==)>(was: seq<T>, now: seq<T>, hunks: seq<Hunk>) returns (m: LineMap)
    requires Valid(was, now, hunks, 0, 0, 0)
    ensures fresh(m) && Pushed(m)
    ensures m.lines == Rendered(was, now, hunks)
  {
    m := new LineMap();
    if hunks == [] {
      return;
    }
    var i: nat, j: nat := 0, 0;
    ghost var all := StackedRows(was, now, hunks, 0, 0, 0);
    MakesStacked(was, now, hunks, 0, 0, 0, []);
    assert [] + all == all;
    for k := 0 to |hunks|
      invariant fresh(m) && Pushed(m) && Valid(was, now, hunks, k, i, j)
      invariant Makes(all, was, now, hunks, k, i, j, m.lines)
    {
      var h := hunks[k];
      ghost var before := m.lines;
      PushTurn(m, h, k + 1, i, j);
      MakesTurn(all, was, now, hunks, k, i, j, before, m.lines);
      i, j := OldAt(h) + h.oldCount, NewAt(h) + h.newCount;
    }
    PushContext(m, i, j, |was| - i);
  }

  // ----- every line of each side is shown once, in order -----

  function Run(from: nat, count: nat): seq<nat>
  {
    if count == 0 then [] else Run(from, count - 1) + [from + count]
  }

  function NewOf(rows: seq<Row>): seq<nat>
  {
    if rows == [] then []
    else NewOf(rows[..|rows| - 1]) + if rows[|rows| - 1].now.Some? then [rows[|rows| - 1].now.value] else []
  }

  function OldOf(rows: seq<Row>): seq<nat>
  {
    if rows == [] then []
    else OldOf(rows[..|rows| - 1]) + if rows[|rows| - 1].was.Some? then [rows[|rows| - 1].was.value] else []
  }

  lemma {:induction false} NewOfConcat(a: seq<Row>, b: seq<Row>)
    ensures NewOf(a + b) == NewOf(a) + NewOf(b)
    decreases |b|
  {
    if b == [] {
      assert a + b == a;
    } else {
      assert (a + b)[..|a + b| - 1] == a + b[..|b| - 1];
      NewOfConcat(a, b[..|b| - 1]);
    }
  }

  lemma {:induction false} OldOfConcat(a: seq<Row>, b: seq<Row>)
    ensures OldOf(a + b) == OldOf(a) + OldOf(b)
    decreases |b|
  {
    if b == [] {
      assert a + b == a;
    } else {
      assert (a + b)[..|a + b| - 1] == a + b[..|b| - 1];
      OldOfConcat(a, b[..|b| - 1]);
    }
  }

  lemma {:induction false} RowsNumbers(i: nat, j: nat, count: nat, k: nat)
    ensures NewOf(ContextRows(i, j, count)) == Run(j, count) && OldOf(ContextRows(i, j, count)) == Run(i, count)
    ensures NewOf(OldRowsOf(i, count, k)) == [] && OldOf(OldRowsOf(i, count, k)) == Run(i, count)
    ensures NewOf(NewRowsOf(j, count, k)) == Run(j, count) && OldOf(NewRowsOf(j, count, k)) == []
  {
    if count > 0 {
      RowsNumbers(i, j, count - 1, k);
      var c, o, n := ContextRows(i, j, count), OldRowsOf(i, count, k), NewRowsOf(j, count, k);
      assert c[..count - 1] == ContextRows(i, j, count - 1);
      assert o[..count - 1] == OldRowsOf(i, count - 1, k);
      assert n[..count - 1] == NewRowsOf(j, count - 1, k);
    }
  }

  lemma {:induction false} RunJoins(from: nat, a: nat, b: nat)
    ensures Run(from, a) + Run(from + a, b) == Run(from, a + b)
    decreases b
  {
    if b > 0 {
      RunJoins(from, a, b - 1);
    }
  }

  lemma HunkNumbers(h: Hunk, k: nat)
    requires OldAt(h) >= 0 && NewAt(h) >= 0
    ensures NewOf(HunkRows(h, k)) == Run(NewAt(h), h.newCount)
    ensures OldOf(HunkRows(h, k)) == Run(OldAt(h), h.oldCount)
  {
    var olds, news := OldRowsOf(OldAt(h), h.oldCount, k), NewRowsOf(NewAt(h), h.newCount, k);
    RowsNumbers(OldAt(h), NewAt(h), h.oldCount, k);
    RowsNumbers(OldAt(h), NewAt(h), h.newCount, k);
    NewOfConcat(olds, news);
    OldOfConcat(olds, news);
  }

  lemma RunParts(from: nat, a: nat, b: nat, c: nat)
    ensures Run(from, a) + Run(from + a, b) + Run(from + a + b, c) == Run(from, a + b + c)
  {
    RunJoins(from, a, b);
    RunJoins(from, a + b, c);
  }

  lemma GapsEqual<T>(was: seq<T>, now: seq<T>, hunks: seq<Hunk>, k: nat, i: nat, j: nat)
    requires Valid(was, now, hunks, k, i, j)
    ensures k == |hunks| ==> |was| - i == |now| - j
    ensures k < |hunks| ==> OldAt(hunks[k]) - i == NewAt(hunks[k]) - j
  {
    if k == |hunks| {
      assert |was[i..]| == |now[j..]|;
    } else {
      assert |was[i..OldAt(hunks[k])]| == |now[j..NewAt(hunks[k])]|;
    }
  }

  lemma NewTurn(h: Hunk, i: nat, j: nat, gap: nat, k: nat, rest: seq<Row>, count: nat)
    requires i + gap == OldAt(h) && j + gap == NewAt(h)
    requires NewOf(rest) == Run(NewAt(h) + h.newCount, count)
    ensures NewOf(ContextRows(i, j, gap) + HunkRows(h, k) + rest) == Run(j, gap + h.newCount + count)
  {
    var context, block := ContextRows(i, j, gap), HunkRows(h, k);
    RowsNumbers(i, j, gap, k);
    HunkNumbers(h, k);
    NewOfConcat(context + block, rest);
    NewOfConcat(context, block);
    RunParts(j, gap, h.newCount, count);
  }

  lemma NewNext<T>(was: seq<T>, now: seq<T>, hunks: seq<Hunk>, k: nat, i: nat, j: nat, i': nat, j': nat)
    requires Valid(was, now, hunks, k, i, j) && k < |hunks| && Valid(was, now, hunks, k + 1, i', j')
    requires i' == OldAt(hunks[k]) + hunks[k].oldCount && j' == NewAt(hunks[k]) + hunks[k].newCount
    requires NewOf(StackedRows(was, now, hunks, k + 1, i', j')) == Run(j', |now| - j')
    ensures NewOf(StackedRows(was, now, hunks, k, i, j)) == Run(j, |now| - j)
  {
    GapsEqual(was, now, hunks, k, i, j);
    NewTurn(hunks[k], i, j, OldAt(hunks[k]) - i, k + 1, StackedRows(was, now, hunks, k + 1, i', j'), |now| - j');
  }

  lemma {:induction false} ShowsNewFrom<T>(was: seq<T>, now: seq<T>, hunks: seq<Hunk>, k: nat, i: nat, j: nat)
    requires Valid(was, now, hunks, k, i, j)
    ensures NewOf(StackedRows(was, now, hunks, k, i, j)) == Run(j, |now| - j)
    decreases |hunks| - k
  {
    GapsEqual(was, now, hunks, k, i, j);
    if k == |hunks| {
      RowsNumbers(i, j, |was| - i, k);
    } else {
      var h := hunks[k];
      var i', j' := OldAt(h) + h.oldCount, NewAt(h) + h.newCount;
      ShowsNewFrom(was, now, hunks, k + 1, i', j');
      NewNext(was, now, hunks, k, i, j, i', j');
    }
  }

  lemma OldTurn(h: Hunk, i: nat, j: nat, gap: nat, k: nat, rest: seq<Row>, count: nat)
    requires i + gap == OldAt(h) && j + gap == NewAt(h)
    requires OldOf(rest) == Run(OldAt(h) + h.oldCount, count)
    ensures OldOf(ContextRows(i, j, gap) + HunkRows(h, k) + rest) == Run(i, gap + h.oldCount + count)
  {
    var context, block := ContextRows(i, j, gap), HunkRows(h, k);
    RowsNumbers(i, j, gap, k);
    HunkNumbers(h, k);
    OldOfConcat(context + block, rest);
    OldOfConcat(context, block);
    RunParts(i, gap, h.oldCount, count);
  }

  lemma OldNext<T>(was: seq<T>, now: seq<T>, hunks: seq<Hunk>, k: nat, i: nat, j: nat, i': nat, j': nat)
    requires Valid(was, now, hunks, k, i, j) && k < |hunks| && Valid(was, now, hunks, k + 1, i', j')
    requires i' == OldAt(hunks[k]) + hunks[k].oldCount && j' == NewAt(hunks[k]) + hunks[k].newCount
    requires OldOf(StackedRows(was, now, hunks, k + 1, i', j')) == Run(i', |was| - i')
    ensures OldOf(StackedRows(was, now, hunks, k, i, j)) == Run(i, |was| - i)
  {
    GapsEqual(was, now, hunks, k, i, j);
    OldTurn(hunks[k], i, j, OldAt(hunks[k]) - i, k + 1, StackedRows(was, now, hunks, k + 1, i', j'), |was| - i');
  }

  lemma {:induction false} ShowsOldFrom<T>(was: seq<T>, now: seq<T>, hunks: seq<Hunk>, k: nat, i: nat, j: nat)
    requires Valid(was, now, hunks, k, i, j)
    ensures OldOf(StackedRows(was, now, hunks, k, i, j)) == Run(i, |was| - i)
    decreases |hunks| - k
  {
    GapsEqual(was, now, hunks, k, i, j);
    if k == |hunks| {
      RowsNumbers(i, j, |was| - i, k);
    } else {
      var h := hunks[k];
      var i', j' := OldAt(h) + h.oldCount, NewAt(h) + h.newCount;
      ShowsOldFrom(was, now, hunks, k + 1, i', j');
      OldNext(was, now, hunks, k, i, j, i', j');
    }
  }

  /** A diff with a hunk shows each line of the new side exactly once, in order. */
  lemma ShowsEveryNewLine<T>(was: seq<T>, now: seq<T>, hunks: seq<Hunk>)
    requires Valid(was, now, hunks, 0, 0, 0)
    ensures NewOf(Rendered(was, now, hunks)) == if hunks == [] then [] else Run(0, |now|)
  {
    var rows := StackedRows(was, now, hunks, 0, 0, 0);
    assert NewOf(rows) == Run(0, |now|) by {
      ShowsNewFrom(was, now, hunks, 0, 0, 0);
    }
  }

  /** And each line of the old side. */
  lemma ShowsEveryOldLine<T>(was: seq<T>, now: seq<T>, hunks: seq<Hunk>)
    requires Valid(was, now, hunks, 0, 0, 0)
    ensures OldOf(Rendered(was, now, hunks)) == if hunks == [] then [] else Run(0, |was|)
  {
    var rows := StackedRows(was, now, hunks, 0, 0, 0);
    assert OldOf(rows) == Run(0, |was|) by {
      ShowsOldFrom(was, now, hunks, 0, 0, 0);
    }
  }

  // ----- so motion and landing work on it -----

  lemma {:induction false} RunIs(from: nat, count: nat)
    ensures |Run(from, count)| == count && forall q | 0 <= q < count :: Run(from, count)[q] == from + q + 1
  {
    if count > 0 {
      RunIs(from, count - 1);
    }
  }

  lemma {:induction false} NewOfHas(rows: seq<Row>, r: nat)
    requires r < |rows| && rows[r].now.Some?
    ensures rows[r].now.value in NewOf(rows)
  {
    if r < |rows| - 1 {
      NewOfHas(rows[..|rows| - 1], r);
    }
  }

  lemma NewestLast(init: seq<Row>, v: seq<nat>, n: nat)
    requires NewOf(init) == v && Ascending(v + [n])
    ensures forall r | 0 <= r < |init| && init[r].now.Some? :: init[r].now.value < n
  {
    forall r | 0 <= r < |init| && init[r].now.Some?
      ensures init[r].now.value < n
    {
      NewOfHas(init, r);
      var q :| 0 <= q < |v| && v[q] == init[r].now.value;
      assert (v + [n])[q] < (v + [n])[|v|];
    }
  }

  lemma AscendingInit(v: seq<nat>, n: nat)
    requires Ascending(v + [n])
    ensures Ascending(v)
  {
    forall i, j | 0 <= i < j < |v|
      ensures v[i] < v[j]
    {
      assert (v + [n])[i] < (v + [n])[j];
    }
  }

  lemma {:induction false} AscendingRows(rows: seq<Row>)
    requires Ascending(NewOf(rows))
    ensures NewAscends(rows)
  {
    if rows != [] {
      var init, last := rows[..|rows| - 1], rows[|rows| - 1];
      if last.now.Some? {
        AscendingInit(NewOf(init), last.now.value);
        NewestLast(init, NewOf(init), last.now.value);
      } else {
        assert NewOf(init) == NewOf(rows);
      }
      AscendingRows(init);
    }
  }

  predicate KindsMatch(rows: seq<Row>)
  {
    forall r | 0 <= r < |rows| && rows[r].now.Some? :: rows[r].kind.New? || rows[r].kind.Context?
  }

  lemma {:induction false} IndexIsNewOf(rows: seq<Row>)
    requires KindsMatch(rows)
    ensures forall n :: n in NewIndex(rows) <==> n in NewOf(rows)
    ensures |rows| >= |NewOf(rows)|
  {
    if rows != [] {
      IndexIsNewOf(rows[..|rows| - 1]);
    }
  }

  lemma {:induction false} StackedKinds<T>(was: seq<T>, now: seq<T>, hunks: seq<Hunk>, k: nat, i: nat, j: nat)
    requires Valid(was, now, hunks, k, i, j)
    ensures KindsMatch(StackedRows(was, now, hunks, k, i, j))
    decreases |hunks| - k
  {
    if k == |hunks| {
      BlockKinds(i, j, |was| - i, k);
    } else {
      var h := hunks[k];
      BlockKinds(i, j, OldAt(h) - i, k);
      BlockKinds(OldAt(h), NewAt(h), h.oldCount, k + 1);
      BlockKinds(OldAt(h), NewAt(h), h.newCount, k + 1);
      StackedKinds(was, now, hunks, k + 1, OldAt(h) + h.oldCount, NewAt(h) + h.newCount);
    }
  }

  lemma {:induction false} BlockKinds(i: nat, j: nat, count: nat, k: nat)
    ensures KindsMatch(ContextRows(i, j, count)) && KindsMatch(OldRowsOf(i, count, k))
    ensures KindsMatch(NewRowsOf(j, count, k))
  {
    if count > 0 {
      BlockKinds(i, j, count - 1, k);
    }
  }

  /** A diff with a hunk has exactly the new side's lines indexed, and its new-side numbers
      ascend. */
  lemma StackedIndex<T>(was: seq<T>, now: seq<T>, hunks: seq<Hunk>)
    requires Valid(was, now, hunks, 0, 0, 0) && hunks != []
    ensures var rows := Rendered(was, now, hunks);
            && NewAscends(rows) && |rows| >= |now|
            && forall n: nat :: n in NewIndex(rows) <==> 1 <= n <= |now|
  {
    var rows := StackedRows(was, now, hunks, 0, 0, 0);
    ShowsNewFrom(was, now, hunks, 0, 0, 0);
    RunIs(0, |now|);
    AscendingRows(rows);
    StackedKinds(was, now, hunks, 0, 0, 0);
    IndexIsNewOf(rows);
    forall n: nat
      ensures n in Run(0, |now|) <==> 1 <= n <= |now|
    {
      if 1 <= n <= |now| {
        assert Run(0, |now|)[n - 1] == n;
      }
    }
  }

  // ----- what each row is -----

  /** A context row shows one line both sides have, outside the hunks; an old row a hunk's old line,
      and a new row a hunk's new line. */
  predicate RowTells<T(==)>(was: seq<T>, now: seq<T>, hunks: seq<Hunk>, row: Row)
  {
    match row
    case Row(Context, Some(o), Some(n), None) => 1 <= o <= |was| && 1 <= n <= |now| && was[o - 1] == now[n - 1]
    case Row(Old, Some(o), None, Some(k)) =>
      1 <= k <= |hunks| && 0 < o - OldAt(hunks[k - 1]) <= hunks[k - 1].oldCount && o <= |was|
    case Row(New, None, Some(n), Some(k)) =>
      1 <= k <= |hunks| && 0 < n - NewAt(hunks[k - 1]) <= hunks[k - 1].newCount && n <= |now|
    case _ => false
  }

  predicate RowsTell<T(==)>(was: seq<T>, now: seq<T>, hunks: seq<Hunk>, rows: seq<Row>)
  {
    forall r | 0 <= r < |rows| :: RowTells(was, now, hunks, rows[r])
  }

  lemma SliceEnds<T>(s: seq<T>, i: nat, count: nat)
    requires count > 0 && i + count <= |s|
    ensures s[i..i + (count - 1)] == s[i..i + count][..count - 1] && s[i + count - 1] == s[i..i + count][count - 1]
  {
  }

  lemma {:induction false} ContextTells<T>(was: seq<T>, now: seq<T>, hunks: seq<Hunk>, i: nat, j: nat, count: nat)
    requires i + count <= |was| && j + count <= |now|
    requires was[i..i + count] == now[j..j + count]
    ensures RowsTell(was, now, hunks, ContextRows(i, j, count))
  {
    if count > 0 {
      SliceEnds(was, i, count);
      SliceEnds(now, j, count);
      ContextTells(was, now, hunks, i, j, count - 1);
    }
  }

  lemma {:induction false} OldRowsTell<T>(was: seq<T>, now: seq<T>, hunks: seq<Hunk>, k: nat, count: nat)
    requires k < |hunks| && OldAt(hunks[k]) >= 0 && count <= hunks[k].oldCount && OldAt(hunks[k]) + count <= |was|
    ensures RowsTell(was, now, hunks, OldRowsOf(OldAt(hunks[k]), count, k + 1))
  {
    if count > 0 {
      OldRowsTell(was, now, hunks, k, count - 1);
    }
  }

  lemma {:induction false} NewRowsTell<T>(was: seq<T>, now: seq<T>, hunks: seq<Hunk>, k: nat, count: nat)
    requires k < |hunks| && NewAt(hunks[k]) >= 0 && count <= hunks[k].newCount && NewAt(hunks[k]) + count <= |now|
    ensures RowsTell(was, now, hunks, NewRowsOf(NewAt(hunks[k]), count, k + 1))
  {
    if count > 0 {
      NewRowsTell(was, now, hunks, k, count - 1);
    }
  }

  lemma PartsTell<T>(was: seq<T>, now: seq<T>, hunks: seq<Hunk>, a: seq<Row>, b: seq<Row>, c: seq<Row>, rows: seq<Row>)
    requires RowsTell(was, now, hunks, a) && RowsTell(was, now, hunks, b) && RowsTell(was, now, hunks, c)
    requires rows == a + b + c
    ensures RowsTell(was, now, hunks, rows)
  {
    forall r | 0 <= r < |rows|
      ensures RowTells(was, now, hunks, rows[r])
    {
      PartAt(a, b, c, r);
    }
  }

  lemma GapTells<T>(was: seq<T>, now: seq<T>, hunks: seq<Hunk>, i: nat, j: nat, p: nat, q: nat)
    requires i <= p <= |was| && j <= q <= |now| && was[i..p] == now[j..q]
    ensures RowsTell(was, now, hunks, ContextRows(i, j, p - i))
  {
    assert |was[i..p]| == |now[j..q]|;
    ContextTells(was, now, hunks, i, j, p - i);
  }

  lemma {:induction false} StackedTells<T>(was: seq<T>, now: seq<T>, hunks: seq<Hunk>, k: nat, i: nat, j: nat)
    requires Valid(was, now, hunks, k, i, j)
    ensures RowsTell(was, now, hunks, StackedRows(was, now, hunks, k, i, j))
    decreases |hunks| - k
  {
    if k == |hunks| {
      assert was[i..|was|] == was[i..] && now[j..|now|] == now[j..];
      GapTells(was, now, hunks, i, j, |was|, |now|);
    } else {
      var h := hunks[k];
      var i', j' := OldAt(h) + h.oldCount, NewAt(h) + h.newCount;
      StackedTells(was, now, hunks, k + 1, i', j');
      GapTells(was, now, hunks, i, j, OldAt(h), NewAt(h));
      OldRowsTell(was, now, hunks, k, h.oldCount);
      NewRowsTell(was, now, hunks, k, h.newCount);
      assert RowsTell(was, now, hunks, HunkRows(h, k + 1));
      PartsTell(was, now, hunks, ContextRows(i, j, OldAt(h) - i), HunkRows(h, k + 1),
                StackedRows(was, now, hunks, k + 1, i', j'), StackedRows(was, now, hunks, k, i, j));
    }
  }

  /** An indexed old line is shown at its row. */
  lemma {:induction false} OldIndexedIsShown(rows: seq<Row>, n: nat)
    requires n in OldIndex(rows)
    ensures var l := OldIndex(rows)[n]; 1 <= l <= |rows| && rows[l - 1].was == Some(n)
  {
    var row := rows[|rows| - 1];
    if !(ShowsOld(row) && row.was == Some(n)) {
      OldIndexedIsShown(rows[..|rows| - 1], n);
    }
  }

  lemma {:induction false} IndexIsOldOf(rows: seq<Row>)
    requires forall r | 0 <= r < |rows| && rows[r].was.Some? :: rows[r].kind.Old? || rows[r].kind.Context?
    ensures forall n :: n in OldIndex(rows) <==> n in OldOf(rows)
  {
    if rows != [] {
      IndexIsOldOf(rows[..|rows| - 1]);
    }
  }

  /** Every row is what it shows: old, where it shows a line of the old side alone, new, where it
      shows one of the new side alone, both in a hunk; context, where it shows one line of both,
      outside. And exactly the old side's lines are indexed, each at a row that shows it. */
  lemma RenderedTells<T>(was: seq<T>, now: seq<T>, hunks: seq<Hunk>)
    requires Valid(was, now, hunks, 0, 0, 0)
    ensures var rows := Rendered(was, now, hunks);
            && RowsTell(was, now, hunks, rows)
            && (forall r | 0 <= r < |rows| ::
                  && (rows[r].kind == Old <==> rows[r].was.Some? && rows[r].now.None?)
                  && (rows[r].kind == New <==> rows[r].was.None? && rows[r].now.Some?)
                  && (rows[r].kind == Context <==> rows[r].was.Some? && rows[r].now.Some?)
                  && (rows[r].kind == Context <==> rows[r].hunk.None?))
            && (hunks != [] ==> forall n: nat :: n in OldIndex(rows) <==> 1 <= n <= |was|)
            && (forall n: nat | n in OldIndex(rows) ::
                  1 <= OldIndex(rows)[n] <= |rows| && rows[OldIndex(rows)[n] - 1].was == Some(n))
  {
    var rows := Rendered(was, now, hunks);
    StackedTells(was, now, hunks, 0, 0, 0);
    assert forall r | 0 <= r < |rows| :: RowTells(was, now, hunks, rows[r]);
    if hunks != [] {
      ShowsOldFrom(was, now, hunks, 0, 0, 0);
      IndexIsOldOf(rows);
      RunHas(|was|);
    }
    forall n: nat | n in OldIndex(rows)
      ensures 1 <= OldIndex(rows)[n] <= |rows| && rows[OldIndex(rows)[n] - 1].was == Some(n)
    {
      OldIndexedIsShown(rows, n);
    }
  }

  lemma RunHas(count: nat)
    ensures forall n: nat :: n in Run(0, count) <==> 1 <= n <= count
  {
    RunIs(0, count);
    forall n: nat
      ensures n in Run(0, count) <==> 1 <= n <= count
    {
      if 1 <= n <= count {
        assert Run(0, count)[n - 1] == n;
      }
    }
  }

  /** The row found shows new line `n`. */
  predicate RowShows(rows: seq<Row>, at: Option<nat>, n: int)
  {
    at.Some? && 1 <= at.value <= |rows| && n >= 0 && rows[at.value - 1].now == Some(n)
  }

  /** A row is found for any line of the rendered side, its own, and for the line past the end
      the last one's. */
  lemma HoldFindsLine<T>(was: seq<T>, now: seq<T>, hunks: seq<Hunk>, n: int, at: Option<nat>)
    requires Valid(was, now, hunks, 0, 0, 0) && hunks != [] && now != [] && 1 <= n <= |now| + 1
    requires var rows := Rendered(was, now, hunks); IsNearest(NewIndex(rows), |rows|, n, at)
    ensures RowShows(Rendered(was, now, hunks), at, if n <= |now| then n else |now|)
  {
    var rows := Rendered(was, now, hunks);
    StackedIndex(was, now, hunks);
    HoldFindsRow(NewIndex(rows), |rows|, |now|, n, at);
    IndexedIsShown(rows, if n <= |now| then n else |now|);
  }

  // ----- hunk rows -----

  lemma {:induction false} RowsHunks(i: nat, j: nat, count: nat, k: nat)
    ensures forall r | 0 <= r < count :: ContextRows(i, j, count)[r].hunk == None
    ensures forall r | 0 <= r < count :: OldRowsOf(i, count, k)[r].hunk == Some(k)
    ensures forall r | 0 <= r < count :: NewRowsOf(j, count, k)[r].hunk == Some(k)
  {
    if count > 0 {
      RowsHunks(i, j, count - 1, k);
    }
  }

  lemma HunkRowsHunk(h: Hunk, k: nat)
    requires OldAt(h) >= 0 && NewAt(h) >= 0
    ensures forall r | 0 <= r < h.oldCount + h.newCount :: HunkRows(h, k)[r].hunk == Some(k)
  {
    RowsHunks(OldAt(h), NewAt(h), h.oldCount, k);
    RowsHunks(OldAt(h), NewAt(h), h.newCount, k);
  }

  lemma PartAt(a: seq<Row>, b: seq<Row>, c: seq<Row>, r: nat)
    requires r < |a| + |b| + |c|
    ensures (a + b + c)[r] == if r < |a| then a[r] else if r < |a| + |b| then b[r - |a|] else c[r - |a| - |b|]
  {
  }

  /** Hunk numbers run from `k` to below `end`, each one's rows together. */
  ghost predicate Together(rows: seq<Row>, k: nat, end: nat)
  {
    && (forall r | 0 <= r < |rows| && rows[r].hunk.Some? :: k <= rows[r].hunk.value < end)
    && (forall r, s, t | 0 <= r < s < t < |rows| && rows[r].hunk.Some? && rows[r].hunk == rows[t].hunk ::
          rows[s].hunk == rows[r].hunk)
  }

  lemma TogetherParts(a: seq<Row>, b: seq<Row>, c: seq<Row>, k: nat, end: nat, rows: seq<Row>)
    requires rows == a + b + c
    requires forall r | 0 <= r < |a| :: a[r].hunk == None
    requires forall r | 0 <= r < |b| :: b[r].hunk == Some(k)
    requires Together(c, k + 1, end) && k < end
    ensures Together(rows, k, end)
  {
    forall r | 0 <= r < |rows| && rows[r].hunk.Some?
      ensures k <= rows[r].hunk.value < end
    {
      PartAt(a, b, c, r);
    }
    forall r, s, t | 0 <= r < s < t < |rows| && rows[r].hunk.Some? && rows[r].hunk == rows[t].hunk
      ensures rows[s].hunk == rows[r].hunk
    {
      PartAt(a, b, c, r);
      PartAt(a, b, c, s);
      PartAt(a, b, c, t);
    }
  }

  /** A hunk's rows are together, and no row shows a hunk that is not there. */
  lemma {:induction false} StackedTogether<T>(was: seq<T>, now: seq<T>, hunks: seq<Hunk>, k: nat, i: nat, j: nat)
    requires Valid(was, now, hunks, k, i, j)
    ensures Together(StackedRows(was, now, hunks, k, i, j), k + 1, |hunks| + 1)
    decreases |hunks| - k
  {
    if k == |hunks| {
      RowsHunks(i, j, |was| - i, k);
    } else {
      var h := hunks[k];
      var i', j' := OldAt(h) + h.oldCount, NewAt(h) + h.newCount;
      StackedTogether(was, now, hunks, k + 1, i', j');
      RowsHunks(i, j, OldAt(h) - i, k);
      HunkRowsHunk(h, k + 1);
      TogetherParts(ContextRows(i, j, OldAt(h) - i), HunkRows(h, k + 1), StackedRows(was, now, hunks, k + 1, i', j'),
                    k + 1, |hunks| + 1,
                    StackedRows(was, now, hunks, k, i, j));
    }
  }

  /** So the motions' hypotheses hold of the rendering. */
  lemma StackedContiguous<T>(was: seq<T>, now: seq<T>, hunks: seq<Hunk>)
    requires Valid(was, now, hunks, 0, 0, 0)
    ensures var rows := Rendered(was, now, hunks);
            Aligned([rows]) && Contiguous([rows]) && Nav.Merges(rows, [rows])
  {
    var rows := Rendered(was, now, hunks);
    StackedTogether(was, now, hunks, 0, 0, 0);
    OneColumn(rows);
  }

  lemma OneColumn(rows: seq<Row>)
    ensures Aligned([rows]) && Merges(rows, [rows])
    ensures forall h: nat, r: nat | r < |rows| :: Shown([rows], h, r) <==> rows[r].hunk == Some(h)
  {
    var columns := [rows];
    assert columns[0] == rows;
    forall r: nat | r < |rows|
      ensures HunkRow(columns, r) == rows[r]
    {
      assert HunkRowFrom(columns, 1, r) == rows[r];
    }
    forall h: nat, r: nat | r < |rows|
      ensures Shown(columns, h, r) <==> rows[r].hunk == Some(h)
    {
      if rows[r].hunk == Some(h) {
        assert columns[0][r].hunk == Some(h);
      }
    }
  }

  /** Every hunk that changes a line is shown. */
  lemma {:induction false} StackedShows<T>(was: seq<T>, now: seq<T>, hunks: seq<Hunk>, k: nat, i: nat, j: nat, idx: nat)
    returns (r: nat)
    requires Valid(was, now, hunks, k, i, j) && k <= idx < |hunks| && hunks[idx].oldCount + hunks[idx].newCount > 0
    ensures r < |StackedRows(was, now, hunks, k, i, j)|
    ensures StackedRows(was, now, hunks, k, i, j)[r].hunk == Some(idx + 1)
    decreases |hunks| - k
  {
    var h := hunks[k];
    var i', j' := OldAt(h) + h.oldCount, NewAt(h) + h.newCount;
    var lead := |ContextRows(i, j, OldAt(h) - i)|;
    if idx == k {
      r := lead;
      HunkRowsHunk(h, k + 1);
    } else {
      r := StackedShows(was, now, hunks, k + 1, i', j', idx);
      r := lead + |HunkRows(h, k + 1)| + r;
    }
    PartAt(ContextRows(i, j, OldAt(h) - i), HunkRows(h, k + 1), StackedRows(was, now, hunks, k + 1, i', j'), r);
  }

  // ----- the file line of a hunk's row -----

  /** The new lines `rows` show lie in a range. */
  predicate ShowsWithin(rows: seq<Row>, from: int, to: int)
  {
    forall r | 0 <= r < |rows| && rows[r].now.Some? :: from < rows[r].now.value <= to
  }

  lemma RunWithin(rows: seq<Row>, from: nat, count: nat)
    requires NewOf(rows) == Run(from, count)
    ensures ShowsWithin(rows, from, from + count)
  {
    RunIs(from, count);
    forall r | 0 <= r < |rows| && rows[r].now.Some?
      ensures from < rows[r].now.value <= from + count
    {
      NewOfHas(rows, r);
    }
  }

  lemma {:induction false} NewRowsAt(j: nat, count: nat, k: nat)
    ensures forall r | 0 <= r < count :: NewRowsOf(j, count, k)[r].now == Some(j + r + 1)
  {
    if count > 0 {
      NewRowsAt(j, count - 1, k);
    }
  }

  lemma {:induction false} OldRowsAt(i: nat, count: nat, k: nat)
    ensures forall r | 0 <= r < count :: OldRowsOf(i, count, k)[r].now == None
  {
    if count > 0 {
      OldRowsAt(i, count - 1, k);
    }
  }

  /** A hunk's rows show its new lines, on the last of them. */
  lemma BlockShows(h: Hunk, k: nat)
    requires OldAt(h) >= 0 && NewAt(h) >= 0
    ensures ShowsWithin(HunkRows(h, k), NewAt(h), NewAt(h) + h.newCount)
    ensures forall t, r | 0 <= t < r < |HunkRows(h, k)| && HunkRows(h, k)[t].now.Some? :: HunkRows(h, k)[r].now.Some?
  {
    OldRowsAt(OldAt(h), h.oldCount, k);
    NewRowsAt(NewAt(h), h.newCount, k);
  }

  /** Hunk `idx`'s rows show new lines past `p` up to `q`, on the last of them; the rows before
      them lines up to `p`, and the rows after them lines past `q`. */
  predicate Bounds(rows: seq<Row>, idx: nat, p: int, q: int)
  {
    && (forall r | 0 <= r < |rows| && rows[r].hunk == Some(idx) && rows[r].now.Some? :: p < rows[r].now.value <= q)
    && (forall t, r | 0 <= t < r < |rows| && rows[t].now.Some? && rows[r].hunk == Some(idx) ::
          if rows[t].hunk == Some(idx) then rows[r].now.Some? else rows[t].now.value <= p)
    && (forall r, t | 0 <= r < t < |rows| && rows[t].now.Some? && rows[r].hunk == Some(idx) ::
          rows[t].hunk == Some(idx) || rows[t].now.value > q)
  }

  lemma BoundsHere(a: seq<Row>, b: seq<Row>, c: seq<Row>, idx: nat, p: nat, q: nat, end: nat, rows: seq<Row>)
    requires rows == a + b + c && ShowsWithin(a, 0, p) && ShowsWithin(b, p, q) && ShowsWithin(c, q, end)
    requires forall r | 0 <= r < |a| :: a[r].hunk == None
    requires forall r | 0 <= r < |b| :: b[r].hunk == Some(idx)
    requires forall t, r | 0 <= t < r < |b| && b[t].now.Some? :: b[r].now.Some?
    requires forall r | 0 <= r < |c| :: c[r].hunk != Some(idx)
    ensures Bounds(rows, idx, p, q)
  {
    forall r | 0 <= r < |rows|
      ensures rows[r] == if r < |a| then a[r] else if r < |a| + |b| then b[r - |a|] else c[r - |a| - |b|]
    {
      PartAt(a, b, c, r);
    }
  }

  lemma BoundsLater(a: seq<Row>, b: seq<Row>, c: seq<Row>, idx: nat, p: nat, q: nat, rows: seq<Row>)
    requires rows == a + b + c && ShowsWithin(a, 0, p) && ShowsWithin(b, 0, p) && Bounds(c, idx, p, q)
    requires forall r | 0 <= r < |a| :: a[r].hunk != Some(idx)
    requires forall r | 0 <= r < |b| :: b[r].hunk != Some(idx)
    ensures Bounds(rows, idx, p, q)
  {
    forall r | 0 <= r < |rows|
      ensures rows[r] == if r < |a| then a[r] else if r < |a| + |b| then b[r - |a|] else c[r - |a| - |b|]
    {
      PartAt(a, b, c, r);
    }
  }

  lemma BoundsTurn(h: Hunk, i: nat, j: nat, gap: nat, k: nat, rest: seq<Row>, end: nat, rows: seq<Row>)
    requires i + gap == OldAt(h) && j + gap == NewAt(h) && rows == ContextRows(i, j, gap) + HunkRows(h, k) + rest
    requires ShowsWithin(rest, NewAt(h) + h.newCount, end) && forall r | 0 <= r < |rest| :: rest[r].hunk != Some(k)
    ensures Bounds(rows, k, NewAt(h), NewAt(h) + h.newCount)
  {
    RowsHunks(i, j, gap, k);
    HunkRowsHunk(h, k);
    ContextWithin(i, j, gap);
    BlockShows(h, k);
    BoundsHere(ContextRows(i, j, gap), HunkRows(h, k), rest, k, NewAt(h), NewAt(h) + h.newCount, end, rows);
  }

  lemma BoundsPast(h: Hunk, i: nat, j: nat, gap: nat, k: nat, rest: seq<Row>, idx: nat, p: nat, q: nat,
                   rows: seq<Row>)
    requires i + gap == OldAt(h) && j + gap == NewAt(h) && NewAt(h) + h.newCount <= p && k != idx
    requires rows == ContextRows(i, j, gap) + HunkRows(h, k) + rest
    requires Bounds(rest, idx, p, q)
    ensures Bounds(rows, idx, p, q)
  {
    RowsHunks(i, j, gap, k);
    HunkRowsHunk(h, k);
    ContextWithin(i, j, gap);
    BlockShows(h, k);
    BoundsLater(ContextRows(i, j, gap), HunkRows(h, k), rest, idx, p, q, rows);
  }

  lemma RestShows<T>(was: seq<T>, now: seq<T>, hunks: seq<Hunk>, k: nat, i: nat, j: nat)
    requires Valid(was, now, hunks, k, i, j)
    ensures ShowsWithin(StackedRows(was, now, hunks, k, i, j), j, |now|)
    ensures forall r | 0 <= r < |StackedRows(was, now, hunks, k, i, j)| ::
              StackedRows(was, now, hunks, k, i, j)[r].hunk != Some(k)
  {
    ShowsNewFrom(was, now, hunks, k, i, j);
    RunWithin(StackedRows(was, now, hunks, k, i, j), j, |now| - j);
    StackedTogether(was, now, hunks, k, i, j);
  }

  lemma BoundsFirst<T>(was: seq<T>, now: seq<T>, hunks: seq<Hunk>, k: nat, i: nat, j: nat)
    requires Valid(was, now, hunks, k, i, j) && k < |hunks|
    ensures j <= NewAt(hunks[k]) && NewAt(hunks[k]) + hunks[k].newCount <= |now|
    ensures Bounds(StackedRows(was, now, hunks, k, i, j), k + 1, NewAt(hunks[k]), NewAt(hunks[k]) + hunks[k].newCount)
  {
    var h := hunks[k];
    var i', j' := OldAt(h) + h.oldCount, NewAt(h) + h.newCount;
    GapsEqual(was, now, hunks, k, i, j);
    RestShows(was, now, hunks, k + 1, i', j');
    BoundsTurn(h, i, j, OldAt(h) - i, k + 1, StackedRows(was, now, hunks, k + 1, i', j'), |now|,
               StackedRows(was, now, hunks, k, i, j));
  }

  lemma BoundsNext<T>(was: seq<T>, now: seq<T>, hunks: seq<Hunk>, k: nat, i: nat, j: nat, i': nat, j': nat,
                      idx: nat, p: nat, q: nat)
    requires Valid(was, now, hunks, k, i, j) && k < |hunks|
    requires i' == OldAt(hunks[k]) + hunks[k].oldCount && j' == NewAt(hunks[k]) + hunks[k].newCount <= p && k + 1 != idx
    requires Valid(was, now, hunks, k + 1, i', j') && Bounds(StackedRows(was, now, hunks, k + 1, i', j'), idx, p, q)
    ensures Bounds(StackedRows(was, now, hunks, k, i, j), idx, p, q)
  {
    GapsEqual(was, now, hunks, k, i, j);
    BoundsPast(hunks[k], i, j, OldAt(hunks[k]) - i, k + 1, StackedRows(was, now, hunks, k + 1, i', j'), idx, p, q,
               StackedRows(was, now, hunks, k, i, j));
  }

  lemma {:induction false} StackedBounds<T>(was: seq<T>, now: seq<T>, hunks: seq<Hunk>, k: nat, i: nat, j: nat,
                                            idx: nat)
    requires Valid(was, now, hunks, k, i, j) && k <= idx < |hunks|
    ensures j <= NewAt(hunks[idx]) && NewAt(hunks[idx]) + hunks[idx].newCount <= |now|
    ensures Bounds(StackedRows(was, now, hunks, k, i, j), idx + 1,
                   NewAt(hunks[idx]), NewAt(hunks[idx]) + hunks[idx].newCount)
    decreases |hunks| - k
  {
    if idx == k {
      BoundsFirst(was, now, hunks, k, i, j);
    } else {
      var i', j' := OldAt(hunks[k]) + hunks[k].oldCount, NewAt(hunks[k]) + hunks[k].newCount;
      StackedBounds(was, now, hunks, k + 1, i', j', idx);
      BoundsNext(was, now, hunks, k, i, j, i', j', idx + 1, NewAt(hunks[idx]), NewAt(hunks[idx]) + hunks[idx].newCount);
    }
  }

  lemma ContextWithin(i: nat, j: nat, count: nat)
    ensures ShowsWithin(ContextRows(i, j, count), 0, j + count)
  {
    RowsNumbers(i, j, count, 0);
    RunWithin(ContextRows(i, j, count), j, count);
  }

  /** What the rows of one diff tell of a file line: each line is shown, in order. */
  ghost predicate ShowsLines(rows: seq<Row>, count: nat)
  {
    && NewAscends(rows)
    && (forall n: nat | 1 <= n <= count :: exists k: nat :: k < |rows| && rows[k].now == Some(n))
    && (forall k | 0 <= k < |rows| && rows[k].now.Some? :: 1 <= rows[k].now.value <= count)
  }

  lemma RenderedShowsLines<T>(was: seq<T>, now: seq<T>, hunks: seq<Hunk>)
    requires Valid(was, now, hunks, 0, 0, 0) && hunks != []
    ensures ShowsLines(Rendered(was, now, hunks), |now|)
  {
    var rows := Rendered(was, now, hunks);
    StackedIndex(was, now, hunks);
    ShowsNewFrom(was, now, hunks, 0, 0, 0);
    RunWithin(rows, 0, |now|);
    forall n: nat | 1 <= n <= |now|
      ensures exists k: nat :: k < |rows| && rows[k].now == Some(n)
    {
      IndexedIsShown(rows, n);
      assert NewIndex(rows)[n] - 1 >= 0 && rows[NewIndex(rows)[n] - 1].now == Some(n);
    }
  }

  /** Row `k` is the one a search from row `r` finds. */
  predicate Found(rows: seq<Row>, r: nat, k: nat)
  {
    && k < |rows| && rows[k].now.Some?
    && if k >= r then forall q | r <= q < k :: rows[q].now.None? else forall q | k < q < |rows| :: rows[q].now.None?
  }

  /** What the bounds say of a hunk's row `r` and a row `t` that shows a new line. */
  predicate Sided(rows: seq<Row>, idx: nat, p: int, q: int, r: nat, t: nat)
  {
    && r < |rows| && t < |rows| && rows[r].hunk == Some(idx) && rows[t].now.Some?
    && (rows[t].hunk == Some(idx) ==> p < rows[t].now.value <= q && (t < r ==> rows[r].now.Some?))
    && (rows[t].hunk != Some(idx) && t < r ==> rows[t].now.value <= p)
    && (rows[t].hunk != Some(idx) && t > r ==> rows[t].now.value > q)
  }

  lemma BoundsSide(rows: seq<Row>, idx: nat, p: int, q: int, r: nat, t: nat)
    requires Bounds(rows, idx, p, q) && r < |rows| && t < |rows| && rows[r].hunk == Some(idx) && rows[t].now.Some?
    ensures Sided(rows, idx, p, q, r, t)
  {
  }

  /** Two rows stand as the lines they show. */
  predicate InOrder(rows: seq<Row>, k: nat, t: nat)
  {
    && k < |rows| && t < |rows| && rows[k].now.Some? && rows[t].now.Some?
    && (k < t ==> rows[k].now.value < rows[t].now.value) && (t < k ==> rows[t].now.value < rows[k].now.value)
  }

  lemma LineInBlock(rows: seq<Row>, idx: nat, p: nat, q: nat, r: nat, k: nat, last: nat)
    requires Sided(rows, idx, p, q, r, k) && Sided(rows, idx, p, q, r, last) && InOrder(rows, k, last)
    requires rows[last].now == Some(q) && p < q && Found(rows, r, k)
    ensures p < rows[k].now.value <= q
  {
  }

  lemma LineByBlock(rows: seq<Row>, idx: nat, p: nat, count: nat, r: nat, k: nat, next: nat)
    requires Sided(rows, idx, p, p, r, k) && Sided(rows, idx, p, p, r, next) && InOrder(rows, k, next)
    requires rows[next].now == Some(if p < count then p + 1 else p) && rows[k].now.value <= count && Found(rows, r, k)
    ensures rows[k].now == rows[next].now
  {
  }

  lemma LineShown(rows: seq<Row>, count: nat, m: nat, k: nat) returns (t: nat)
    requires ShowsLines(rows, count) && 1 <= m <= count && k < |rows| && rows[k].now.Some?
    ensures t < |rows| && rows[t].now == Some(m) && InOrder(rows, k, t)
  {
    t :| t < |rows| && rows[t].now == Some(m);
  }

  lemma BlockLine(rows: seq<Row>, count: nat, h: Hunk, idx: nat, r: nat, n: nat)
    requires NewAt(h) >= 0 && NewAt(h) + h.newCount <= count && ShowsLines(rows, count)
    requires Bounds(rows, idx, NewAt(h), NewAt(h) + h.newCount)
    requires r < |rows| && rows[r].hunk == Some(idx) && IsFileLine(rows, r + 1, Some(n))
    ensures 1 <= n <= count && HunkLine(h, count, n)
  {
    var k: nat :| k < |rows| && rows[k].now == Some(n) && Found(rows, r, k);
    var p, q := NewAt(h), NewAt(h) + h.newCount;
    var m := if h.newCount > 0 then q else if p < count then p + 1 else p;
    var t := LineShown(rows, count, m, k);
    BoundsSide(rows, idx, p, q, r, k);
    BoundsSide(rows, idx, p, q, r, t);
    if h.newCount > 0 {
      LineInBlock(rows, idx, p, q, r, k, t);
    } else {
      LineByBlock(rows, idx, p, count, r, k, t);
    }
  }

  lemma RenderedBounds<T>(was: seq<T>, now: seq<T>, hunks: seq<Hunk>, idx: nat, rows: seq<Row>)
    requires Valid(was, now, hunks, 0, 0, 0) && idx < |hunks| && rows == Rendered(was, now, hunks)
    ensures HunkFits(was, now, hunks[idx])
    ensures Bounds(rows, idx + 1, NewAt(hunks[idx]), NewAt(hunks[idx]) + hunks[idx].newCount)
  {
    HunkInRange(was, now, hunks, 0, 0, 0, idx);
    StackedBounds(was, now, hunks, 0, 0, 0, idx);
  }

  /** Row `r` of the rendering is the `idx`th hunk's, and line `n` its file line. */
  ghost predicate FromRow<T>(was: seq<T>, now: seq<T>, hunks: seq<Hunk>, idx: nat, r: nat, n: nat)
    requires Valid(was, now, hunks, 0, 0, 0)
  {
    var rows := Rendered(was, now, hunks);
    r < |rows| && rows[r].hunk == Some(idx + 1) && IsFileLine(rows, r + 1, Some(n))
  }

  /** From any row of a hunk, the file line is the hunk's own. */
  lemma HunkRowLine<T>(was: seq<T>, now: seq<T>, hunks: seq<Hunk>, idx: nat, r: nat, n: nat)
    requires Valid(was, now, hunks, 0, 0, 0) && idx < |hunks| && FromRow(was, now, hunks, idx, r, n)
    ensures 1 <= n <= |now| && HunkLine(hunks[idx], |now|, n)
  {
    var rows := Rendered(was, now, hunks);
    assert HunkFits(was, now, hunks[idx]) by { RenderedBounds(was, now, hunks, idx, rows); }
    assert ShowsLines(rows, |now|) by { RenderedShowsLines(was, now, hunks); }
    assert Bounds(rows, idx + 1, NewAt(hunks[idx]), NewAt(hunks[idx]) + hunks[idx].newCount) by {
      RenderedBounds(was, now, hunks, idx, rows);
    }
    BlockLine(rows, |now|, hunks[idx], idx + 1, r, n);
  }

  // ----- the cursor through a revert -----

  /** The row a rebuilt view is left on for focus `f`: the row showing line `f`, or the last line if
      there are not so many, or none where no line is left. */
  predicate Lands(rows: seq<Row>, count: nat, f: int, at: Option<nat>)
  {
    if count == 0 then at.None? else RowShows(rows, at, if f <= count then f else count)
  }

  lemma HoldLands<T>(was: seq<T>, now: seq<T>, hunks: seq<Hunk>, f: int, at: Option<nat>)
    requires Valid(was, now, hunks, 0, 0, 0) && hunks != [] && 1 <= f <= |now| + 1
    requires var rows := Rendered(was, now, hunks); IsNearest(NewIndex(rows), |rows|, f, at)
    ensures Lands(Rendered(was, now, hunks), |now|, f, at)
  {
    if now == [] {
      StackedIndex(was, now, hunks);
    } else {
      HoldFindsLine(was, now, hunks, f, at);
    }
  }

  /** Reverting a hunk and rendering the rebuilt diff leaves a cursor that was outside the hunk
      on a row showing the same line, and one inside on the row where the restored lines, and
      then the lines after the hunk, start. */
  lemma RevertKeepsCursor(oldText: string, newText: string, hunks: seq<Hunk>, idx: nat, n: int,
                          lines: seq<string>, rebuilt: seq<Hunk>, at: Option<nat>)
    requires DiffsTexts(oldText, newText, hunks) && Apart(hunks)
    requires idx < |hunks| && 1 <= n <= |ToLines(newText)|
    requires lines == ToLines(SplicedText(oldText, newText, hunks, AllBut(|hunks|, idx), true))
    requires Valid(ToLines(oldText), lines, rebuilt, 0, 0, 0) && rebuilt != []
    requires var rows := Rendered(ToLines(oldText), lines, rebuilt);
             IsNearest(NewIndex(rows), |rows|, RevertedFocus(hunks[idx], n), at)
    ensures HunkFits(ToLines(oldText), ToLines(newText), hunks[idx])
    ensures var f := RevertedFocus(hunks[idx], n);
            && 1 <= f <= |lines| + 1 && Lands(Rendered(ToLines(oldText), lines, rebuilt), |lines|, f, at)
            && (if Inside(hunks[idx], n) then Restored(ToLines(oldText), ToLines(newText), hunks[idx], lines, f)
                else f <= |lines| && lines[f - 1] == ToLines(newText)[n - 1])
  {
    RevertHunkKeepsLine(oldText, newText, hunks, idx, n);
    HoldLands(ToLines(oldText), lines, rebuilt, RevertedFocus(hunks[idx], n), at);
  }

  lemma RevertFromLine(oldText: string, newText: string, hunks: seq<Hunk>, idx: nat, n: nat,
                       lines: seq<string>, rebuilt: seq<Hunk>, at: Option<nat>)
    requires DiffsTexts(oldText, newText, hunks) && Apart(hunks) && idx < |hunks|
    requires 1 <= n <= |ToLines(newText)| && HunkLine(hunks[idx], |ToLines(newText)|, n)
    requires lines == ToLines(SplicedText(oldText, newText, hunks, AllBut(|hunks|, idx), true))
    requires Valid(ToLines(oldText), lines, rebuilt, 0, 0, 0) && rebuilt != []
    requires var rows := Rendered(ToLines(oldText), lines, rebuilt);
             IsNearest(NewIndex(rows), |rows|, RevertedFocus(hunks[idx], n), at)
    ensures HunkFits(ToLines(oldText), ToLines(newText), hunks[idx])
    ensures Lands(Rendered(ToLines(oldText), lines, rebuilt), |lines|, HunkLanding(hunks[idx], |ToLines(newText)|), at)
    ensures Settled(ToLines(oldText), ToLines(newText), hunks[idx], lines)
  {
    var was, now := ToLines(oldText), ToLines(newText);
    RebuiltIsReverted(oldText, newText, hunks, idx);
    assert RevertedFocus(hunks[idx], n) == HunkLanding(hunks[idx], |now|) && Settled(was, now, hunks[idx], lines) by {
      RevertHunkKeepsLine(oldText, newText, hunks, idx, n);
      LandingSettles(was, now, hunks[idx], lines, n);
    }
    assert Lands(Rendered(was, lines, rebuilt), |lines|, RevertedFocus(hunks[idx], n), at) by {
      RevertKeepsCursor(oldText, newText, hunks, idx, n, lines, rebuilt, at);
    }
  }

  /** The key's own case, from a row of the hunk it reverts: with new lines to lose, the cursor
      lands where the restored lines start; a hunk of old lines only leaves it on the line that
      stood next to the hunk, after it or, at the end of the file, before it. */
  lemma RevertFromItsRow(oldText: string, newText: string, hunks: seq<Hunk>, idx: nat, r: nat, n: nat,
                         lines: seq<string>, rebuilt: seq<Hunk>, at: Option<nat>)
    requires DiffsTexts(oldText, newText, hunks) && Apart(hunks) && idx < |hunks|
    requires FromRow(ToLines(oldText), ToLines(newText), hunks, idx, r, n)
    requires lines == ToLines(SplicedText(oldText, newText, hunks, AllBut(|hunks|, idx), true))
    requires Valid(ToLines(oldText), lines, rebuilt, 0, 0, 0) && rebuilt != []
    requires var rows := Rendered(ToLines(oldText), lines, rebuilt);
             IsNearest(NewIndex(rows), |rows|, RevertedFocus(hunks[idx], n), at)
    ensures HunkFits(ToLines(oldText), ToLines(newText), hunks[idx])
    ensures Lands(Rendered(ToLines(oldText), lines, rebuilt), |lines|, HunkLanding(hunks[idx], |ToLines(newText)|), at)
    ensures Settled(ToLines(oldText), ToLines(newText), hunks[idx], lines)
  {
    HunkRowLine(ToLines(oldText), ToLines(newText), hunks, idx, r, n);
    RevertFromLine(oldText, newText, hunks, idx, n, lines, rebuilt, at);
  }

  /** Reverting lines: `hunks` is what the revert took from the file, `rebuilt` the diff then
      shown, with the reverted text as its new side. A cursor outside every hunk taken stays on
      a row showing the same line; one inside lands on the row of the line its focus names, or
      of the last line. */
  lemma RevertLinesKeepsCursor<T>(base: seq<T>, reverted: seq<T>, work: seq<T>, hunks: seq<Hunk>, rebuilt: seq<Hunk>,
                                  n: int, at: Option<nat>)
    requires Valid(reverted, work, hunks, 0, 0, 0) && 1 <= n <= |work|
    requires Valid(base, reverted, rebuilt, 0, 0, 0) && rebuilt != []
    requires var rows := Rendered(base, reverted, rebuilt); IsNearest(NewIndex(rows), |rows|, Folded(hunks, 0, n), at)
    ensures var rows, f := Rendered(base, reverted, rebuilt), Folded(hunks, 0, n);
            && (!InsideSome(hunks, 0, n) ==>
                  RowShows(rows, at, f) && 1 <= f <= |reverted| && reverted[f - 1] == work[n - 1])
            && Lands(rows, |reverted|, f, at)
  {
    FoldKeepsLine(reverted, work, hunks, 0, 0, 0, n);
    HoldLands(base, reverted, rebuilt, Folded(hunks, 0, n), at);
  }
}
