/** What staging, unstaging and reverting selected rows must write: the judgement by
    placement and the judgement by counting lines. */
module Staging {
  import opened Wrappers
  import opened Text
  import opened Diff
  import opened Placed
  import opened Counts

  /** Old and new line numbers: the staged rows, or a selection of rows. */
  datatype Picks = Picks(olds: set<nat>, news: set<nat>)

  datatype Op = Stage | Unstage | Revert

  // ----- by placement -----

  function Staged(marks: set<nat>, picked: set<nat>, take: Option<bool>, l: nat): bool
  {
    if take.Some? && l in picked then take.value else l in marks
  }

  /** The old lines the index holds: those not staged away. */
  function IndexOlds(marks: Picks, sel: Picks, take: Option<bool>): Held
  {
    (l: nat) => !Staged(marks.olds, sel.olds, take, l)
  }

  function IndexNews(marks: Picks, sel: Picks, take: Option<bool>): Held
  {
    (l: nat) => Staged(marks.news, sel.news, take, l)
  }

  /** The old lines the file holds once the selection is reverted. */
  function WorkOlds(sel: Picks): Held
  {
    (l: nat) => l in sel.olds
  }

  function WorkNews(sel: Picks): Held
  {
    (l: nat) => l !in sel.news
  }

  ghost predicate IndexReads(head: string, work: string, hunks: seq<Hunk>, marks: Picks, sel: Picks, take: Option<bool>,
                             index: string)
    requires Valid(EndedLines(head), EndedLines(work), hunks, 0, 0, 0)
  {
    Reads(EndedLines(head), EndedLines(work), hunks, 0, 0, 0,
          IndexOlds(marks, sel, take), IndexNews(marks, sel, take), EndedLines(index), 0)
  }

  ghost predicate WorkReads(head: string, work: string, hunks: seq<Hunk>, sel: Picks, written: string)
    requires Valid(EndedLines(head), EndedLines(work), hunks, 0, 0, 0)
  {
    Reads(EndedLines(head), EndedLines(work), hunks, 0, 0, 0, WorkOlds(sel), WorkNews(sel), EndedLines(written), 0)
  }

  /** No judgement where the index before did not read as the rows; otherwise whether the
      written index reads as them, and the written file where there is one. */
  method PlacedOp(head: string, before: string, work: string, hunks: seq<Hunk>, marks: Picks, sel: Picks, take: bool,
                  index: string, written: Option<string>) returns (placed: Option<bool>)
    requires Valid(EndedLines(head), EndedLines(work), hunks, 0, 0, 0)
    ensures placed.Some? <==> IndexReads(head, work, hunks, marks, sel, None, before)
    ensures placed.Some? ==>
              (placed.value <==>
               && IndexReads(head, work, hunks, marks, sel, Some(take), index)
               && (written.Some? ==> WorkReads(head, work, hunks, sel, written.value)))
  {
    var ok := IsPlaced(head, work, hunks, before, IndexOlds(marks, sel, None), IndexNews(marks, sel, None));
    if !ok {
      return None;
    }
    ok := IsPlaced(head, work, hunks, index, IndexOlds(marks, sel, Some(take)), IndexNews(marks, sel, Some(take)));
    if !ok {
      return Some(false);
    }
    if written.None? {
      return Some(true);
    }
    ok := IsPlaced(head, work, hunks, written.value, WorkOlds(sel), WorkNews(sel));
    return Some(ok);
  }

  // ----- by counting -----

  /** Lines that are `x` whatever their ending. */
  function BareIs(x: string): Test<string>
  {
    (line: string) => Bare(line) == x
  }

  /** A last line counts as the same line whether or not a newline ends it. */
  lemma EndingIgnored(line: string, x: string)
    requires !Unended(line)
    ensures (BareIs(x)(line) <==> line == x) && (BareIs(x)(line + [NO_EOL]) <==> line == x)
  {
    BareMarked(line);
  }

  function CountIn(count: map<string, nat>, x: string): nat
  {
    if x in count then count[x] else 0
  }

  ghost predicate Tallies(count: map<string, nat>, lines: seq<string>)
  {
    forall x :: CountIn(count, x) == Copies(lines, BareIs(x))
  }

  lemma TalliesSnoc(count: map<string, nat>, lines: seq<string>, line: string)
    requires Tallies(count, lines)
    ensures Tallies(count[Bare(line) := CountIn(count, Bare(line)) + 1], lines + [line])
  {
    forall x
      ensures CountIn(count[Bare(line) := CountIn(count, Bare(line)) + 1], x) == Copies(lines + [line], BareIs(x))
    {
      CopiesSnoc(lines, line, BareIs(x));
      assert CountIn(count, x) == Copies(lines, BareIs(x));
    }
  }

  /** Each bare line's count in a text. */
  method LineCounts(text: string) returns (count: map<string, nat>)
    ensures Tallies(count, EndedLines(text))
  {
    var lines := EndedLines(text);
    count := map[];
    NothingTallied();
    for i := 0 to |lines|
      invariant Tallies(count, lines[..i])
    {
      TalliesSnoc(count, lines[..i], lines[i]);
      assert lines[..i + 1] == lines[..i] + [lines[i]];
      count := count[Bare(lines[i]) := CountIn(count, Bare(lines[i])) + 1];
    }
    assert lines[..|lines|] == lines;
  }

  function Min(x: int, y: int): int { if x < y then x else y }
  function Max(x: int, y: int): int { if x > y then x else y }

  /** `n` is where `o` was, or within the allowance around `aim`. */
  predicate InBand(aim: nat, o: nat, n: nat, below: nat, above: nat)
  {
    Min(o, aim - below) <= n <= Max(o, aim + above)
  }

  ghost predicate LineInBand(towards: seq<string>, from: seq<string>, to: seq<string>, below: map<string, nat>,
                             above: map<string, nat>, x: string)
  {
    InBand(Copies(towards, BareIs(x)), Copies(from, BareIs(x)), Copies(to, BareIs(x)), CountIn(below, x),
           CountIn(above, x))
  }

  ghost predicate LinesInBand(towards: seq<string>, from: seq<string>, to: seq<string>, below: map<string, nat>,
                              above: map<string, nat>)
  {
    forall x :: LineInBand(towards, from, to, below, above, x)
  }

  lemma CountedInBand(target: map<string, nat>, before: map<string, nat>, got: map<string, nat>,
                      towards: seq<string>, from: seq<string>, to: seq<string>,
                      below: map<string, nat>, above: map<string, nat>, x: string)
    requires Tallies(target, towards) && Tallies(before, from) && Tallies(got, to)
    ensures LineInBand(towards, from, to, below, above, x) <==>
            InBand(CountIn(target, x), CountIn(before, x), CountIn(got, x), CountIn(below, x), CountIn(above, x))
    ensures x !in target && x !in before && x !in got ==> LineInBand(towards, from, to, below, above, x)
  {
    assert CountIn(target, x) == Copies(towards, BareIs(x));
    assert CountIn(before, x) == Copies(from, BareIs(x));
    assert CountIn(got, x) == Copies(to, BareIs(x));
  }

  /** The counts of every line any of the texts holds are in band. */
  method Within(towards: string, from: string, to: string, below: map<string, nat>, above: map<string, nat>)
    returns (ok: bool)
    ensures ok <==> LinesInBand(EndedLines(towards), EndedLines(from), EndedLines(to), below, above)
  {
    var target := LineCounts(towards);
    var before := LineCounts(from);
    var got := LineCounts(to);
    ghost var aims, were, are := EndedLines(towards), EndedLines(from), EndedLines(to);
    var left := target.Keys + before.Keys + got.Keys;
    while left != {}
      invariant forall x :: x in target || x in before || x in got ==>
                  x in left || LineInBand(aims, were, are, below, above, x)
      decreases left
    {
      var x :| x in left;
      CountedInBand(target, before, got, aims, were, are, below, above, x);
      if !InBand(CountIn(target, x), CountIn(before, x), CountIn(got, x), CountIn(below, x), CountIn(above, x)) {
        return false;
      }
      left := left - {x};
    }
    forall x
      ensures LineInBand(aims, were, are, below, above, x)
    {
      CountedInBand(target, before, got, aims, were, are, below, above, x);
    }
    return true;
  }

  /** The rows a selection leaves out, on each side. */
  function LeftOld(sel: Picks): Held
  {
    (l: nat) => l !in sel.olds
  }

  function LeftNew(sel: Picks): Held
  {
    (l: nat) => l !in sel.news
  }

  /** Counts a hunk's rows on one side that the selection leaves out. */
  method AddLeft(count: map<string, nat>, ghost lines: seq<string>, side: seq<string>, at: nat, size: nat, left: Held)
    returns (sum: map<string, nat>)
    requires at + size <= |side| && Tallies(count, lines)
    ensures Tallies(sum, lines + Kept(side, at, size, left))
  {
    sum := count;
    ghost var seen := lines;
    assert seen == lines + Kept(side, at, 0, left);
    for k := 0 to size
      invariant seen == lines + Kept(side, at, k, left)
      invariant Tallies(sum, seen)
    {
      if left(at + k + 1) {
        var line := side[at + k];
        TalliesSnoc(sum, seen, line);
        sum := sum[Bare(line) := CountIn(sum, Bare(line)) + 1];
        seen := seen + [line];
      }
    }
  }

  lemma RowsNext(was: seq<string>, now: seq<string>, hunks: seq<Hunk>, k: nat, i: nat, j: nat, sel: Picks,
                 seenOld: seq<string>, seenNew: seq<string>)
    requires Valid(was, now, hunks, k, i, j) && k < |hunks|
    ensures var h := hunks[k];
            var i', j' := OldAt(h) + h.oldCount, NewAt(h) + h.newCount;
            && seenOld + OldRows(was, now, hunks, k, i, j, LeftOld(sel))
               == seenOld + KeptOld(was, h, LeftOld(sel)) + OldRows(was, now, hunks, k + 1, i', j', LeftOld(sel))
            && seenNew + NewRows(was, now, hunks, k, i, j, LeftNew(sel))
               == seenNew + KeptNew(now, h, LeftNew(sel)) + NewRows(was, now, hunks, k + 1, i', j', LeftNew(sel))
  {
  }

  /** Each line's count among the rows left out, old and new. */
  method LeftOut(was: seq<string>, now: seq<string>, hunks: seq<Hunk>, sel: Picks)
    returns (olds: map<string, nat>, news: map<string, nat>)
    requires Valid(was, now, hunks, 0, 0, 0)
    ensures Tallies(olds, OldRows(was, now, hunks, 0, 0, 0, LeftOld(sel)))
    ensures Tallies(news, NewRows(was, now, hunks, 0, 0, 0, LeftNew(sel)))
  {
    olds, news := map[], map[];
    ghost var i: nat, j: nat := 0, 0;
    ghost var seenOld, seenNew: seq<string> := [], [];
    ghost var allOld, allNew := OldRows(was, now, hunks, 0, 0, 0, LeftOld(sel)), NewRows(was, now, hunks, 0, 0, 0,
        LeftNew(sel));
    NothingTallied();
    assert [] + allOld == allOld && [] + allNew == allNew;
    for k := 0 to |hunks|
      invariant Valid(was, now, hunks, k, i, j)
      invariant Tallies(olds, seenOld) && Tallies(news, seenNew)
      invariant allOld == seenOld + OldRows(was, now, hunks, k, i, j, LeftOld(sel))
      invariant allNew == seenNew + NewRows(was, now, hunks, k, i, j, LeftNew(sel))
    {
      var h := hunks[k];
      RowsNext(was, now, hunks, k, i, j, sel, seenOld, seenNew);
      olds := AddLeft(olds, seenOld, was, OldAt(h), h.oldCount, LeftOld(sel));
      news := AddLeft(news, seenNew, now, NewAt(h), h.newCount, LeftNew(sel));
      seenOld, seenNew := seenOld + KeptOld(was, h, LeftOld(sel)), seenNew + KeptNew(now, h, LeftNew(sel));
      i, j := OldAt(h) + h.oldCount, NewAt(h) + h.newCount;
    }
    assert seenOld == allOld && seenNew == allNew;
  }

  lemma NothingTallied()
    ensures Tallies(map[], [])
  {
    forall x
      ensures Copies([], BareIs(x)) == 0
    {
      CopiesNone(BareIs(x));
    }
  }

  /** Every line's count in `to` is where `from` had it, or where `towards` has it but for
      the rows of that line a selection leaves out. */
  ghost predicate KeepsCounts(head: string, work: string, hunks: seq<Hunk>, sel: Picks, forward: bool, from: string,
                              to: string)
    requires Valid(EndedLines(head), EndedLines(work), hunks, 0, 0, 0)
  {
    forall x :: KeepsCount(EndedLines(head), EndedLines(work), hunks, sel, forward, EndedLines(from), EndedLines(to), x)
  }

  ghost predicate KeepsCount(was: seq<string>, now: seq<string>, hunks: seq<Hunk>, sel: Picks, forward: bool,
                             from: seq<string>, to: seq<string>, x: string)
    requires Valid(was, now, hunks, 0, 0, 0)
  {
    var olds, news := InOld(was, now, hunks, LeftOld(sel), BareIs(x)), InNew(was, now, hunks, LeftNew(sel), BareIs(x));
    var o, n := Copies(from, BareIs(x)), Copies(to, BareIs(x));
    if forward then InBand(Copies(now, BareIs(x)), o, n, news, olds)
    else InBand(Copies(was, BareIs(x)), o, n, olds, news)
  }

  lemma BandKeepsCounts(head: string, work: string, hunks: seq<Hunk>, sel: Picks, from: string, to: string,
                        olds: map<string, nat>, news: map<string, nat>)
    requires Valid(EndedLines(head), EndedLines(work), hunks, 0, 0, 0)
    requires Tallies(olds, OldRows(EndedLines(head), EndedLines(work), hunks, 0, 0, 0, LeftOld(sel)))
    requires Tallies(news, NewRows(EndedLines(head), EndedLines(work), hunks, 0, 0, 0, LeftNew(sel)))
    ensures KeepsCounts(head, work, hunks, sel, true, from, to) <==>
            LinesInBand(EndedLines(work), EndedLines(from), EndedLines(to), news, olds)
    ensures KeepsCounts(head, work, hunks, sel, false, from, to) <==>
            LinesInBand(EndedLines(head), EndedLines(from), EndedLines(to), olds, news)
  {
    var was, now, o, n := EndedLines(head), EndedLines(work), EndedLines(from), EndedLines(to);
    forall x
      ensures KeepsCount(was, now, hunks, sel, true, o, n, x) <==> LineInBand(now, o, n, news, olds, x)
      ensures KeepsCount(was, now, hunks, sel, false, o, n, x) <==> LineInBand(was, o, n, olds, news, x)
    {
      assert CountIn(olds, x) == InOld(was, now, hunks, LeftOld(sel), BareIs(x));
      assert CountIn(news, x) == InNew(was, now, hunks, LeftNew(sel), BareIs(x));
    }
  }

  /** How often a text holds a line, whatever its ending. */
  ghost function Times(text: string, x: string): nat
  {
    Copies(EndedLines(text), BareIs(x))
  }

  /** How many old rows of a line the selection leaves out, and new ones. */
  ghost function OldLeft(head: string, work: string, hunks: seq<Hunk>, sel: Picks, x: string): nat
    requires Valid(EndedLines(head), EndedLines(work), hunks, 0, 0, 0)
  {
    InOld(EndedLines(head), EndedLines(work), hunks, LeftOld(sel), BareIs(x))
  }

  ghost function NewLeft(head: string, work: string, hunks: seq<Hunk>, sel: Picks, x: string): nat
    requires Valid(EndedLines(head), EndedLines(work), hunks, 0, 0, 0)
  {
    InNew(EndedLines(head), EndedLines(work), hunks, LeftNew(sel), BareIs(x))
  }

  /** No more often than both the text before and the file with the old rows of that line left out,
      and no less often than both the text before and the file without the new rows left out. */
  ghost predicate NearFile(head: string, work: string, hunks: seq<Hunk>, sel: Picks, from: string, to: string,
                           x: string)
    requires Valid(EndedLines(head), EndedLines(work), hunks, 0, 0, 0)
  {
    && (Times(to, x) <= Times(from, x) || Times(to, x) <= Times(work, x) + OldLeft(head, work, hunks, sel, x))
    && (Times(to, x) >= Times(from, x) || Times(to, x) >= Times(work, x) - NewLeft(head, work, hunks, sel, x))
  }

  lemma NearFileBand(head: string, work: string, hunks: seq<Hunk>, sel: Picks, from: string, to: string, x: string)
    requires Valid(EndedLines(head), EndedLines(work), hunks, 0, 0, 0)
    ensures KeepsCount(EndedLines(head), EndedLines(work), hunks, sel, true, EndedLines(from), EndedLines(to), x) <==>
            NearFile(head, work, hunks, sel, from, to, x)
  {
  }

  /** A write towards the file keeps the counts exactly when it keeps every line so. */
  lemma TowardsFile(head: string, work: string, hunks: seq<Hunk>, sel: Picks, from: string, to: string)
    requires Valid(EndedLines(head), EndedLines(work), hunks, 0, 0, 0)
    ensures KeepsCounts(head, work, hunks, sel, true, from, to) <==> forall x ::
          NearFile(head, work, hunks, sel, from, to, x)
  {
    forall x
      ensures KeepsCount(EndedLines(head), EndedLines(work), hunks, sel, true, EndedLines(from), EndedLines(to), x) <==>
              NearFile(head, work, hunks, sel, from, to, x)
    {
      NearFileBand(head, work, hunks, sel, from, to, x);
    }
  }

  /** Towards HEAD the rows left out change places. */
  ghost predicate NearHead(head: string, work: string, hunks: seq<Hunk>, sel: Picks, from: string, to: string,
                           x: string)
    requires Valid(EndedLines(head), EndedLines(work), hunks, 0, 0, 0)
  {
    && (Times(to, x) <= Times(from, x) || Times(to, x) <= Times(head, x) + NewLeft(head, work, hunks, sel, x))
    && (Times(to, x) >= Times(from, x) || Times(to, x) >= Times(head, x) - OldLeft(head, work, hunks, sel, x))
  }

  lemma NearHeadBand(head: string, work: string, hunks: seq<Hunk>, sel: Picks, from: string, to: string, x: string)
    requires Valid(EndedLines(head), EndedLines(work), hunks, 0, 0, 0)
    ensures KeepsCount(EndedLines(head), EndedLines(work), hunks, sel, false, EndedLines(from), EndedLines(to), x) <==>
            NearHead(head, work, hunks, sel, from, to, x)
  {
  }

  /** And one towards HEAD. */
  lemma TowardsHead(head: string, work: string, hunks: seq<Hunk>, sel: Picks, from: string, to: string)
    requires Valid(EndedLines(head), EndedLines(work), hunks, 0, 0, 0)
    ensures KeepsCounts(head, work, hunks, sel, false, from, to) <==> forall x ::
          NearHead(head, work, hunks, sel, from, to, x)
  {
    forall x
      ensures KeepsCount(EndedLines(head), EndedLines(work), hunks, sel, false, EndedLines(from), EndedLines(to),
                         x) <==>
              NearHead(head, work, hunks, sel, from, to, x)
    {
      NearHeadBand(head, work, hunks, sel, from, to, x);
    }
  }

  /** The index moves towards the file when staging, towards HEAD otherwise; a written file
      moves towards HEAD. */
  method CountsKept(head: string, before: string, work: string, hunks: seq<Hunk>, op: Op, sel: Picks, index: string,
                    written: Option<string>)
    returns (ok: bool)
    requires Valid(EndedLines(head), EndedLines(work), hunks, 0, 0, 0)
    ensures ok <==> && KeepsCounts(head, work, hunks, sel, op.Stage?, before, index)
                    && (written.Some? ==> KeepsCounts(head, work, hunks, sel, false, work, written.value))
    ensures ok <==> && (if op.Stage? then forall x :: NearFile(head, work, hunks, sel, before, index, x)
                        else forall x :: NearHead(head, work, hunks, sel, before, index, x))
                    && (written.Some? ==> forall x :: NearHead(head, work, hunks, sel, work, written.value, x))
  {
    TowardsFile(head, work, hunks, sel, before, index);
    TowardsHead(head, work, hunks, sel, before, index);
    if written.Some? { TowardsHead(head, work, hunks, sel, work, written.value); }
    var was, now := EndedLines(head), EndedLines(work);
    var olds, news := LeftOut(was, now, hunks, sel);
    BandKeepsCounts(head, work, hunks, sel, before, index, olds, news);
    if written.Some? { BandKeepsCounts(head, work, hunks, sel, work, written.value, olds, news); }
    if op.Stage? {
      ok := Within(work, before, index, news, olds);
    } else {
      ok := Within(head, before, index, olds, news);
    }
    if !ok || written.None? {
      return ok;
    }
    ok := Within(head, work, written.value, olds, news);
  }
}
