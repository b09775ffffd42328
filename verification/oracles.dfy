/** How the judgements of a written text bear on each other. */
module Oracles {
  import opened Wrappers
  import opened Text
  import opened Diff
  import opened Placed
  import opened Counts
  import opened Staging
  import opened Shuffle
  import opened Lcs
  import opened Moves
  import Moved

  // ----- placement bounds every line's count -----

  /** A file that reads as the rows with the selection reverted holds each line exactly as
      often as HEAD does, less the old rows left out and more the new rows left out. */
  lemma RevertedCount<T>(was: seq<T>, now: seq<T>, hunks: seq<Hunk>, sel: Picks, written: seq<T>, p: Test<T>)
    requires Valid(was, now, hunks, 0, 0, 0)
    requires Reads(was, now, hunks, 0, 0, 0, WorkOlds(sel), WorkNews(sel), written, 0)
    ensures Copies(written, p)
         == Copies(was, p) - InOld(was, now, hunks, LeftOld(sel), p) + InNew(was, now, hunks, LeftNew(sel), p)
  {
    SidesCount(was, now, hunks, p);
    ReadsCount(was, now, hunks, WorkOlds(sel), WorkNews(sel), written, p);
    OldParts(was, now, hunks, 0, 0, 0, l => true, WorkOlds(sel), LeftOld(sel), p);
    NewParts(was, now, hunks, 0, 0, 0, LeftNew(sel), WorkNews(sel), l => false, p);
    NewParts(was, now, hunks, 0, 0, 0, l => false, l => false, l => false, p);
  }

  /** However the rows were staged before: an index that reads as the rows with the selection
      staged holds each line as often as the file does, short by no more than the new rows
      left out and over by no more than the old rows left out. */
  lemma StagedCount<T>(was: seq<T>, now: seq<T>, hunks: seq<Hunk>, marks: Picks, sel: Picks, index: seq<T>, p: Test<T>)
    requires Valid(was, now, hunks, 0, 0, 0)
    requires Reads(was, now, hunks, 0, 0, 0, IndexOlds(marks, sel, Some(true)), IndexNews(marks, sel, Some(true)),
                   index, 0)
    ensures Copies(now, p) - InNew(was, now, hunks, LeftNew(sel), p) <= Copies(index, p)
    ensures Copies(index, p) <= Copies(now, p) + InOld(was, now, hunks, LeftOld(sel), p)
  {
    var olds, news := IndexOlds(marks, sel, Some(true)), IndexNews(marks, sel, Some(true));
    SidesCount(was, now, hunks, p);
    ReadsCount(was, now, hunks, olds, news, index, p);
    OldParts(was, now, hunks, 0, 0, 0, LeftOld(sel), olds, l => l !in sel.olds && l in marks.olds, p);
    NewParts(was, now, hunks, 0, 0, 0, l => true, news, l => l !in sel.news && l !in marks.news, p);
    NewParts(was, now, hunks, 0, 0, 0, LeftNew(sel), l => l !in sel.news && l in marks.news,
             l => l !in sel.news && l !in marks.news, p);
  }

  /** The same against HEAD when the selection is unstaged. */
  lemma UnstagedCount<T>(was: seq<T>, now: seq<T>, hunks: seq<Hunk>, marks: Picks, sel: Picks, index: seq<T>,
                         p: Test<T>)
    requires Valid(was, now, hunks, 0, 0, 0)
    requires Reads(was, now, hunks, 0, 0, 0, IndexOlds(marks, sel, Some(false)), IndexNews(marks, sel, Some(false)),
                   index, 0)
    ensures Copies(was, p) - InOld(was, now, hunks, LeftOld(sel), p) <= Copies(index, p)
    ensures Copies(index, p) <= Copies(was, p) + InNew(was, now, hunks, LeftNew(sel), p)
  {
    var olds, news := IndexOlds(marks, sel, Some(false)), IndexNews(marks, sel, Some(false));
    SidesCount(was, now, hunks, p);
    ReadsCount(was, now, hunks, olds, news, index, p);
    NewParts(was, now, hunks, 0, 0, 0, LeftNew(sel), news, l => l !in sel.news && l !in marks.news, p);
    OldParts(was, now, hunks, 0, 0, 0, l => true, olds, l => l !in sel.olds && l in marks.olds, p);
    OldParts(was, now, hunks, 0, 0, 0, LeftOld(sel), l => l !in sel.olds && l !in marks.olds,
             l => l !in sel.olds && l in marks.olds, p);
  }

  /** Whatever the index held before: a write accepted by placement is accepted by counting. */
  lemma PlacementKeepsCounts(head: string, before: string, work: string, hunks: seq<Hunk>, marks: Picks, sel: Picks,
                             op: Op,
                             index: string, written: Option<string>)
    requires Valid(EndedLines(head), EndedLines(work), hunks, 0, 0, 0)
    requires IndexReads(head, work, hunks, marks, sel, Some(op.Stage?), index)
    requires written.Some? ==> WorkReads(head, work, hunks, sel, written.value)
    ensures KeepsCounts(head, work, hunks, sel, op.Stage?, before, index)
    ensures written.Some? ==> KeepsCounts(head, work, hunks, sel, false, work, written.value)
  {
    var was, now, o, n := EndedLines(head), EndedLines(work), EndedLines(before), EndedLines(index);
    forall x
      ensures KeepsCount(was, now, hunks, sel, op.Stage?, o, n, x)
    {
      if op.Stage? {
        StagedCount(was, now, hunks, marks, sel, n, BareIs(x));
      } else {
        UnstagedCount(was, now, hunks, marks, sel, n, BareIs(x));
      }
    }
    if written.Some? {
      forall x
        ensures KeepsCount(was, now, hunks, sel, false, now, EndedLines(written.value), x)
      {
        RevertedCount(was, now, hunks, sel, EndedLines(written.value), BareIs(x));
      }
    }
  }

  // ----- the whole selection -----

  /** The picks name every row of the diff. */
  predicate AllRows<T(==)>(was: seq<T>, now: seq<T>, hunks: seq<Hunk>, p: Picks)
    requires Valid(was, now, hunks, 0, 0, 0)
  {
    OldNumbers(was, now, hunks, 0, 0, 0) <= p.olds && NewNumbers(was, now, hunks, 0, 0, 0) <= p.news
  }

  /** Or none. */
  predicate NoRows<T(==)>(was: seq<T>, now: seq<T>, hunks: seq<Hunk>, p: Picks)
    requires Valid(was, now, hunks, 0, 0, 0)
  {
    OldNumbers(was, now, hunks, 0, 0, 0) !! p.olds && NewNumbers(was, now, hunks, 0, 0, 0) !! p.news
  }

  lemma ReadsNewOnly<T(!new)>(was: seq<T>, now: seq<T>, hunks: seq<Hunk>, olds: Held, news: Held, text: seq<T>)
    requires Valid(was, now, hunks, 0, 0, 0)
    requires Agree(was, now, hunks, 0, 0, 0, olds, news, l => false, l => true)
    ensures Reads(was, now, hunks, 0, 0, 0, olds, news, text, 0) <==> text == now
  {
    var none: Held, all: Held := l => false, l => true;
    ReadsAgree(was, now, hunks, olds, news, none, all, text);
    NewSideReadsNew(was, now, hunks, none, all, text);
  }

  lemma ReadsOldOnly<T(!new)>(was: seq<T>, now: seq<T>, hunks: seq<Hunk>, olds: Held, news: Held, text: seq<T>)
    requires Valid(was, now, hunks, 0, 0, 0)
    requires Agree(was, now, hunks, 0, 0, 0, olds, news, l => true, l => false)
    ensures Reads(was, now, hunks, 0, 0, 0, olds, news, text, 0) <==> text == was
  {
    var none: Held, all: Held := l => false, l => true;
    ReadsAgree(was, now, hunks, olds, news, all, none, text);
    OldSideReadsOld(was, now, hunks, all, none, text);
  }

  /** With every row staged the index is the file, with none it is HEAD. Staging every row whatever
      was staged makes it the file, unstaging every row makes it HEAD, and reverting every row
      makes the file HEAD. */
  lemma WholeSelection(head: string, work: string, hunks: seq<Hunk>, marks: Picks, sel: Picks, text: string)
    requires Valid(EndedLines(head), EndedLines(work), hunks, 0, 0, 0)
    ensures var was, now, lines := EndedLines(head), EndedLines(work), EndedLines(text);
            && (AllRows(was, now, hunks, marks) ==>
                  (IndexReads(head, work, hunks, marks, sel, None, text) <==> lines == now))
            && (NoRows(was, now, hunks, marks) ==>
                  (IndexReads(head, work, hunks, marks, sel, None, text) <==> lines == was))
            && (AllRows(was, now, hunks, sel) ==>
                  && (IndexReads(head, work, hunks, marks, sel, Some(true), text) <==> lines == now)
                  && (IndexReads(head, work, hunks, marks, sel, Some(false), text) <==> lines == was)
                  && (WorkReads(head, work, hunks, sel, text) <==> lines == was))
  {
    var was, now, lines := EndedLines(head), EndedLines(work), EndedLines(text);
    if AllRows(was, now, hunks, marks) {
      ReadsNewOnly(was, now, hunks, IndexOlds(marks, sel, None), IndexNews(marks, sel, None), lines);
    }
    if NoRows(was, now, hunks, marks) {
      ReadsOldOnly(was, now, hunks, IndexOlds(marks, sel, None), IndexNews(marks, sel, None), lines);
    }
    if AllRows(was, now, hunks, sel) {
      ReadsNewOnly(was, now, hunks, IndexOlds(marks, sel, Some(true)), IndexNews(marks, sel, Some(true)), lines);
      ReadsOldOnly(was, now, hunks, IndexOlds(marks, sel, Some(false)), IndexNews(marks, sel, Some(false)), lines);
      ReadsOldOnly(was, now, hunks, WorkOlds(sel), WorkNews(sel), lines);
    }
  }

  /** With no row selected nothing may move: each operation leaves the index reading as before, and
      reverting leaves the file. */
  lemma EmptySelection(head: string, work: string, hunks: seq<Hunk>, marks: Picks, sel: Picks, take: bool, text: string)
    requires Valid(EndedLines(head), EndedLines(work), hunks, 0, 0, 0)
    requires NoRows(EndedLines(head), EndedLines(work), hunks, sel)
    ensures IndexReads(head, work, hunks, marks, sel, Some(take), text) <==>
            IndexReads(head, work, hunks, marks, sel, None, text)
    ensures WorkReads(head, work, hunks, sel, text) <==> EndedLines(text) == EndedLines(work)
  {
    var was, now, lines := EndedLines(head), EndedLines(work), EndedLines(text);
    ReadsAgree(was, now, hunks, IndexOlds(marks, sel, Some(take)), IndexNews(marks, sel, Some(take)),
               IndexOlds(marks, sel, None), IndexNews(marks, sel, None), lines);
    ReadsNewOnly(was, now, hunks, WorkOlds(sel), WorkNews(sel), lines);
  }

  /** A line's count lies between two others. */
  predicate Between(n: int, a: int, b: int)
  {
    a <= n <= b || b <= n <= a
  }

  lemma NothingLeft(head: string, work: string, hunks: seq<Hunk>, sel: Picks, x: string)
    requires Valid(EndedLines(head), EndedLines(work), hunks, 0, 0, 0)
    requires AllRows(EndedLines(head), EndedLines(work), hunks, sel)
    ensures OldLeft(head, work, hunks, sel, x) == 0 && NewLeft(head, work, hunks, sel, x) == 0
  {
    var was, now := EndedLines(head), EndedLines(work);
    var none: Held := l => false;
    RowsAgree(was, now, hunks, 0, 0, 0, LeftOld(sel), LeftNew(sel), none, none);
    OldParts(was, now, hunks, 0, 0, 0, none, none, none, BareIs(x));
    NewParts(was, now, hunks, 0, 0, 0, none, none, none, BareIs(x));
  }

  /** With every row selected, the counts are kept exactly when each line's lies between where it
      was and where the side moved towards has it. */
  lemma WholeSelectionCounts(head: string, work: string, hunks: seq<Hunk>, sel: Picks, from: string, to: string)
    requires Valid(EndedLines(head), EndedLines(work), hunks, 0, 0, 0)
    requires AllRows(EndedLines(head), EndedLines(work), hunks, sel)
    ensures KeepsCounts(head, work, hunks, sel, true, from, to) <==>
            forall x :: Between(Times(to, x), Times(from, x), Times(work, x))
    ensures KeepsCounts(head, work, hunks, sel, false, from, to) <==>
            forall x :: Between(Times(to, x), Times(from, x), Times(head, x))
  {
    TowardsFile(head, work, hunks, sel, from, to);
    TowardsHead(head, work, hunks, sel, from, to);
    forall x
      ensures NearFile(head, work, hunks, sel, from, to, x) <==> Between(Times(to, x), Times(from, x), Times(work, x))
      ensures NearHead(head, work, hunks, sel, from, to, x) <==> Between(Times(to, x), Times(from, x), Times(head, x))
    {
      NothingLeft(head, work, hunks, sel, x);
    }
  }

  // ----- placement against movement -----

  ghost predicate Sub(s: Held, k: Held)
  {
    forall l :: s(l) ==> k(l)
  }

  /** In every hunk the held rows are all old or all new. */
  predicate OneSided<T(==)>(was: seq<T>, now: seq<T>, hunks: seq<Hunk>, k: nat, i: nat, j: nat, olds: Held, news: Held)
    requires Valid(was, now, hunks, k, i, j)
    decreases |hunks| - k
  {
    k < |hunks| ==>
      var h := hunks[k];
      && (KeptOld(was, h, olds) == [] || KeptNew(now, h, news) == [])
      && OneSided(was, now, hunks, k + 1, OldAt(h) + h.oldCount, NewAt(h) + h.newCount, olds, news)
  }

  lemma {:induction false} KeptSub<T>(side: seq<T>, at: nat, count: nat, s: Held, k: Held)
    requires at + count <= |side| && Sub(s, k)
    ensures IsSubseq(Kept(side, at, count, s), Kept(side, at, count, k))
  {
    if count > 0 {
      KeptSub(side, at, count - 1, s, k);
      var some, all := Kept(side, at, count, s), Kept(side, at, count, k);
      assert k(at + count) ==> all[..|all| - 1] == Kept(side, at, count - 1, k);
      assert s(at + count) ==> some[..|some| - 1] == Kept(side, at, count - 1, s);
    }
  }

  lemma {:induction false} ShuffleKeepsOrder<T>(a: seq<T>, b: seq<T>, c: seq<T>)
    requires Shuffles(a, b, c)
    ensures IsSubseq(a, c) && IsSubseq(b, c)
    decreases |c|
  {
    if c != [] {
      var c', x := c[..|c| - 1], c[|c| - 1];
      if a != [] && a[|a| - 1] == x && Shuffles(a[..|a| - 1], b, c') {
        ShuffleKeepsOrder(a[..|a| - 1], b, c');
      } else {
        ShuffleKeepsOrder(a, b[..|b| - 1], c');
      }
    }
  }

  /** A hunk's rows among those held, when they are on one side. */
  function Stay<T(==)>(was: seq<T>, now: seq<T>, h: Hunk, olds: Held, news: Held): seq<T>
    requires HunkFits(was, now, h)
  {
    KeptOld(was, h, olds) + KeptNew(now, h, news)
  }

  lemma StayInBlock<T>(was: seq<T>, now: seq<T>, h: Hunk, olds: Held, news: Held, block: seq<T>, s: Held, t: Held)
    requires HunkFits(was, now, h) && Shuffles(KeptOld(was, h, olds), KeptNew(now, h, news), block)
    requires Sub(s, olds) && Sub(t, news) && (KeptOld(was, h, s) == [] || KeptNew(now, h, t) == [])
    ensures IsSubseq(Stay(was, now, h, s, t), block)
  {
    var a, b := KeptOld(was, h, olds), KeptNew(now, h, news);
    ShuffleKeepsOrder(a, b, block);
    KeptSub(was, OldAt(h), h.oldCount, s, olds);
    KeptSub(now, NewAt(h), h.newCount, t, news);
    SubseqTransitive(KeptOld(was, h, s), a, block);
    SubseqTransitive(KeptNew(now, h, t), b, block);
    assert Stay(was, now, h, s, t) == KeptOld(was, h, s) || Stay(was, now, h, s, t) == KeptNew(now, h, t);
  }

  lemma PartsInOrder<T>(run: seq<T>, stay: seq<T>, block: seq<T>, rest: seq<T>, later: seq<T>)
    requires IsSubseq(stay, block) && IsSubseq(rest, later)
    ensures IsSubseq(run + stay + rest, run + block + later)
  {
    SubseqSelf(run);
    SubseqConcat(run, run, stay, block);
    SubseqConcat(run + stay, run + block, rest, later);
  }

  /** The unchanged lines with the held rows in place. */
  function Staying<T(==)>(was: seq<T>, now: seq<T>, hunks: seq<Hunk>, k: nat, i: nat, j: nat, olds: Held,
                          news: Held): seq<T>
    requires Valid(was, now, hunks, k, i, j)
    decreases |hunks| - k
  {
    if k == |hunks| then was[i..]
    else
      var h := hunks[k];
      was[i..OldAt(h)] + Stay(was, now, h, olds, news)
      + Staying(was, now, hunks, k + 1, OldAt(h) + h.oldCount, NewAt(h) + h.newCount, olds, news)
  }

  lemma StayTurn<T>(was: seq<T>, now: seq<T>, hunks: seq<Hunk>, k: nat, i: nat, j: nat, i': nat, j': nat,
                    s: Held, t: Held, rest: seq<T>, text: seq<T>)
    requires Valid(was, now, hunks, k, i, j) && k < |hunks| && After(was, now, hunks, k, i', j')
    requires rest == Staying(was, now, hunks, k + 1, i', j', s, t)
    requires IsSubseq(was[i..OldAt(hunks[k])] + Stay(was, now, hunks[k], s, t) + rest, text)
    ensures IsSubseq(Staying(was, now, hunks, k, i, j, s, t), text)
  {
  }

  lemma JoinedTurn<T>(was: seq<T>, now: seq<T>, hunks: seq<Hunk>, k: nat, i: nat, j: nat, i': nat, j': nat,
                      blocks: seq<seq<T>>, later: seq<T>, some: seq<T>)
    requires Valid(was, now, hunks, k, i, j) && k < |hunks| && |blocks| == |hunks| - k
    requires After(was, now, hunks, k, i', j') && later == Join(was, now, hunks, k + 1, i', j', blocks[1..])
    requires IsSubseq(some, was[i..OldAt(hunks[k])] + blocks[0] + later)
    ensures IsSubseq(some, Join(was, now, hunks, k, i, j, blocks))
  {
  }

  lemma StayInTurn<T>(was: seq<T>, now: seq<T>, hunks: seq<Hunk>, k: nat, i: nat, j: nat, i': nat, j': nat,
                      blocks: seq<seq<T>>, s: Held, t: Held, rest: seq<T>, later: seq<T>)
    requires Valid(was, now, hunks, k, i, j) && k < |hunks| && |blocks| == |hunks| - k
    requires After(was, now, hunks, k, i', j') && IsSubseq(Stay(was, now, hunks[k], s, t), blocks[0])
    requires rest == Staying(was, now, hunks, k + 1, i', j', s, t)
    requires later == Join(was, now, hunks, k + 1, i', j', blocks[1..]) && IsSubseq(rest, later)
    ensures IsSubseq(Staying(was, now, hunks, k, i, j, s, t), Join(was, now, hunks, k, i, j, blocks))
  {
    var run := was[i..OldAt(hunks[k])];
    PartsInOrder(run, Stay(was, now, hunks[k], s, t), blocks[0], rest, later);
    JoinedTurn(was, now, hunks, k, i, j, i', j', blocks, later, run + Stay(was, now, hunks[k], s, t) + rest);
    StayTurn(was, now, hunks, k, i, j, i', j', s, t, rest, Join(was, now, hunks, k, i, j, blocks));
  }

  lemma {:induction false} StayingInJoin<T>(was: seq<T>, now: seq<T>, hunks: seq<Hunk>, k: nat, i: nat, j: nat,
                                            olds: Held, news: Held, blocks: seq<seq<T>>, s: Held, t: Held)
    requires Valid(was, now, hunks, k, i, j) && Merges(was, now, hunks, k, i, j, olds, news, blocks)
    requires Sub(s, olds) && Sub(t, news) && OneSided(was, now, hunks, k, i, j, s, t)
    ensures IsSubseq(Staying(was, now, hunks, k, i, j, s, t), Join(was, now, hunks, k, i, j, blocks))
    decreases |hunks| - k
  {
    if k == |hunks| {
      SubseqSelf(was[i..]);
    } else {
      var i', j' := OldAt(hunks[k]) + hunks[k].oldCount, NewAt(hunks[k]) + hunks[k].newCount;
      StayingInJoin(was, now, hunks, k + 1, i', j', olds, news, blocks[1..], s, t);
      assert IsSubseq(Stay(was, now, hunks[k], s, t), blocks[0]) by {
        StayInBlock(was, now, hunks[k], olds, news, blocks[0], s, t);
      }
      StayInTurn(was, now, hunks, k, i, j, i', j', blocks, s, t, Staying(was, now, hunks, k + 1, i', j', s, t),
                 Join(was, now, hunks, k + 1, i', j', blocks[1..]));
    }
  }

  /** One-sided rows keep their order in every text that reads as holding them. */
  lemma StayingInOrder<T>(was: seq<T>, now: seq<T>, hunks: seq<Hunk>, olds: Held, news: Held, text: seq<T>, s: Held,
                          t: Held)
    requires Valid(was, now, hunks, 0, 0, 0) && Reads(was, now, hunks, 0, 0, 0, olds, news, text, 0)
    requires Sub(s, olds) && Sub(t, news) && OneSided(was, now, hunks, 0, 0, 0, s, t)
    ensures IsSubseq(Staying(was, now, hunks, 0, 0, 0, s, t), text)
  {
    ReadsMeansJoined(was, now, hunks, 0, 0, 0, olds, news, text);
    var blocks :| Merges(was, now, hunks, 0, 0, 0, olds, news, blocks)
        && text == Join(was, now, hunks, 0, 0, 0, blocks);
    StayingInJoin(was, now, hunks, 0, 0, 0, olds, news, blocks, s, t);
  }

  lemma StayCount<T>(was: seq<T>, now: seq<T>, hunks: seq<Hunk>, k: nat, i: nat, j: nat, s: Held, t: Held, p: Test<T>)
    requires Valid(was, now, hunks, k, i, j) && k < |hunks|
    ensures Copies(Staying(was, now, hunks, k, i, j, s, t), p)
         == Copies(was[i..OldAt(hunks[k])], p) + Copies(KeptOld(was, hunks[k], s), p)
            + Copies(KeptNew(now, hunks[k], t), p)
            + Copies(Staying(was, now, hunks, k + 1, OldAt(hunks[k]) + hunks[k].oldCount,
                             NewAt(hunks[k]) + hunks[k].newCount, s, t), p)
  {
    var h := hunks[k];
    var run, stay := was[i..OldAt(h)], Stay(was, now, h, s, t);
    CopiesConcat(KeptOld(was, h, s), KeptNew(now, h, t), p);
    CopiesConcat(run, stay, p);
    CopiesConcat(run + stay, Staying(was, now, hunks, k + 1, OldAt(h) + h.oldCount, NewAt(h) + h.newCount, s, t), p);
  }

  lemma {:induction false} StayingCount<T>(was: seq<T>, now: seq<T>, hunks: seq<Hunk>, k: nat, i: nat, j: nat, s: Held,
                                           t: Held, p: Test<T>)
    requires Valid(was, now, hunks, k, i, j)
    ensures Copies(Staying(was, now, hunks, k, i, j, s, t), p)
         == Copies(Runs(was, now, hunks, k, i, j), p) + Copies(OldRows(was, now, hunks, k, i, j, s), p)
            + Copies(NewRows(was, now, hunks, k, i, j, t), p)
    decreases |hunks| - k
  {
    CopiesNone(p);
    if k < |hunks| {
      var h := hunks[k];
      StayingCount(was, now, hunks, k + 1, OldAt(h) + h.oldCount, NewAt(h) + h.newCount, s, t, p);
      StayCount(was, now, hunks, k, i, j, s, t, p);
      PartsCount(was, now, hunks, k, i, j, s, t, p);
    }
  }

  /** The rows the index holds before and after. */
  function StayOlds(marks: Picks, sel: Picks, take: Option<bool>): Held
  {
    (l: nat) => l !in marks.olds && l !in Flipped(marks.olds, sel.olds, take)
  }

  function StayNews(marks: Picks, sel: Picks, take: Option<bool>): Held
  {
    (l: nat) => l in marks.news && l !in Flipped(marks.news, sel.news, take)
  }

  lemma SameRest<T(!new)>(before: seq<T>, index: seq<T>, kept: seq<T>, leave: seq<T>, enter: seq<T>)
    requires forall x :: Moved.Tally(before, x) == Moved.Tally(kept, x) + Moved.Tally(leave, x)
    requires multiset(before) + multiset(enter) == multiset(index) + multiset(leave)
    ensures multiset(before) == multiset(kept) + multiset(leave)
    ensures multiset(index) == multiset(kept) + multiset(enter)
  {
    forall x
      ensures multiset(before)[x] == (multiset(kept) + multiset(leave))[x]
      ensures multiset(index)[x] == (multiset(kept) + multiset(enter))[x]
    {
      assert Moved.Tally(before, x) == Moved.Tally(kept, x) + Moved.Tally(leave, x);
      assert (multiset(before) + multiset(enter))[x] == (multiset(index) + multiset(leave))[x];
    }
  }

  /** Where the rows that stay in the index are all on one side in each hunk, an index written
      in place is the one before with the moving lines taken out and put in: placement implies
      the check on what moved. */
  lemma PlacementIsEdit<T(!new)>(was: seq<T>, now: seq<T>, hunks: seq<Hunk>, marks: Picks, sel: Picks,
                                 take: Option<bool>,
                        before: seq<T>, index: seq<T>, m: Moving<T>)
    requires Valid(was, now, hunks, 0, 0, 0) && OfRows(was, now, hunks, sel)
    requires MovesRows(was, now, marks, sel, take, m)
    requires Reads(was, now, hunks, 0, 0, 0, IndexOlds(marks, sel, None), IndexNews(marks, sel, None), before, 0)
    requires var t := Some(take == Some(true));
             Reads(was, now, hunks, 0, 0, 0, IndexOlds(marks, sel, t), IndexNews(marks, sel, t), index, 0)
    requires OneSided(was, now, hunks, 0, 0, 0, StayOlds(marks, sel, take), StayNews(marks, sel, take))
    ensures Moved.Edit(before, index, m.indexLeave, m.indexEnter)
    ensures Moved.Accepts(before, index, m.indexLeave, m.indexEnter)
  {
    var t := Some(take == Some(true));
    var s, r := StayOlds(marks, sel, take), StayNews(marks, sel, take);
    var kept := Staying(was, now, hunks, 0, 0, 0, s, r);
    StayingInOrder(was, now, hunks, IndexOlds(marks, sel, None), IndexNews(marks, sel, None), before, s, r);
    StayingInOrder(was, now, hunks, IndexOlds(marks, sel, t), IndexNews(marks, sel, t), index, s, r);
    IndexBalances(was, now, hunks, marks, sel, take, before, index, m);
    forall x
      ensures Moved.Tally(before, x) == Moved.Tally(kept, x) + Moved.Tally(m.indexLeave, x)
    {
      LeavesTheRest(was, now, hunks, marks, sel, take, before, m, x);
    }
    SameRest(before, index, kept, m.indexLeave, m.indexEnter);
    assert Moved.EditKeeping(before, index, m.indexLeave, m.indexEnter, kept);
    Moved.EditAccepted(before, index, m.indexLeave, m.indexEnter);
  }

  lemma LeavesTheRest<T(!new)>(was: seq<T>, now: seq<T>, hunks: seq<Hunk>, marks: Picks, sel: Picks, take: Option<bool>,
                      before: seq<T>, m: Moving<T>, x: T)
    requires Valid(was, now, hunks, 0, 0, 0) && OfRows(was, now, hunks, sel)
    requires MovesRows(was, now, marks, sel, take, m)
    requires Reads(was, now, hunks, 0, 0, 0, IndexOlds(marks, sel, None), IndexNews(marks, sel, None), before, 0)
    ensures Moved.Tally(before, x)
         == Moved.Tally(Staying(was, now, hunks, 0, 0, 0, StayOlds(marks, sel, take), StayNews(marks, sel, take)), x)
            + Moved.Tally(m.indexLeave, x)
  {
    var p := Is(x);
    var olds, news, s, r := IndexOlds(marks, sel, None), IndexNews(marks, sel, None), StayOlds(marks, sel, take),
                            StayNews(marks, sel, take);
    var oldFlips, newFlips := Flipped(marks.olds, sel.olds, take), Flipped(marks.news, sel.news, take);
    ReadsCount(was, now, hunks, olds, news, before, p);
    StayingCount(was, now, hunks, 0, 0, 0, s, r, p);
    CopiesIsTally(before, x);
    CopiesIsTally(Staying(was, now, hunks, 0, 0, 0, s, r), x);
    OldParts(was, now, hunks, 0, 0, 0, l => false, l => false, l => false, p);
    if take == Some(true) {
      PickedOld(was, now, hunks, oldFlips, x);
      OldParts(was, now, hunks, 0, 0, 0, olds, s, (l: nat) => l in oldFlips, p);
      NewParts(was, now, hunks, 0, 0, 0, news, r, l => false, p);
      NewParts(was, now, hunks, 0, 0, 0, l => false, l => false, l => false, p);
      assert Moved.Tally(m.indexLeave, x) == Picked(was, oldFlips, x);
    } else {
      PickedNew(was, now, hunks, newFlips, x);
      NewParts(was, now, hunks, 0, 0, 0, news, r, (l: nat) => l in newFlips, p);
      OldParts(was, now, hunks, 0, 0, 0, olds, s, l => false, p);
      assert Moved.Tally(m.indexLeave, x) == Picked(now, newFlips, x);
    }
  }

  lemma {:induction false} NewsOneSided<T>(was: seq<T>, now: seq<T>, hunks: seq<Hunk>, k: nat, i: nat, j: nat,
                                           none: Held, news: Held)
    requires Valid(was, now, hunks, k, i, j) && forall l :: !none(l)
    ensures OneSided(was, now, hunks, k, i, j, none, news)
    decreases |hunks| - k
  {
    if k < |hunks| {
      var h := hunks[k];
      KeptAll(was, OldAt(h), h.oldCount, none);
      NewsOneSided(was, now, hunks, k + 1, OldAt(h) + h.oldCount, NewAt(h) + h.newCount, none, news);
    }
  }

  /** A file written in place by reverting always is the file with the moving lines taken out
      and put in. */
  lemma RevertIsEdit<T(!new)>(was: seq<T>, now: seq<T>, hunks: seq<Hunk>, marks: Picks, sel: Picks, written: seq<T>,
                              m: Moving<T>)
    requires Valid(was, now, hunks, 0, 0, 0) && OfRows(was, now, hunks, sel)
    requires MovesRows(was, now, marks, sel, None, m)
    requires Reads(was, now, hunks, 0, 0, 0, WorkOlds(sel), WorkNews(sel), written, 0)
    ensures Moved.Edit(now, written, m.workLeave, m.workEnter)
    ensures Moved.Accepts(now, written, m.workLeave, m.workEnter)
  {
    var all, none: Held := l => true, l => false;
    var kept := Staying(was, now, hunks, 0, 0, 0, none, WorkNews(sel));
    NewSideReadsNew(was, now, hunks, none, all, now);
    NewsOneSided(was, now, hunks, 0, 0, 0, none, WorkNews(sel));
    StayingInOrder(was, now, hunks, none, all, now, none, WorkNews(sel));
    StayingInOrder(was, now, hunks, WorkOlds(sel), WorkNews(sel), written, none, WorkNews(sel));
    WorkBalances(was, now, hunks, marks, sel, written, m);
    forall x
      ensures Moved.Tally(now, x) == Moved.Tally(kept, x) + Moved.Tally(m.workLeave, x)
    {
      RevertLeaves(was, now, hunks, marks, sel, m, x);
    }
    SameRest(now, written, kept, m.workLeave, m.workEnter);
    assert Moved.EditKeeping(now, written, m.workLeave, m.workEnter, kept);
    Moved.EditAccepted(now, written, m.workLeave, m.workEnter);
  }

  lemma RevertLeaves<T(!new)>(was: seq<T>, now: seq<T>, hunks: seq<Hunk>, marks: Picks, sel: Picks, m: Moving<T>, x: T)
    requires Valid(was, now, hunks, 0, 0, 0) && OfRows(was, now, hunks, sel)
    requires MovesRows(was, now, marks, sel, None, m)
    ensures Moved.Tally(now, x)
         == Moved.Tally(Staying(was, now, hunks, 0, 0, 0, l => false, WorkNews(sel)), x) + Moved.Tally(m.workLeave, x)
  {
    var p, none: Held := Is(x), l => false;
    var kept := Staying(was, now, hunks, 0, 0, 0, none, WorkNews(sel));
    SidesCount(was, now, hunks, p);
    StayingCount(was, now, hunks, 0, 0, 0, none, WorkNews(sel), p);
    CopiesIsTally(now, x);
    CopiesIsTally(kept, x);
    OldParts(was, now, hunks, 0, 0, 0, none, none, none, p);
    NewParts(was, now, hunks, 0, 0, 0, l => true, WorkNews(sel), (l: nat) => l in sel.news, p);
    PickedNew(was, now, hunks, sel.news, x);
    assert Moved.Tally(m.workLeave, x) == Picked(now, sel.news, x);
  }

  // ----- exactly when placement implies the check on what moved -----

  /** No line stands twice among the unchanged lines and the rows. */
  ghost predicate Distinct<T(!new)>(was: seq<T>, now: seq<T>, hunks: seq<Hunk>)
    requires Valid(was, now, hunks, 0, 0, 0)
  {
    forall x :: InRuns(was, now, hunks, Is(x)) + InOld(was, now, hunks, l => true, Is(x))
         + InNew(was, now, hunks, l => true, Is(x)) <= 1
  }

  lemma HeldAtMostAll<T>(was: seq<T>, now: seq<T>, hunks: seq<Hunk>, olds: Held, news: Held, p: Test<T>)
    requires Valid(was, now, hunks, 0, 0, 0)
    ensures InOld(was, now, hunks, olds, p) <= InOld(was, now, hunks, l => true, p)
    ensures InNew(was, now, hunks, news, p) <= InNew(was, now, hunks, l => true, p)
  {
    OldParts(was, now, hunks, 0, 0, 0, l => true, olds, (l: nat) => !olds(l), p);
    NewParts(was, now, hunks, 0, 0, 0, l => true, news, (l: nat) => !news(l), p);
  }

  /** Then no placed text holds a line twice. */
  lemma OnceEach<T(!new)>(was: seq<T>, now: seq<T>, hunks: seq<Hunk>, olds: Held, news: Held, text: seq<T>, x: T)
    requires Valid(was, now, hunks, 0, 0, 0) && Distinct(was, now, hunks)
    requires Reads(was, now, hunks, 0, 0, 0, olds, news, text, 0)
    ensures Moved.Tally(text, x) <= 1
  {
    ReadsCount(was, now, hunks, olds, news, text, Is(x));
    CopiesIsTally(text, x);
    HeldAtMostAll(was, now, hunks, olds, news, Is(x));
  }

  /** And no line both leaves and enters. */
  lemma MovesApart<T(!new)>(was: seq<T>, now: seq<T>, hunks: seq<Hunk>, marks: Picks, sel: Picks, take: Option<bool>,
                            m: Moving<T>)
    requires Valid(was, now, hunks, 0, 0, 0) && OfRows(was, now, hunks, sel) && Distinct(was, now, hunks)
    requires MovesRows(was, now, marks, sel, take, m)
    ensures multiset(m.indexLeave) !! multiset(m.indexEnter)
  {
    var oldFlips, newFlips := Flipped(marks.olds, sel.olds, take), Flipped(marks.news, sel.news, take);
    forall x
      ensures Moved.Tally(m.indexLeave, x) == 0 || Moved.Tally(m.indexEnter, x) == 0
    {
      PickedOld(was, now, hunks, oldFlips, x);
      PickedNew(was, now, hunks, newFlips, x);
      HeldAtMostAll(was, now, hunks, (l: nat) => l in oldFlips, (l: nat) => l in newFlips, Is(x));
      assert take == Some(true) ==>
          Moved.Tally(m.indexLeave, x) == Picked(was, oldFlips, x)
              && Moved.Tally(m.indexEnter, x) == Picked(now, newFlips, x);
      assert take != Some(true) ==>
          Moved.Tally(m.indexEnter, x) == Picked(was, oldFlips, x)
              && Moved.Tally(m.indexLeave, x) == Picked(now, newFlips, x);
    }
    forall x | x in multiset(m.indexLeave)
      ensures x !in multiset(m.indexEnter)
    {
      assert Moved.Tally(m.indexLeave, x) > 0;
    }
  }

  lemma {:induction false} ShuffleEnd<T>(a: seq<T>, b: seq<T>)
    ensures Shuffles(a, b, a + b)
    decreases |a| + |b|
  {
    if b != [] {
      ShuffleEnd(a, b[..|b| - 1]);
      assert (a + b)[..|a + b| - 1] == a + b[..|b| - 1];
    } else if a != [] {
      ShuffleAlone(a, a);
      assert a + b == a;
    }
  }

  lemma {:induction false} ShuffleFlip<T>(a: seq<T>, b: seq<T>, c: seq<T>)
    requires Shuffles(a, b, c)
    ensures Shuffles(b, a, c)
    decreases |c|
  {
    if c != [] {
      var c', x := c[..|c| - 1], c[|c| - 1];
      if a != [] && a[|a| - 1] == x && Shuffles(a[..|a| - 1], b, c') {
        ShuffleFlip(a[..|a| - 1], b, c');
      } else {
        ShuffleFlip(a, b[..|b| - 1], c');
      }
    }
  }

  lemma {:induction false} SomeBlocks<T>(was: seq<T>, now: seq<T>, hunks: seq<Hunk>, k: nat, i: nat, j: nat, olds: Held,
                                         news: Held)
    returns (blocks: seq<seq<T>>)
    requires Valid(was, now, hunks, k, i, j)
    ensures Merges(was, now, hunks, k, i, j, olds, news, blocks)
    decreases |hunks| - k
  {
    if k == |hunks| {
      blocks := [];
    } else {
      var h := hunks[k];
      var block := KeptOld(was, h, olds) + KeptNew(now, h, news);
      var rest := SomeBlocks(was, now, hunks, k + 1, OldAt(h) + h.oldCount, NewAt(h) + h.newCount, olds, news);
      ShuffleEnd(KeptOld(was, h, olds), KeptNew(now, h, news));
      blocks := [block] + rest;
      assert blocks[1..] == rest;
    }
  }

  /** Some text is accepted, whatever is held. */
  lemma SomeReads<T>(was: seq<T>, now: seq<T>, hunks: seq<Hunk>, k: nat, i: nat, j: nat, olds: Held, news: Held)
    returns (text: seq<T>)
    requires Valid(was, now, hunks, k, i, j)
    ensures Reads(was, now, hunks, k, i, j, olds, news, text, 0)
  {
    var blocks := SomeBlocks(was, now, hunks, k, i, j, olds, news);
    text := Join(was, now, hunks, k, i, j, blocks);
    assert text[0..] == text;
    BlocksRead(was, now, hunks, k, i, j, olds, news, blocks, text, 0);
  }

  /** And any merge of one hunk's held lines stands in one. */
  lemma ReadsWith<T>(was: seq<T>, now: seq<T>, hunks: seq<Hunk>, q: nat, olds: Held, news: Held, block: seq<T>)
    returns (front: seq<T>, back: seq<T>)
    requires Valid(was, now, hunks, 0, 0, 0) && q < |hunks| && HunkFits(was, now, hunks[q])
    requires Shuffles(KeptOld(was, hunks[q], olds), KeptNew(now, hunks[q], news), block)
    ensures Reads(was, now, hunks, 0, 0, 0, olds, news, front + block + back, 0)
  {
    var i', j', was', now', hunks' := HunkCuts(was, now, hunks, q, olds, news);
    front := SomeReads(was', now', hunks', 0, 0, 0, olds, news);
    back := SomeReads(was, now, hunks, q + 1, i', j', olds, news);
    AroundReads(was, now, hunks, q, olds, news, front, block, back);
  }

  lemma {:induction false} TwoSidedHunk<T>(was: seq<T>, now: seq<T>, hunks: seq<Hunk>, k: nat, i: nat, j: nat,
                                           olds: Held, news: Held)
    returns (q: nat)
    requires Valid(was, now, hunks, k, i, j) && !OneSided(was, now, hunks, k, i, j, olds, news)
    ensures q < |hunks| && HunkFits(was, now, hunks[q])
    ensures KeptOld(was, hunks[q], olds) != [] && KeptNew(now, hunks[q], news) != []
    decreases |hunks| - k
  {
    var h := hunks[k];
    if KeptOld(was, h, olds) != [] && KeptNew(now, h, news) != [] {
      q := k;
    } else {
      q := TwoSidedHunk(was, now, hunks, k + 1, OldAt(h) + h.oldCount, NewAt(h) + h.newCount, olds, news);
    }
  }

  lemma {:induction false} SubseqOne<T>(x: T, a: seq<T>)
    requires x in a
    ensures IsSubseq([x], a)
  {
    if a[|a| - 1] == x {
      assert [x][..0] == [];
    } else {
      SubseqOne(x, a[..|a| - 1]);
    }
  }

  lemma PairAcross<T>(x: T, y: T, a: seq<T>, b: seq<T>)
    requires x in a && y in b
    ensures IsSubseq([x, y], a + b)
  {
    SubseqOne(x, a);
    SubseqOne(y, b);
    SubseqConcat([x], a, [y], b);
    assert [x] + [y] == [x, y];
  }

  /** Two lines of a text stand in one order or the other. */
  lemma PairEither<T>(x: T, y: T, a: seq<T>)
    requires x in a && y in a && x != y
    ensures IsSubseq([x, y], a) || IsSubseq([y, x], a)
  {
    var i, j :| 0 <= i < |a| && 0 <= j < |a| && a[i] == x && a[j] == y;
    if i < j {
      assert a == a[..j] + a[j..] && a[..j][i] == x && a[j..][0] == y;
      PairAcross(x, y, a[..j], a[j..]);
    } else {
      assert a == a[..i] + a[i..] && a[..i][j] == y && a[i..][0] == x;
      PairAcross(y, x, a[..i], a[i..]);
    }
  }

  lemma PairTail<T>(x: T, y: T, a: seq<T>)
    requires x != y && IsSubseq([x, y], a)
    ensures a != [] && if a[|a| - 1] == y then x in a[..|a| - 1] else IsSubseq([x, y], a[..|a| - 1])
  {
    var a' := a[..|a| - 1];
    assert [x, y][..1] == [x];
    if IsSubseq([x, y], a') {
      SubseqBag([x, y], a');
      assert x in multiset([x, y]);
    } else {
      SubseqBag([x], a');
      assert x in multiset([x]);
    }
  }

  lemma PairMember<T>(x: T, y: T, a: seq<T>)
    requires IsSubseq([x, y], a)
    ensures x in a && y in a
  {
    SubseqBag([x, y], a);
    assert multiset([x, y])[x] >= 1 && multiset([x, y])[y] >= 1;
    assert x in multiset(a) && y in multiset(a);
  }

  /** In both orders only when one of them stands twice. */
  lemma {:induction false} PairBoth<T>(x: T, y: T, a: seq<T>)
    requires x != y && IsSubseq([x, y], a) && IsSubseq([y, x], a)
    ensures Moved.Tally(a, x) > 1 || Moved.Tally(a, y) > 1
  {
    PairTail(x, y, a);
    PairTail(y, x, a);
    var a', z := a[..|a| - 1], a[|a| - 1];
    assert a == a' + [z];
    Moved.TallySnoc(a', z, x);
    Moved.TallySnoc(a', z, y);
    if z == y {
      PairMember(y, x, a');
    } else if z == x {
      PairMember(x, y, a');
    } else {
      PairBoth(x, y, a');
    }
  }

  /** An old and a new row of one hunk that stay, in opposite orders before and after. */
  ghost predicate Opposed<T>(before: seq<T>, index: seq<T>, x: T, y: T)
  {
    x != y && IsSubseq([y, x], before) && IsSubseq([x, y], index)
  }

  /** Two lines that do not leave and stand once each in opposite orders: the write is refused. */
  lemma OpposedRefused<T(!new)>(before: seq<T>, index: seq<T>, leave: seq<T>, enter: seq<T>, x: T, y: T)
    requires Opposed(before, index, x, y) && multiset(leave) !! multiset(enter) && x !in leave && y !in leave
    requires Moved.Tally(before, x) <= 1 && Moved.Tally(before, y) <= 1
    requires Moved.Tally(index, x) <= 1 && Moved.Tally(index, y) <= 1
    ensures !Moved.Accepts(before, index, leave, enter)
  {
    if Moved.Accepts(before, index, leave, enter) {
      Moved.AcceptedIsEdit(before, index, leave, enter);
      var kept :| Moved.EditKeeping(before, index, leave, enter, kept);
      SubseqBag([y, x], before);
      assert multiset([y, x])[x] == 1 && multiset([y, x])[y] == 1;
      assert multiset(before)[x] >= 1 && multiset(before)[y] >= 1;
      assert x in multiset(kept) && y in multiset(kept);
      PairEither(x, y, kept);
      if IsSubseq([x, y], kept) {
        SubseqTransitive([x, y], kept, before);
        PairBoth(x, y, before);
      } else {
        SubseqTransitive([y, x], kept, index);
        PairBoth(x, y, index);
      }
    }
  }

  lemma KeptMember<T>(side: seq<T>, at: nat, count: nat, s: Held, k: Held, x: T)
    requires at + count <= |side| && Sub(s, k) && x in Kept(side, at, count, s)
    ensures x in Kept(side, at, count, k)
  {
    KeptSub(side, at, count, s, k);
    SubseqBag(Kept(side, at, count, s), Kept(side, at, count, k));
    assert x in multiset(Kept(side, at, count, s));
  }

  /** A row that stays does not leave. */
  lemma StayersStay<T(!new)>(was: seq<T>, now: seq<T>, hunks: seq<Hunk>, marks: Picks, sel: Picks, take: Option<bool>,
                             before: seq<T>, m: Moving<T>, q: nat, x: T)
    requires Valid(was, now, hunks, 0, 0, 0) && OfRows(was, now, hunks, sel) && Distinct(was, now, hunks)
    requires MovesRows(was, now, marks, sel, take, m)
    requires Reads(was, now, hunks, 0, 0, 0, IndexOlds(marks, sel, None), IndexNews(marks, sel, None), before, 0)
    requires q < |hunks| && HunkFits(was, now, hunks[q])
    requires x in Stay(was, now, hunks[q], StayOlds(marks, sel, take), StayNews(marks, sel, take))
    ensures x !in m.indexLeave
  {
    var s, r, h := StayOlds(marks, sel, take), StayNews(marks, sel, take), hunks[q];
    var block := Stay(was, now, h, s, r);
    ShuffleEnd(KeptOld(was, h, s), KeptNew(now, h, r));
    var front, back := ReadsWith(was, now, hunks, q, s, r, block);
    var text := front + block + back;
    assert x in multiset(text);
    ReadsCount(was, now, hunks, s, r, text, Is(x));
    CopiesIsTally(text, x);
    StayingCount(was, now, hunks, 0, 0, 0, s, r, Is(x));
    CopiesIsTally(Staying(was, now, hunks, 0, 0, 0, s, r), x);
    LeavesTheRest(was, now, hunks, marks, sel, take, before, m, x);
    OnceEach(was, now, hunks, IndexOlds(marks, sel, None), IndexNews(marks, sel, None), before, x);
    assert Moved.Tally(m.indexLeave, x) == 0;
  }

  /** With no line twice: whenever an old and a new row of one hunk both stay, the index before
      may hold them in one order and the written one in the other, each in place, and the check
      on what moved refuses the write. */
  lemma PlacedYetRefused<T(!new)>(was: seq<T>, now: seq<T>, hunks: seq<Hunk>, marks: Picks, sel: Picks,
                                  take: Option<bool>, m: Moving<T>)
    returns (before: seq<T>, index: seq<T>)
    requires Valid(was, now, hunks, 0, 0, 0) && OfRows(was, now, hunks, sel) && Distinct(was, now, hunks)
    requires MovesRows(was, now, marks, sel, take, m)
    requires !OneSided(was, now, hunks, 0, 0, 0, StayOlds(marks, sel, take), StayNews(marks, sel, take))
    ensures Reads(was, now, hunks, 0, 0, 0, IndexOlds(marks, sel, None), IndexNews(marks, sel, None), before, 0)
    ensures var t := Some(take == Some(true));
            Reads(was, now, hunks, 0, 0, 0, IndexOlds(marks, sel, t), IndexNews(marks, sel, t), index, 0)
    ensures !Moved.Accepts(before, index, m.indexLeave, m.indexEnter)
  {
    var t, s, r := Some(take == Some(true)), StayOlds(marks, sel, take), StayNews(marks, sel, take);
    var olds, news, olds', news' := IndexOlds(marks, sel, None), IndexNews(marks, sel, None), IndexOlds(marks, sel, t),
                                    IndexNews(marks, sel, t);
    var q := TwoSidedHunk(was, now, hunks, 0, 0, 0, s, r);
    var x, y := KeptOld(was, hunks[q], s)[0], KeptNew(now, hunks[q], r)[0];
    before := NewFirst(was, now, hunks, q, olds, news, s, r, x, y);
    index := OldFirst(was, now, hunks, q, olds', news', s, r, x, y);
    StayersStay(was, now, hunks, marks, sel, take, before, m, q, x);
    StayersStay(was, now, hunks, marks, sel, take, before, m, q, y);
    MovesApart(was, now, hunks, marks, sel, take, m);
    OnceEach(was, now, hunks, olds, news, before, x);
    OnceEach(was, now, hunks, olds, news, before, y);
    OnceEach(was, now, hunks, olds', news', index, x);
    OnceEach(was, now, hunks, olds', news', index, y);
    OldNewDiffer(was, now, hunks, q, s, r, x, y);
    OpposedRefused(before, index, m.indexLeave, m.indexEnter, x, y);
  }

  lemma OldFirst<T>(was: seq<T>, now: seq<T>, hunks: seq<Hunk>, q: nat, olds: Held, news: Held, s: Held, r: Held, x: T,
                    y: T)
    returns (text: seq<T>)
    requires Valid(was, now, hunks, 0, 0, 0) && q < |hunks| && HunkFits(was, now, hunks[q])
    requires Sub(s, olds) && Sub(r, news) && x in KeptOld(was, hunks[q], s) && y in KeptNew(now, hunks[q], r)
    ensures Reads(was, now, hunks, 0, 0, 0, olds, news, text, 0) && IsSubseq([x, y], text)
  {
    var h := hunks[q];
    var a, b := KeptOld(was, h, olds), KeptNew(now, h, news);
    ShuffleEnd(a, b);
    var front, back := ReadsWith(was, now, hunks, q, olds, news, a + b);
    text := front + (a + b) + back;
    KeptMember(was, OldAt(h), h.oldCount, s, olds, x);
    KeptMember(now, NewAt(h), h.newCount, r, news, y);
    assert text == (front + a) + (b + back);
    PairAcross(x, y, front + a, b + back);
  }

  lemma NewFirst<T>(was: seq<T>, now: seq<T>, hunks: seq<Hunk>, q: nat, olds: Held, news: Held, s: Held, r: Held, x: T,
                    y: T)
    returns (text: seq<T>)
    requires Valid(was, now, hunks, 0, 0, 0) && q < |hunks| && HunkFits(was, now, hunks[q])
    requires Sub(s, olds) && Sub(r, news) && x in KeptOld(was, hunks[q], s) && y in KeptNew(now, hunks[q], r)
    ensures Reads(was, now, hunks, 0, 0, 0, olds, news, text, 0) && IsSubseq([y, x], text)
  {
    var h := hunks[q];
    var a, b := KeptOld(was, h, olds), KeptNew(now, h, news);
    ShuffleEnd(b, a);
    ShuffleFlip(b, a, b + a);
    var front, back := ReadsWith(was, now, hunks, q, olds, news, b + a);
    text := front + (b + a) + back;
    KeptMember(was, OldAt(h), h.oldCount, s, olds, x);
    KeptMember(now, NewAt(h), h.newCount, r, news, y);
    assert text == (front + b) + (a + back);
    PairAcross(y, x, front + b, a + back);
  }

  lemma OldNewDiffer<T(!new)>(was: seq<T>, now: seq<T>, hunks: seq<Hunk>, q: nat, s: Held, r: Held, x: T, y: T)
    requires Valid(was, now, hunks, 0, 0, 0) && Distinct(was, now, hunks) && q < |hunks| && HunkFits(was, now, hunks[q])
    requires x in KeptOld(was, hunks[q], s) && y in KeptNew(now, hunks[q], r)
    ensures x != y
  {
    var text := OldFirst(was, now, hunks, q, s, r, s, r, x, y);
    OnceEach(was, now, hunks, s, r, text, x);
    SubseqBag([x, y], text);
    assert multiset([x, y])[x] >= 1;
    assert x == y ==> multiset([x, y])[x] == 2;
  }

  /** With no line twice among the unchanged lines and the rows: placement implies the check on
      what moved, on all texts, exactly when in every hunk the rows that stay are on one side. */
  lemma PlacementMovesExactly<T(!new)>(was: seq<T>, now: seq<T>, hunks: seq<Hunk>, marks: Picks, sel: Picks,
                                       take: Option<bool>,
                                       m: Moving<T>)
    requires Valid(was, now, hunks, 0, 0, 0) && OfRows(was, now, hunks, sel) && Distinct(was, now, hunks)
    requires MovesRows(was, now, marks, sel, take, m)
    ensures (forall before, index ::
               && Reads(was, now, hunks, 0, 0, 0, IndexOlds(marks, sel, None), IndexNews(marks, sel, None), before, 0)
               && Reads(was, now, hunks, 0, 0, 0, IndexOlds(marks, sel, Some(take == Some(true))),
                        IndexNews(marks, sel, Some(take == Some(true))), index, 0)
               ==> Moved.Accepts(before, index, m.indexLeave, m.indexEnter))
       <==> OneSided(was, now, hunks, 0, 0, 0, StayOlds(marks, sel, take), StayNews(marks, sel, take))
  {
    if OneSided(was, now, hunks, 0, 0, 0, StayOlds(marks, sel, take), StayNews(marks, sel, take)) {
      forall before, index |
        && Reads(was, now, hunks, 0, 0, 0, IndexOlds(marks, sel, None), IndexNews(marks, sel, None), before, 0)
        && Reads(was, now, hunks, 0, 0, 0, IndexOlds(marks, sel, Some(take == Some(true))),
                 IndexNews(marks, sel, Some(take == Some(true))), index, 0)
        ensures Moved.Accepts(before, index, m.indexLeave, m.indexEnter)
      {
        PlacementIsEdit(was, now, hunks, marks, sel, take, before, index, m);
      }
    } else {
      var before, index := PlacedYetRefused(was, now, hunks, marks, sel, take, m);
    }
  }
}
