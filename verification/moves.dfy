/** The line texts an operation moves in and out of the index and the file, and why a placed
    write balances them. */
module Moves {
  import opened Wrappers
  import opened Diff
  import opened Placed
  import opened Counts
  import opened Staging
  import Moved

  datatype Moving<+T> = Moving(indexLeave: seq<T>, indexEnter: seq<T>, workLeave: seq<T>, workEnter: seq<T>)

  /** The picked rows whose staged state the operation changes; no `take` means reverting. */
  function Flipped(marks: set<nat>, picked: set<nat>, take: Option<bool>): set<nat>
  {
    if take == Some(true) then picked - marks else picked * marks
  }

  /** How many of the numbered lines are `x`. */
  ghost function Picked<T>(side: seq<T>, s: set<nat>, x: T): nat
  {
    |set l: nat | l in s && 1 <= l <= |side| && side[l - 1] == x|
  }

  lemma PickedNone<T>(side: seq<T>, x: T)
    ensures Picked(side, {}, x) == 0
  {
  }

  lemma PickedAdd<T>(side: seq<T>, s: set<nat>, l: nat, x: T)
    requires 1 <= l <= |side| && l !in s
    ensures Picked(side, s + {l}, x) == Picked(side, s, x) + if side[l - 1] == x then 1 else 0
  {
    var was := set k: nat | k in s && 1 <= k <= |side| && side[k - 1] == x;
    var now := set k: nat | k in s + {l} && 1 <= k <= |side| && side[k - 1] == x;
    assert now == if side[l - 1] == x then was + {l} else was;
  }

  ghost predicate Lists<T(!new)>(lines: seq<T>, side: seq<T>, s: set<nat>)
  {
    forall x :: Moved.Tally(lines, x) == Picked(side, s, x)
  }

  lemma ListsAdd<T(!new)>(lines: seq<T>, side: seq<T>, s: set<nat>, l: nat)
    requires 1 <= l <= |side| && l !in s && Lists(lines, side, s)
    ensures Lists(lines + [side[l - 1]], side, s + {l})
  {
    forall x
      ensures Moved.Tally(lines + [side[l - 1]], x) == Picked(side, s + {l}, x)
    {
      PickedAdd(side, s, l, x);
      Moved.TallySnoc(lines, side[l - 1], x);
      assert Moved.Tally(lines, x) == Picked(side, s, x);
    }
  }

  lemma FlippedAdd(marks: set<nat>, done: set<nat>, take: Option<bool>, l: nat)
    requires l !in done
    ensures l !in Flipped(marks, done, take)
    ensures Flipped(marks, done + {l}, take)
         == if (l in marks) != (take == Some(true)) then Flipped(marks, done, take) + {l}
            else Flipped(marks, done, take)
  {
  }

  lemma FlippedListed<T(!new)>(lines: seq<T>, side: seq<T>, marks: set<nat>, done: set<nat>, take: Option<bool>, l: nat)
    requires 1 <= l <= |side| && l !in done && Lists(lines, side, Flipped(marks, done, take))
    ensures Lists(if (l in marks) != (take == Some(true)) then lines + [side[l - 1]] else lines, side,
                  Flipped(marks, done + {l}, take))
  {
    FlippedAdd(marks, done, take, l);
    if (l in marks) != (take == Some(true)) {
      ListsAdd(lines, side, Flipped(marks, done, take), l);
    }
  }

  /** Goes through one side's picked rows in whatever order the table gives them: each joins
      `all`, and `flipped` when its staged state changes. */
  method Gather<T(==,!new)>(side: seq<T>, marks: set<nat>, picked: set<nat>, take: Option<bool>)
    returns (all: seq<T>, flipped: seq<T>)
    requires forall l | l in picked :: 1 <= l <= |side|
    ensures Lists(all, side, picked) && Lists(flipped, side, Flipped(marks, picked, take))
  {
    all, flipped := [], [];
    var left := picked;
    ghost var done: set<nat> := {};
    while left != {}
      invariant left !! done && left + done == picked
      invariant Lists(all, side, done)
      invariant Lists(flipped, side, Flipped(marks, done, take))
      decreases left
    {
      var l :| l in left;
      assert l in picked && l !in done;
      ListsAdd(all, side, done, l);
      FlippedListed(flipped, side, marks, done, take, l);
      all := all + [side[l - 1]];
      if (l in marks) != (take == Some(true)) {
        flipped := flipped + [side[l - 1]];
      }
      left, done := left - {l}, done + {l};
    }
    assert done == picked;
  }

  /** What moves: staging takes old rows out of the index and puts new rows in, anything else
      the reverse; reverting also puts the picked old rows in the file and takes the new out. */
  method MovesOf<T(==,!new)>(was: seq<T>, now: seq<T>, marks: Picks, sel: Picks, take: Option<bool>)
    returns (m: Moving<T>)
    requires forall l | l in sel.olds :: 1 <= l <= |was|
    requires forall l | l in sel.news :: 1 <= l <= |now|
    ensures MovesRows(was, now, marks, sel, take, m)
  {
    var olds, oldFlips := Gather(was, marks.olds, sel.olds, take);
    var news, newFlips := Gather(now, marks.news, sel.news, take);
    match take
    case None => m := Moving(newFlips, oldFlips, news, olds);
    case Some(true) => m := Moving(oldFlips, newFlips, [], []);
    case Some(false) => m := Moving(newFlips, oldFlips, [], []);
  }

  ghost predicate MovesRows<T(!new)>(was: seq<T>, now: seq<T>, marks: Picks, sel: Picks, take: Option<bool>,
                                     m: Moving<T>)
  {
    var oldFlips, newFlips := Flipped(marks.olds, sel.olds, take), Flipped(marks.news, sel.news, take);
    && (if take == Some(true) then Lists(m.indexLeave, was, oldFlips) && Lists(m.indexEnter, now, newFlips)
        else Lists(m.indexEnter, was, oldFlips) && Lists(m.indexLeave, now, newFlips))
    && (if take == None then Lists(m.workEnter, was, sel.olds) && Lists(m.workLeave, now, sel.news)
        else m.workEnter == [] && m.workLeave == [])
  }

  // ----- row numbers -----

  /** The `count` numbers after `at`. */
  function Numbers(at: nat, count: nat): (s: set<nat>)
    ensures forall l: nat :: l in s <==> at < l <= at + count
  {
    if count == 0 then {} else Numbers(at, count - 1) + {at + count}
  }

  /** The line numbers of every hunk's rows on each side. */
  function OldNumbers<T(==)>(was: seq<T>, now: seq<T>, hunks: seq<Hunk>, k: nat, i: nat, j: nat): (s: set<nat>)
    requires Valid(was, now, hunks, k, i, j)
    ensures forall l | l in s :: i < l <= |was|
    decreases |hunks| - k
  {
    if k == |hunks| then {}
    else
      var h := hunks[k];
      Numbers(OldAt(h), h.oldCount)
      + OldNumbers(was, now, hunks, k + 1, OldAt(h) + h.oldCount, NewAt(h) + h.newCount)
  }

  function NewNumbers<T(==)>(was: seq<T>, now: seq<T>, hunks: seq<Hunk>, k: nat, i: nat, j: nat): (s: set<nat>)
    requires Valid(was, now, hunks, k, i, j)
    ensures forall l | l in s :: j < l <= |now|
    decreases |hunks| - k
  {
    if k == |hunks| then {}
    else
      var h := hunks[k];
      Numbers(NewAt(h), h.newCount)
      + NewNumbers(was, now, hunks, k + 1, OldAt(h) + h.oldCount, NewAt(h) + h.newCount)
  }

  function Is<T(==)>(x: T): Test<T>
  {
    (line: T) => line == x
  }

  lemma {:induction false} CopiesIsTally<T>(lines: seq<T>, x: T)
    ensures Copies(lines, Is(x)) == Moved.Tally(lines, x)
  {
    if lines == [] {
      CopiesNone(Is(x));
    } else {
      var init, last := lines[..|lines| - 1], lines[|lines| - 1];
      assert lines == init + [last];
      CopiesIsTally(init, x);
      CopiesSnoc(init, last, Is(x));
      Moved.TallySnoc(init, last, x);
    }
  }

  lemma PickedNext<T>(side: seq<T>, s: set<nat>, at: nat, count: nat, x: T)
    requires count > 0 && at + count <= |side|
    ensures Picked(side, s * Numbers(at, count), x)
         == Picked(side, s * Numbers(at, count - 1), x) + if at + count in s && side[at + count - 1] == x then 1 else 0
  {
    var some, l := s * Numbers(at, count - 1), at + count;
    assert s * Numbers(at, count) == if l in s then some + {l} else some;
    if l in s {
      PickedAdd(side, some, l, x);
    }
  }

  lemma {:induction false} KeptNumbers<T>(side: seq<T>, at: nat, count: nat, s: set<nat>, x: T)
    requires at + count <= |side|
    ensures Copies(Kept(side, at, count, (l: nat) => l in s), Is(x)) == Picked(side, s * Numbers(at, count), x)
  {
    var held: Held := (l: nat) => l in s;
    if count == 0 {
      assert s * Numbers(at, count) == {};
      PickedNone(side, x);
      CopiesNone(Is(x));
    } else {
      KeptNumbers(side, at, count - 1, s, x);
      KeptNext(side, at, count, held, Is(x));
      PickedNext(side, s, at, count, x);
    }
  }

  lemma PickedUnion<T>(side: seq<T>, s: set<nat>, t: set<nat>, x: T)
    requires s !! t
    ensures Picked(side, s + t, x) == Picked(side, s, x) + Picked(side, t, x)
  {
    var a := set k: nat | k in s && 1 <= k <= |side| && side[k - 1] == x;
    var b := set k: nat | k in t && 1 <= k <= |side| && side[k - 1] == x;
    assert (set k: nat | k in s + t && 1 <= k <= |side| && side[k - 1] == x) == a + b;
  }

  lemma {:induction false} OldRowsPicked<T>(was: seq<T>, now: seq<T>, hunks: seq<Hunk>, k: nat, i: nat, j: nat,
                                            s: set<nat>, x: T)
    requires Valid(was, now, hunks, k, i, j)
    ensures Copies(OldRows(was, now, hunks, k, i, j, (l: nat) => l in s), Is(x))
         == Picked(was, s * OldNumbers(was, now, hunks, k, i, j), x)
    decreases |hunks| - k
  {
    if k == |hunks| {
      assert s * {} == {};
      PickedNone(was, x);
    } else {
      var h := hunks[k];
      var i', j' := OldAt(h) + h.oldCount, NewAt(h) + h.newCount;
      var held: Held := (l: nat) => l in s;
      OldRowsPicked(was, now, hunks, k + 1, i', j', s, x);
      KeptNumbers(was, OldAt(h), h.oldCount, s, x);
      CopiesConcat(KeptOld(was, h, held), OldRows(was, now, hunks, k + 1, i', j', held), Is(x));
      var here, later := Numbers(OldAt(h), h.oldCount), OldNumbers(was, now, hunks, k + 1, i', j');
      PickedUnion(was, s * here, s * later, x);
      assert s * (here + later) == s * here + s * later;
    }
  }

  lemma {:induction false} NewRowsPicked<T>(was: seq<T>, now: seq<T>, hunks: seq<Hunk>, k: nat, i: nat, j: nat,
                                            s: set<nat>, x: T)
    requires Valid(was, now, hunks, k, i, j)
    ensures Copies(NewRows(was, now, hunks, k, i, j, (l: nat) => l in s), Is(x))
         == Picked(now, s * NewNumbers(was, now, hunks, k, i, j), x)
    decreases |hunks| - k
  {
    if k == |hunks| {
      assert s * {} == {};
      PickedNone(now, x);
    } else {
      var h := hunks[k];
      var i', j' := OldAt(h) + h.oldCount, NewAt(h) + h.newCount;
      var held: Held := (l: nat) => l in s;
      NewRowsPicked(was, now, hunks, k + 1, i', j', s, x);
      KeptNumbers(now, NewAt(h), h.newCount, s, x);
      CopiesConcat(KeptNew(now, h, held), NewRows(was, now, hunks, k + 1, i', j', held), Is(x));
      var here, later := Numbers(NewAt(h), h.newCount), NewNumbers(was, now, hunks, k + 1, i', j');
      PickedUnion(now, s * here, s * later, x);
      assert s * (here + later) == s * here + s * later;
    }
  }

  /** Two holds agree on every row. */
  ghost predicate Agree<T>(was: seq<T>, now: seq<T>, hunks: seq<Hunk>, k: nat, i: nat, j: nat,
                           olds: Held, news: Held, olds': Held, news': Held)
    requires Valid(was, now, hunks, k, i, j)
  {
    && (forall l | l in OldNumbers(was, now, hunks, k, i, j) :: olds(l) <==> olds'(l))
    && (forall l | l in NewNumbers(was, now, hunks, k, i, j) :: news(l) <==> news'(l))
  }

  lemma {:induction false} KeptAgree<T>(side: seq<T>, at: nat, count: nat, s: Held, t: Held)
    requires at + count <= |side| && forall l | l in Numbers(at, count) :: s(l) <==> t(l)
    ensures Kept(side, at, count, s) == Kept(side, at, count, t)
  {
    if count > 0 {
      KeptAgree(side, at, count - 1, s, t);
    }
  }

  lemma {:induction false} MergesAgree<T>(was: seq<T>, now: seq<T>, hunks: seq<Hunk>, k: nat, i: nat, j: nat,
                                          olds: Held, news: Held, olds': Held, news': Held, blocks: seq<seq<T>>)
    requires Valid(was, now, hunks, k, i, j) && Agree(was, now, hunks, k, i, j, olds, news, olds', news')
    ensures Merges(was, now, hunks, k, i, j, olds, news, blocks) <==>
            Merges(was, now, hunks, k, i, j, olds', news', blocks)
    decreases |hunks| - k
  {
    if k < |hunks| && |blocks| == |hunks| - k {
      var h := hunks[k];
      KeptAgree(was, OldAt(h), h.oldCount, olds, olds');
      KeptAgree(now, NewAt(h), h.newCount, news, news');
      MergesAgree(was, now, hunks, k + 1, OldAt(h) + h.oldCount, NewAt(h) + h.newCount, olds, news, olds', news',
                  blocks[1..]);
    }
  }

  /** Only what the holds say of the rows matters. */
  lemma ReadsAgree<T(!new)>(was: seq<T>, now: seq<T>, hunks: seq<Hunk>, olds: Held, news: Held, olds': Held,
                            news': Held,
                            text: seq<T>)
    requires Valid(was, now, hunks, 0, 0, 0) && Agree(was, now, hunks, 0, 0, 0, olds, news, olds', news')
    ensures Reads(was, now, hunks, 0, 0, 0, olds, news, text, 0) <==> Reads(was, now, hunks, 0, 0, 0, olds', news',
        text, 0)
  {
    ReadsMeansJoined(was, now, hunks, 0, 0, 0, olds, news, text);
    ReadsMeansJoined(was, now, hunks, 0, 0, 0, olds', news', text);
    forall blocks
      ensures Merges(was, now, hunks, 0, 0, 0, olds, news, blocks) <==>
              Merges(was, now, hunks, 0, 0, 0, olds', news', blocks)
    {
      MergesAgree(was, now, hunks, 0, 0, 0, olds, news, olds', news', blocks);
    }
  }

  lemma {:induction false} RowsAgree<T>(was: seq<T>, now: seq<T>, hunks: seq<Hunk>, k: nat, i: nat, j: nat,
                                        olds: Held, news: Held, olds': Held, news': Held)
    requires Valid(was, now, hunks, k, i, j) && Agree(was, now, hunks, k, i, j, olds, news, olds', news')
    ensures OldRows(was, now, hunks, k, i, j, olds) == OldRows(was, now, hunks, k, i, j, olds')
    ensures NewRows(was, now, hunks, k, i, j, news) == NewRows(was, now, hunks, k, i, j, news')
    decreases |hunks| - k
  {
    if k < |hunks| {
      var h := hunks[k];
      KeptAgree(was, OldAt(h), h.oldCount, olds, olds');
      KeptAgree(now, NewAt(h), h.newCount, news, news');
      RowsAgree(was, now, hunks, k + 1, OldAt(h) + h.oldCount, NewAt(h) + h.newCount, olds, news, olds', news');
    }
  }

  /** The selection names only rows the diff shows. */
  predicate OfRows<T(==)>(was: seq<T>, now: seq<T>, hunks: seq<Hunk>, sel: Picks)
    requires Valid(was, now, hunks, 0, 0, 0)
  {
    sel.olds <= OldNumbers(was, now, hunks, 0, 0, 0) && sel.news <= NewNumbers(was, now, hunks, 0, 0, 0)
  }

  lemma PickedOld<T>(was: seq<T>, now: seq<T>, hunks: seq<Hunk>, s: set<nat>, x: T)
    requires Valid(was, now, hunks, 0, 0, 0) && s <= OldNumbers(was, now, hunks, 0, 0, 0)
    ensures InOld(was, now, hunks, (l: nat) => l in s, Is(x)) == Picked(was, s, x)
  {
    OldRowsPicked(was, now, hunks, 0, 0, 0, s, x);
    assert s * OldNumbers(was, now, hunks, 0, 0, 0) == s;
  }

  lemma PickedNew<T>(was: seq<T>, now: seq<T>, hunks: seq<Hunk>, s: set<nat>, x: T)
    requires Valid(was, now, hunks, 0, 0, 0) && s <= NewNumbers(was, now, hunks, 0, 0, 0)
    ensures InNew(was, now, hunks, (l: nat) => l in s, Is(x)) == Picked(now, s, x)
  {
    NewRowsPicked(was, now, hunks, 0, 0, 0, s, x);
    assert s * NewNumbers(was, now, hunks, 0, 0, 0) == s;
  }

  // ----- placement balances what moves -----

  /** The index written, when it and the one before it both read as the rows, holds what the
      one before did with the leaving lines out and the entering lines in. */
  lemma IndexBalances<T(!new)>(was: seq<T>, now: seq<T>, hunks: seq<Hunk>, marks: Picks, sel: Picks, take: Option<bool>,
                      before: seq<T>, index: seq<T>, m: Moving<T>)
    requires Valid(was, now, hunks, 0, 0, 0) && OfRows(was, now, hunks, sel)
    requires MovesRows(was, now, marks, sel, take, m)
    requires Reads(was, now, hunks, 0, 0, 0, IndexOlds(marks, sel, None), IndexNews(marks, sel, None), before, 0)
    requires var t := Some(take == Some(true));
             Reads(was, now, hunks, 0, 0, 0, IndexOlds(marks, sel, t), IndexNews(marks, sel, t), index, 0)
    ensures multiset(before) + multiset(m.indexEnter) == multiset(index) + multiset(m.indexLeave)
  {
    forall x
      ensures (multiset(before) + multiset(m.indexEnter))[x] == (multiset(index) + multiset(m.indexLeave))[x]
    {
      IndexLineBalances(was, now, hunks, marks, sel, take, before, index, m, x);
    }
  }

  lemma IndexLineBalances<T(!new)>(was: seq<T>, now: seq<T>, hunks: seq<Hunk>, marks: Picks, sel: Picks,
                                   take: Option<bool>,
                          before: seq<T>, index: seq<T>, m: Moving<T>, x: T)
    requires Valid(was, now, hunks, 0, 0, 0) && OfRows(was, now, hunks, sel)
    requires MovesRows(was, now, marks, sel, take, m)
    requires Reads(was, now, hunks, 0, 0, 0, IndexOlds(marks, sel, None), IndexNews(marks, sel, None), before, 0)
    requires var t := Some(take == Some(true));
             Reads(was, now, hunks, 0, 0, 0, IndexOlds(marks, sel, t), IndexNews(marks, sel, t), index, 0)
    ensures Moved.Tally(before, x) + Moved.Tally(m.indexEnter, x)
         == Moved.Tally(index, x) + Moved.Tally(m.indexLeave, x)
  {
    var t, p := Some(take == Some(true)), Is(x);
    var olds, news, olds', news' := IndexOlds(marks, sel, None), IndexNews(marks, sel, None), IndexOlds(marks, sel, t),
                                    IndexNews(marks, sel, t);
    var oldFlips, newFlips := Flipped(marks.olds, sel.olds, take), Flipped(marks.news, sel.news, take);
    ReadsCount(was, now, hunks, olds, news, before, p);
    ReadsCount(was, now, hunks, olds', news', index, p);
    CopiesIsTally(before, x);
    CopiesIsTally(index, x);
    PickedOld(was, now, hunks, oldFlips, x);
    PickedNew(was, now, hunks, newFlips, x);
    OldsFlip(was, now, hunks, marks, sel, take, p);
    NewsFlip(was, now, hunks, marks, sel, take, p);
    assert take == Some(true) ==>
        Moved.Tally(m.indexLeave, x) == Picked(was, oldFlips, x)
            && Moved.Tally(m.indexEnter, x) == Picked(now, newFlips, x);
    assert take != Some(true) ==>
        Moved.Tally(m.indexEnter, x) == Picked(was, oldFlips, x)
            && Moved.Tally(m.indexLeave, x) == Picked(now, newFlips, x);
  }

  lemma OldsFlip<T>(was: seq<T>, now: seq<T>, hunks: seq<Hunk>, marks: Picks, sel: Picks, take: Option<bool>,
                    p: Test<T>)
    requires Valid(was, now, hunks, 0, 0, 0)
    ensures var before := InOld(was, now, hunks, IndexOlds(marks, sel, None), p);
            var after := InOld(was, now, hunks, IndexOlds(marks, sel, Some(take == Some(true))), p);
            var flips := InOld(was, now, hunks, (l: nat) => l in Flipped(marks.olds, sel.olds, take), p);
            if take == Some(true) then before == after + flips else after == before + flips
  {
    var t := Some(take == Some(true));
    var olds, olds', flips: Held := IndexOlds(marks, sel, None), IndexOlds(marks, sel, t),
                                    (l: nat) => l in Flipped(marks.olds, sel.olds, take);
    if take == Some(true) {
      OldParts(was, now, hunks, 0, 0, 0, olds, olds', flips, p);
    } else {
      OldParts(was, now, hunks, 0, 0, 0, olds', olds, flips, p);
    }
  }

  lemma NewsFlip<T>(was: seq<T>, now: seq<T>, hunks: seq<Hunk>, marks: Picks, sel: Picks, take: Option<bool>,
                    p: Test<T>)
    requires Valid(was, now, hunks, 0, 0, 0)
    ensures var before := InNew(was, now, hunks, IndexNews(marks, sel, None), p);
            var after := InNew(was, now, hunks, IndexNews(marks, sel, Some(take == Some(true))), p);
            var flips := InNew(was, now, hunks, (l: nat) => l in Flipped(marks.news, sel.news, take), p);
            if take == Some(true) then after == before + flips else before == after + flips
  {
    var t := Some(take == Some(true));
    var news, news', flips: Held := IndexNews(marks, sel, None), IndexNews(marks, sel, t),
                                    (l: nat) => l in Flipped(marks.news, sel.news, take);
    if take == Some(true) {
      NewParts(was, now, hunks, 0, 0, 0, news', news, flips, p);
    } else {
      NewParts(was, now, hunks, 0, 0, 0, news, news', flips, p);
    }
  }

  /** A file written by reverting, when it reads as the rows, holds what the file did with the
      leaving lines out and the entering lines in. */
  lemma WorkBalances<T(!new)>(was: seq<T>, now: seq<T>, hunks: seq<Hunk>, marks: Picks, sel: Picks, written: seq<T>,
                              m: Moving<T>)
    requires Valid(was, now, hunks, 0, 0, 0) && OfRows(was, now, hunks, sel)
    requires MovesRows(was, now, marks, sel, None, m)
    requires Reads(was, now, hunks, 0, 0, 0, WorkOlds(sel), WorkNews(sel), written, 0)
    ensures multiset(now) + multiset(m.workEnter) == multiset(written) + multiset(m.workLeave)
  {
    forall x
      ensures (multiset(now) + multiset(m.workEnter))[x] == (multiset(written) + multiset(m.workLeave))[x]
    {
      var p := Is(x);
      SidesCount(was, now, hunks, p);
      ReadsCount(was, now, hunks, WorkOlds(sel), WorkNews(sel), written, p);
      CopiesIsTally(now, x);
      CopiesIsTally(written, x);
      PickedOld(was, now, hunks, sel.olds, x);
      PickedNew(was, now, hunks, sel.news, x);
      OldParts(was, now, hunks, 0, 0, 0, WorkOlds(sel), (l: nat) => l in sel.olds, l => false, p);
      OldParts(was, now, hunks, 0, 0, 0, l => false, l => false, l => false, p);
      NewParts(was, now, hunks, 0, 0, 0, l => true, WorkNews(sel), (l: nat) => l in sel.news, p);
      assert Moved.Tally(m.workEnter, x) == Picked(was, sel.olds, x);
      assert Moved.Tally(m.workLeave, x) == Picked(now, sel.news, x);
    }
  }
}
