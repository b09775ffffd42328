/** How often a line occurs in a text that reads as a diff's rows. */
module Counts {
  import opened Diff
  import opened Shuffle
  import opened Placed

  type Test<!T> = T -> bool

  function Passing<T>(lines: seq<T>, p: Test<T>): set<int>
  {
    set i | 0 <= i < |lines| && p(lines[i])
  }

  /** How many of `lines` pass `p`. */
  function Copies<T>(lines: seq<T>, p: Test<T>): nat
  {
    |Passing(lines, p)|
  }

  lemma CopiesSnoc<T>(lines: seq<T>, x: T, p: Test<T>)
    ensures Copies(lines + [x], p) == Copies(lines, p) + if p(x) then 1 else 0
  {
    var all, some := Passing(lines + [x], p), Passing(lines, p);
    assert all == if p(x) then some + {|lines|} else some;
  }

  lemma CopiesNone<T>(p: Test<T>)
    ensures Copies([], p) == 0
  {
    assert Passing([], p) == {};
  }

  lemma {:induction false} CopiesConcat<T>(a: seq<T>, b: seq<T>, p: Test<T>)
    ensures Copies(a + b, p) == Copies(a, p) + Copies(b, p)
    decreases |b|
  {
    if b == [] {
      assert a + b == a;
      CopiesNone(p);
    } else {
      var b', x := b[..|b| - 1], b[|b| - 1];
      assert a + b == (a + b') + [x] && b == b' + [x];
      CopiesSnoc(a + b', x, p);
      CopiesSnoc(b', x, p);
      CopiesConcat(a, b', p);
    }
  }

  lemma {:induction false} CopiesShuffled<T>(a: seq<T>, b: seq<T>, c: seq<T>, p: Test<T>)
    requires Shuffles(a, b, c)
    ensures Copies(c, p) == Copies(a, p) + Copies(b, p)
    decreases |c|
  {
    CopiesNone(p);
    if c != [] {
      var c', x := c[..|c| - 1], c[|c| - 1];
      assert c == c' + [x];
      CopiesSnoc(c', x, p);
      if a != [] && a[|a| - 1] == x && Shuffles(a[..|a| - 1], b, c') {
        assert a == a[..|a| - 1] + [x];
        CopiesSnoc(a[..|a| - 1], x, p);
        CopiesShuffled(a[..|a| - 1], b, c', p);
      } else {
        assert b == b[..|b| - 1] + [x];
        CopiesSnoc(b[..|b| - 1], x, p);
        CopiesShuffled(a, b[..|b| - 1], c', p);
      }
    }
  }

  /** The held old lines of every hunk. */
  function OldRows<T(==)>(was: seq<T>, now: seq<T>, hunks: seq<Hunk>, k: nat, i: nat, j: nat, held: Held): seq<T>
    requires Valid(was, now, hunks, k, i, j)
    decreases |hunks| - k
  {
    if k == |hunks| then []
    else
      var h := hunks[k];
      KeptOld(was, h, held) + OldRows(was, now, hunks, k + 1, OldAt(h) + h.oldCount, NewAt(h) + h.newCount, held)
  }

  /** The held new lines of every hunk. */
  function NewRows<T(==)>(was: seq<T>, now: seq<T>, hunks: seq<Hunk>, k: nat, i: nat, j: nat, held: Held): seq<T>
    requires Valid(was, now, hunks, k, i, j)
    decreases |hunks| - k
  {
    if k == |hunks| then []
    else
      var h := hunks[k];
      KeptNew(now, h, held) + NewRows(was, now, hunks, k + 1, OldAt(h) + h.oldCount, NewAt(h) + h.newCount, held)
  }

  /** The lines no hunk touches. */
  function Runs<T(==)>(was: seq<T>, now: seq<T>, hunks: seq<Hunk>, k: nat, i: nat, j: nat): seq<T>
    requires Valid(was, now, hunks, k, i, j)
    decreases |hunks| - k
  {
    if k == |hunks| then was[i..]
    else
      var h := hunks[k];
      was[i..OldAt(h)] + Runs(was, now, hunks, k + 1, OldAt(h) + h.oldCount, NewAt(h) + h.newCount)
  }

  lemma OpensCount<T>(was: seq<T>, now: seq<T>, h: Hunk, i: nat, olds: Held, news: Held, lines: seq<T>, at: nat,
                      p: Test<T>)
    requires i <= OldAt(h) && OldAt(h) + h.oldCount <= |was|
    requires 0 <= NewAt(h) && NewAt(h) + h.newCount <= |now|
    requires Opens(was, now, h, i, olds, news, lines, at)
    ensures Copies(lines[at..], p) ==
            Copies(was[i..OldAt(h)], p) + Copies(KeptOld(was, h, olds), p) + Copies(KeptNew(now, h, news), p)
            + Copies(lines[at + Span(was, now, h, i, olds, news)..], p)
  {
    var start, next := at + (OldAt(h) - i), at + Span(was, now, h, i, olds, news);
    CopiesShuffled(KeptOld(was, h, olds), KeptNew(now, h, news), lines[start..next], p);
    CopiesConcat(lines[at..start], lines[start..next], p);
    CopiesConcat(lines[at..start] + lines[start..next], lines[next..], p);
    assert lines[at..] == lines[at..start] + lines[start..next] + lines[next..];
  }

  /** The hunk's share of each part. */
  lemma PartsCount<T>(was: seq<T>, now: seq<T>, hunks: seq<Hunk>, k: nat, i: nat, j: nat, olds: Held, news: Held,
                      p: Test<T>)
    requires Valid(was, now, hunks, k, i, j) && k < |hunks|
    ensures var h := hunks[k];
            var i', j' := OldAt(h) + h.oldCount, NewAt(h) + h.newCount;
            && Copies(Runs(was, now, hunks, k, i, j), p) == Copies(was[i..OldAt(h)], p)
                 + Copies(Runs(was, now, hunks, k + 1, i', j'), p)
            && Copies(OldRows(was, now, hunks, k, i, j, olds), p)
               == Copies(KeptOld(was, h, olds), p) + Copies(OldRows(was, now, hunks, k + 1, i', j', olds), p)
            && Copies(NewRows(was, now, hunks, k, i, j, news), p)
               == Copies(KeptNew(now, h, news), p) + Copies(NewRows(was, now, hunks, k + 1, i', j', news), p)
  {
    var h := hunks[k];
    var i', j' := OldAt(h) + h.oldCount, NewAt(h) + h.newCount;
    CopiesConcat(was[i..OldAt(h)], Runs(was, now, hunks, k + 1, i', j'), p);
    CopiesConcat(KeptOld(was, h, olds), OldRows(was, now, hunks, k + 1, i', j', olds), p);
    CopiesConcat(KeptNew(now, h, news), NewRows(was, now, hunks, k + 1, i', j', news), p);
  }

  lemma {:induction false} ReadsCountFrom<T>(was: seq<T>, now: seq<T>, hunks: seq<Hunk>, k: nat, i: nat, j: nat,
                                             olds: Held, news: Held, lines: seq<T>, at: nat, p: Test<T>)
    requires Valid(was, now, hunks, k, i, j) && at <= |lines| && Reads(was, now, hunks, k, i, j, olds, news, lines, at)
    ensures Copies(lines[at..], p) ==
            Copies(Runs(was, now, hunks, k, i, j), p)
            + Copies(OldRows(was, now, hunks, k, i, j, olds), p)
            + Copies(NewRows(was, now, hunks, k, i, j, news), p)
    decreases |hunks| - k
  {
    CopiesNone(p);
    if k < |hunks| {
      var h := hunks[k];
      OpensCount(was, now, h, i, olds, news, lines, at, p);
      ReadsCountFrom(was, now, hunks, k + 1, OldAt(h) + h.oldCount, NewAt(h) + h.newCount, olds, news,
                     lines, at + Span(was, now, h, i, olds, news), p);
      PartsCount(was, now, hunks, k, i, j, olds, news, p);
    }
  }

  /** A text that reads as the rows holds each line as often as the unchanged lines, the
      held old lines and the held new lines do together. */
  lemma ReadsCount<T>(was: seq<T>, now: seq<T>, hunks: seq<Hunk>, olds: Held, news: Held, text: seq<T>, p: Test<T>)
    requires Valid(was, now, hunks, 0, 0, 0) && Reads(was, now, hunks, 0, 0, 0, olds, news, text, 0)
    ensures Copies(text, p) == InRuns(was, now, hunks, p) + InOld(was, now, hunks, olds, p)
         + InNew(was, now, hunks, news, p)
  {
    ReadsCountFrom(was, now, hunks, 0, 0, 0, olds, news, text, 0, p);
    assert text[0..] == text;
  }

  /** `s` holds the lines of `s1` and of `s2`, which share none. */
  ghost predicate Parts(s: Held, s1: Held, s2: Held)
  {
    forall l :: (s(l) <==> s1(l) || s2(l)) && !(s1(l) && s2(l))
  }

  lemma KeptNext<T>(side: seq<T>, at: nat, count: nat, held: Held, p: Test<T>)
    requires count > 0 && at + count <= |side|
    ensures Copies(Kept(side, at, count, held), p)
         == Copies(Kept(side, at, count - 1, held), p) + if held(at + count) && p(side[at + count - 1]) then 1 else 0
  {
    CopiesSnoc(Kept(side, at, count - 1, held), side[at + count - 1], p);
  }

  lemma {:induction false} KeptParts<T>(side: seq<T>, at: nat, count: nat, s: Held, s1: Held, s2: Held, p: Test<T>)
    requires at + count <= |side| && Parts(s, s1, s2)
    ensures Copies(Kept(side, at, count, s), p)
         == Copies(Kept(side, at, count, s1), p) + Copies(Kept(side, at, count, s2), p)
  {
    if count == 0 {
      CopiesNone(p);
    } else {
      KeptParts(side, at, count - 1, s, s1, s2, p);
      KeptNext(side, at, count, s, p);
      KeptNext(side, at, count, s1, p);
      KeptNext(side, at, count, s2, p);
    }
  }

  lemma {:induction false} OldParts<T>(was: seq<T>, now: seq<T>, hunks: seq<Hunk>, k: nat, i: nat, j: nat, s: Held,
                                       s1: Held, s2: Held, p: Test<T>)
    requires Valid(was, now, hunks, k, i, j) && Parts(s, s1, s2)
    ensures Copies(OldRows(was, now, hunks, k, i, j, s), p) ==
            Copies(OldRows(was, now, hunks, k, i, j, s1), p) + Copies(OldRows(was, now, hunks, k, i, j, s2), p)
    decreases |hunks| - k
  {
    CopiesNone(p);
    if k < |hunks| {
      var h := hunks[k];
      OldParts(was, now, hunks, k + 1, OldAt(h) + h.oldCount, NewAt(h) + h.newCount, s, s1, s2, p);
      KeptParts(was, OldAt(h), h.oldCount, s, s1, s2, p);
      PartsCount(was, now, hunks, k, i, j, s, s, p);
      PartsCount(was, now, hunks, k, i, j, s1, s1, p);
      PartsCount(was, now, hunks, k, i, j, s2, s2, p);
    }
  }

  lemma {:induction false} NewParts<T>(was: seq<T>, now: seq<T>, hunks: seq<Hunk>, k: nat, i: nat, j: nat, s: Held,
                                       s1: Held, s2: Held, p: Test<T>)
    requires Valid(was, now, hunks, k, i, j) && Parts(s, s1, s2)
    ensures Copies(NewRows(was, now, hunks, k, i, j, s), p) ==
            Copies(NewRows(was, now, hunks, k, i, j, s1), p) + Copies(NewRows(was, now, hunks, k, i, j, s2), p)
    decreases |hunks| - k
  {
    CopiesNone(p);
    if k < |hunks| {
      var h := hunks[k];
      NewParts(was, now, hunks, k + 1, OldAt(h) + h.oldCount, NewAt(h) + h.newCount, s, s1, s2, p);
      KeptParts(now, NewAt(h), h.newCount, s, s1, s2, p);
      PartsCount(was, now, hunks, k, i, j, s, s, p);
      PartsCount(was, now, hunks, k, i, j, s1, s1, p);
      PartsCount(was, now, hunks, k, i, j, s2, s2, p);
    }
  }

  /** How often a line occurs in the unchanged lines and in a hold's old and new rows. */
  ghost function InRuns<T>(was: seq<T>, now: seq<T>, hunks: seq<Hunk>, p: Test<T>): nat
    requires Valid(was, now, hunks, 0, 0, 0)
  {
    Copies(Runs(was, now, hunks, 0, 0, 0), p)
  }

  ghost function InOld<T>(was: seq<T>, now: seq<T>, hunks: seq<Hunk>, k: Held, p: Test<T>): nat
    requires Valid(was, now, hunks, 0, 0, 0)
  {
    Copies(OldRows(was, now, hunks, 0, 0, 0, k), p)
  }

  ghost function InNew<T>(was: seq<T>, now: seq<T>, hunks: seq<Hunk>, k: Held, p: Test<T>): nat
    requires Valid(was, now, hunks, 0, 0, 0)
  {
    Copies(NewRows(was, now, hunks, 0, 0, 0, k), p)
  }

  /** Each side of the diff is its unchanged lines and its rows. */
  lemma SidesCount<T>(was: seq<T>, now: seq<T>, hunks: seq<Hunk>, p: Test<T>)
    requires Valid(was, now, hunks, 0, 0, 0)
    ensures Copies(was, p) == InRuns(was, now, hunks, p) + InOld(was, now, hunks, l => true, p)
    ensures Copies(now, p) == InRuns(was, now, hunks, p) + InNew(was, now, hunks, l => true, p)
  {
    var all: Held, none: Held := l => true, l => false;
    OldSideReadsOld(was, now, hunks, all, none, was);
    NewSideReadsNew(was, now, hunks, none, all, now);
    ReadsCount(was, now, hunks, all, none, was, p);
    ReadsCount(was, now, hunks, none, all, now, p);
    OldParts(was, now, hunks, 0, 0, 0, none, none, none, p);
    NewParts(was, now, hunks, 0, 0, 0, none, none, none, p);
  }
}
