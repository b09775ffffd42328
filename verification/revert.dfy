/** Where the cursor goes when hunks are reverted on the new side. */
module Revert {
  import opened Wrappers
  import opened Text
  import opened Diff
  import opened Splice

  /** Where the focus `lnum` goes when `h` is reverted. Lines before the hunk stay, those after
      it move by its change in length, and its own lines give way to its first. */
  function RevertedFocus(h: Hunk, lnum: int): int
  {
    var first := if h.newCount > 0 then h.newStart else h.newStart + 1;
    var last := first + h.newCount - 1;
    if lnum < first then lnum
    else if lnum > last then lnum + (h.oldCount - h.newCount)
    else first
  }

  /** Line `n` of the new side belongs to the hunk. */
  predicate Inside(h: Hunk, n: int)
  {
    NewAt(h) < n <= NewAt(h) + h.newCount
  }

  // ----- one hunk -----

  function AllBut(count: nat, idx: nat): (s: set<nat>)
    ensures forall k: nat :: k in s <==> k < count && k != idx
  {
    if count == 0 then {}
    else AllBut(count - 1, idx) + if count - 1 == idx then {} else {count - 1}
  }

  /** The new side with one hunk spliced out. */
  method RevertHunk(oldText: string, newText: string, hunks: seq<Hunk>, idx: nat) returns (text: string)
    requires Valid(ToLines(oldText), ToLines(newText), hunks, 0, 0, 0) && idx < |hunks|
    ensures text == SplicedText(oldText, newText, hunks, AllBut(|hunks|, idx), true)
  {
    var applied: set<nat> := {};
    for i := 0 to |hunks|
      invariant applied == AllBut(i, idx)
    {
      if i != idx {
        applied := applied + {i};
      }
    }
    text := SpliceText(oldText, newText, hunks, applied, true);
  }

  /** The new lines with a hunk's old lines in place of its new ones. */
  function Reverted<T>(was: seq<T>, now: seq<T>, h: Hunk): seq<T>
    requires 0 <= OldAt(h) && OldAt(h) + h.oldCount <= |was|
    requires 0 <= NewAt(h) && NewAt(h) + h.newCount <= |now|
  {
    now[..NewAt(h)] + OldLines(was, h) + now[NewAt(h) + h.newCount..]
  }

  lemma HunkInRange<T>(was: seq<T>, now: seq<T>, hunks: seq<Hunk>, k: nat, i: nat, j: nat, idx: nat)
    requires Valid(was, now, hunks, k, i, j) && k <= idx < |hunks|
    ensures i <= OldAt(hunks[idx]) && OldAt(hunks[idx]) + hunks[idx].oldCount <= |was|
    ensures j <= NewAt(hunks[idx]) && NewAt(hunks[idx]) + hunks[idx].newCount <= |now|
    decreases |hunks| - k
  {
    if idx > k {
      HunkInRange(was, now, hunks, k + 1, OldAt(hunks[k]) + hunks[k].oldCount, NewAt(hunks[k]) + hunks[k].newCount,
                  idx);
    }
  }

  /** The new lines from `j` on with the hunk reverted. */
  function RevertedFrom<T>(was: seq<T>, now: seq<T>, j: nat, h: Hunk): seq<T>
    requires 0 <= OldAt(h) && OldAt(h) + h.oldCount <= |was|
    requires j <= NewAt(h) && NewAt(h) + h.newCount <= |now|
  {
    now[j..NewAt(h)] + OldLines(was, h) + now[NewAt(h) + h.newCount..]
  }

  lemma ExtendReverted<T>(was: seq<T>, now: seq<T>, j: nat, q: nat, j': nat, h: Hunk, run: seq<T>, block: seq<T>,
                          rest: seq<T>, all: seq<T>)
    requires 0 <= OldAt(h) && OldAt(h) + h.oldCount <= |was|
    requires j <= q <= j' <= NewAt(h) && NewAt(h) + h.newCount <= |now|
    requires run == now[j..q] && block == now[q..j'] && rest == RevertedFrom(was, now, j', h)
    requires all == run + block + rest
    ensures all == RevertedFrom(was, now, j, h)
  {
    assert now[j..NewAt(h)] == now[j..q] + now[q..j'] + now[j'..NewAt(h)];
  }

  /** Applying every hunk but one leaves the new lines with that hunk reverted. */
  lemma {:induction false} SplicedButOne<T>(was: seq<T>, now: seq<T>, hunks: seq<Hunk>, k: nat, i: nat, j: nat,
                                            idx: nat, applied: set<nat>)
    requires Valid(was, now, hunks, k, i, j) && k <= idx < |hunks|
    requires forall q: nat | k <= q < |hunks| :: q in applied <==> q != idx
    ensures j <= NewAt(hunks[idx]) <= |now| - hunks[idx].newCount
    ensures 0 <= OldAt(hunks[idx]) <= |was| - hunks[idx].oldCount
    ensures Spliced(was, now, hunks, k, i, j, applied) == RevertedFrom(was, now, j, hunks[idx])
    decreases |hunks| - k
  {
    var h := hunks[k];
    var i', j' := OldAt(h) + h.oldCount, NewAt(h) + h.newCount;
    HunkInRange(was, now, hunks, k, i, j, idx);
    if idx == k {
      SplicedAll(was, now, hunks, k + 1, i', j', applied);
    } else {
      HunkInRange(was, now, hunks, k + 1, i', j', idx);
      SplicedButOne(was, now, hunks, k + 1, i', j', idx, applied);
      ExtendReverted(was, now, j, NewAt(h), j', hunks[idx], was[i..OldAt(h)], ChosenBlock(was, now, h, k, applied),
                     Spliced(was, now, hunks, k + 1, i', j', applied), Spliced(was, now, hunks, k, i, j, applied));
    }
  }

  lemma ButOneReverts<T>(was: seq<T>, now: seq<T>, hunks: seq<Hunk>, idx: nat)
    requires Valid(was, now, hunks, 0, 0, 0) && idx < |hunks|
    ensures 0 <= OldAt(hunks[idx]) <= |was| - hunks[idx].oldCount
    ensures 0 <= NewAt(hunks[idx]) <= |now| - hunks[idx].newCount
    ensures Spliced(was, now, hunks, 0, 0, 0, AllBut(|hunks|, idx)) == Reverted(was, now, hunks[idx])
  {
    SplicedButOne(was, now, hunks, 0, 0, 0, idx, AllBut(|hunks|, idx));
    assert now[0..NewAt(hunks[idx])] == now[..NewAt(hunks[idx])];
  }

  /** Every line outside the hunk keeps its content at the line the cursor moves to. From a line
      inside, the cursor moves to where the restored lines start: what is before it stood before
      the hunk, and from it on are the hunk's old lines and then what stood after the hunk. */
  lemma FocusKeepsLine<T>(was: seq<T>, now: seq<T>, h: Hunk, n: int)
    requires 0 <= OldAt(h) <= |was| - h.oldCount && 0 <= NewAt(h) <= |now| - h.newCount
    requires 1 <= n <= |now|
    ensures var lines, f := Reverted(was, now, h), RevertedFocus(h, n);
            if Inside(h, n) then Restored(was, now, h, lines, f)
            else 1 <= f <= |lines| && lines[f - 1] == now[n - 1]
  {
    var lines := Reverted(was, now, h);
    assert lines[NewAt(h)..] == OldLines(was, h) + now[NewAt(h) + h.newCount..];
  }

  /** Line `f` is where the hunk's restored lines start. */
  predicate Restored<T(==)>(was: seq<T>, now: seq<T>, h: Hunk, lines: seq<T>, f: int)
    requires HunkFits(was, now, h)
  {
    && f == NewAt(h) + 1 <= |lines| + 1
    && lines[..f - 1] == now[..NewAt(h)]
    && lines[f - 1..] == OldLines(was, h) + now[NewAt(h) + h.newCount..]
  }

  lemma RebuiltIsReverted(oldText: string, newText: string, hunks: seq<Hunk>, idx: nat)
    requires DiffsTexts(oldText, newText, hunks) && Apart(hunks) && idx < |hunks|
    ensures 0 <= OldAt(hunks[idx]) <= |ToLines(oldText)| - hunks[idx].oldCount
    ensures 0 <= NewAt(hunks[idx]) <= |ToLines(newText)| - hunks[idx].newCount
    ensures ToLines(SplicedText(oldText, newText, hunks, AllBut(|hunks|, idx), true))
         == Reverted(ToLines(oldText), ToLines(newText), hunks[idx])
  {
    SpliceReadsBack(oldText, newText, hunks, AllBut(|hunks|, idx), true);
    ButOneReverts(ToLines(oldText), ToLines(newText), hunks, idx);
  }

  /** The text the view is rebuilt from after reverting hunk `idx` holds, at the line the
      cursor moves to, the line it was on, or from there on the restored lines. */
  lemma RevertHunkKeepsLine(oldText: string, newText: string, hunks: seq<Hunk>, idx: nat, n: int)
    requires DiffsTexts(oldText, newText, hunks) && Apart(hunks)
    requires idx < |hunks| && 1 <= n <= |ToLines(newText)|
    ensures 0 <= OldAt(hunks[idx]) <= |ToLines(oldText)| - hunks[idx].oldCount
    ensures 0 <= NewAt(hunks[idx]) <= |ToLines(newText)| - hunks[idx].newCount
    ensures var lines := ToLines(SplicedText(oldText, newText, hunks, AllBut(|hunks|, idx), true));
            var f := RevertedFocus(hunks[idx], n);
            if Inside(hunks[idx], n) then Restored(ToLines(oldText), ToLines(newText), hunks[idx], lines, f)
            else 1 <= f <= |lines| && lines[f - 1] == ToLines(newText)[n - 1]
  {
    RebuiltIsReverted(oldText, newText, hunks, idx);
    FocusKeepsLine(ToLines(oldText), ToLines(newText), hunks[idx], n);
  }

  /** The file line of a row of hunk `h`: one of the hunk's new lines if it has any, otherwise the
      line after it, or the last line of the file. */
  predicate HunkLine(h: Hunk, count: nat, n: int)
  {
    if h.newCount > 0 then Inside(h, n)
    else n == if NewAt(h) < count then NewAt(h) + 1 else NewAt(h)
  }

  /** Where the focus goes from there. */
  function HunkLanding(h: Hunk, count: nat): int
  {
    if h.newCount > 0 then NewAt(h) + 1
    else if NewAt(h) < count then NewAt(h) + h.oldCount + 1
    else NewAt(h)
  }

  /** What stands there: the restored lines, or else the line that stood next to the hunk. */
  predicate Settled<T(==)>(was: seq<T>, now: seq<T>, h: Hunk, lines: seq<T>)
    requires HunkFits(was, now, h)
  {
    var f := HunkLanding(h, |now|);
    if h.newCount > 0 then Restored(was, now, h, lines, f)
    else 1 <= f <= |lines| && lines[f - 1] == if NewAt(h) < |now| then now[NewAt(h)] else now[NewAt(h) - 1]
  }

  lemma LandingSettles<T>(was: seq<T>, now: seq<T>, h: Hunk, lines: seq<T>, n: int)
    requires HunkFits(was, now, h) && 1 <= n <= |now| && HunkLine(h, |now|, n)
    requires var f := RevertedFocus(h, n);
             if Inside(h, n) then Restored(was, now, h, lines, f)
             else 1 <= f <= |lines| && lines[f - 1] == now[n - 1]
    ensures RevertedFocus(h, n) == HunkLanding(h, |now|) && Settled(was, now, h, lines)
  {
  }

  // ----- several hunks -----

  /** The focus through each hunk from the last to the first. */
  function Folded(hunks: seq<Hunk>, k: nat, n: int): int
    decreases |hunks| - k
  {
    if k >= |hunks| then n else RevertedFocus(hunks[k], Folded(hunks, k + 1, n))
  }

  method FoldFocus(hunks: seq<Hunk>, lnum: int) returns (focus: int)
    ensures focus == Folded(hunks, 0, lnum)
  {
    focus := lnum;
    var i := |hunks|;
    while i > 0
      invariant 0 <= i <= |hunks| && focus == Folded(hunks, i, lnum)
    {
      i := i - 1;
      focus := RevertedFocus(hunks[i], focus);
    }
  }

  /** The hunks from the `k`th come in order on the new side, after line `j`. */
  predicate Ordered(hunks: seq<Hunk>, k: nat, j: nat)
    decreases |hunks| - k
  {
    k >= |hunks| || (j <= NewAt(hunks[k]) && Ordered(hunks, k + 1, NewAt(hunks[k]) + hunks[k].newCount))
  }

  /** How many lines the hunks wholly before line `n` add by going. */
  function Shift(hunks: seq<Hunk>, k: nat, n: int): int
    decreases |hunks| - k
  {
    if k >= |hunks| then 0
    else (if NewAt(hunks[k]) + hunks[k].newCount < n then hunks[k].oldCount - hunks[k].newCount else 0)
         + Shift(hunks, k + 1, n)
  }

  /** Line `n`, or the start of the hunk it is in. */
  function Landing(hunks: seq<Hunk>, k: nat, n: int): int
    decreases |hunks| - k
  {
    if k >= |hunks| then n
    else if Inside(hunks[k], n) then NewAt(hunks[k]) + 1
    else Landing(hunks, k + 1, n)
  }

  lemma {:induction false} BeforeAll(hunks: seq<Hunk>, k: nat, j: nat, n: int)
    requires Ordered(hunks, k, j) && n <= j
    ensures Folded(hunks, k, n) == n == Landing(hunks, k, n) && Shift(hunks, k, n) == 0
    decreases |hunks| - k
  {
    if k < |hunks| {
      BeforeAll(hunks, k + 1, NewAt(hunks[k]) + hunks[k].newCount, n);
    }
  }

  lemma {:induction false} FoldStaysPast(hunks: seq<Hunk>, k: nat, j: nat, n: int)
    requires Ordered(hunks, k, j) && n > j
    ensures Folded(hunks, k, n) > j
    decreases |hunks| - k
  {
    if k < |hunks| {
      var j' := NewAt(hunks[k]) + hunks[k].newCount;
      if n > j' {
        FoldStaysPast(hunks, k + 1, j', n);
      } else {
        BeforeAll(hunks, k + 1, j', n);
      }
    }
  }

  /** Folding from the last hunk to the first is every hunk's shift at once, each hunk read
      where it stands before anything moves. */
  lemma {:induction false} FoldIsSimultaneous(hunks: seq<Hunk>, k: nat, j: nat, n: int)
    requires Ordered(hunks, k, j)
    ensures Folded(hunks, k, n) == Landing(hunks, k, n) + Shift(hunks, k, n)
    decreases |hunks| - k
  {
    if k < |hunks| {
      var h := hunks[k];
      var j' := NewAt(h) + h.newCount;
      FoldIsSimultaneous(hunks, k + 1, j', n);
      if n > j' {
        FoldStaysPast(hunks, k + 1, j', n);
      } else {
        BeforeAll(hunks, k + 1, j', n);
      }
    }
  }

  lemma {:induction false} ValidIsOrdered<T>(was: seq<T>, now: seq<T>, hunks: seq<Hunk>, k: nat, i: nat, j: nat)
    requires Valid(was, now, hunks, k, i, j)
    ensures Ordered(hunks, k, j)
    decreases |hunks| - k
  {
    if k < |hunks| {
      ValidIsOrdered(was, now, hunks, k + 1, OldAt(hunks[k]) + hunks[k].oldCount, NewAt(hunks[k]) + hunks[k].newCount);
    }
  }

  predicate InsideSome(hunks: seq<Hunk>, k: nat, n: int)
  {
    exists q :: k <= q < |hunks| && Inside(hunks[q], n)
  }

  /** With every hunk of a diff reverted, the new side is the old one, and a line outside every
      hunk is found, with its content, at its folded focus. */
  lemma {:induction false} FoldKeepsLine<T>(was: seq<T>, now: seq<T>, hunks: seq<Hunk>, k: nat, i: nat, j: nat, n: int)
    requires Valid(was, now, hunks, k, i, j) && j < n <= |now|
    ensures var f := Folded(hunks, k, n) - j + i;
            && i < f <= |was| + 1
            && (!InsideSome(hunks, k, n) ==> f <= |was| && was[f - 1] == now[n - 1])
    decreases |hunks| - k
  {
    if k == |hunks| {
      assert was[i..][n - 1 - j] == now[j..][n - 1 - j];
    } else {
      var h := hunks[k];
      var i', j' := OldAt(h) + h.oldCount, NewAt(h) + h.newCount;
      ValidIsOrdered(was, now, hunks, k + 1, i', j');
      assert |was[i..OldAt(h)]| == |now[j..NewAt(h)]|;
      if n > j' {
        FoldStaysPast(hunks, k + 1, j', n);
        FoldKeepsLine(was, now, hunks, k + 1, i', j', n);
      } else {
        BeforeAll(hunks, k + 1, j', n);
        if n <= NewAt(h) {
          assert was[i..OldAt(h)][n - 1 - j] == now[j..NewAt(h)][n - 1 - j];
        }
      }
    }
  }

  // ----- finding a row for the line -----

  function Distance(k: int, n: int): nat
  {
    if k < n then n - k else k - n
  }

  /** `at` is the row of a rendered line nearest `n`, the one before it if two are equally
      near, no further off than there are rows; or nothing where there is none. */
  ghost predicate IsNearest(fromNew: map<nat, nat>, rows: nat, n: int, at: Option<nat>)
  {
    match at
    case None => forall k | k in fromNew :: Distance(k, n) > rows
    case Some(r) =>
      exists k :: k in fromNew && fromNew[k] == r && Distance(k, n) <= rows
        && forall k' | k' in fromNew ::
              Distance(k, n) < Distance(k', n) || (Distance(k, n) == Distance(k', n) && k <= k')
  }

  predicate Has(fromNew: map<nat, nat>, k: int)
  {
    k >= 0 && k in fromNew
  }

  /** Looks at the line itself, then one line further either way at a time. */
  method HoldNewLine(fromNew: map<nat, nat>, rows: nat, n: int) returns (at: Option<nat>)
    ensures IsNearest(fromNew, rows, n, at)
  {
    at := if Has(fromNew, n) then Some(fromNew[n]) else None;
    var d := 1;
    while at.None? && d <= rows
      invariant 1 <= d <= rows + 1
      invariant at.None? ==> forall k | k in fromNew :: Distance(k, n) >= d
      invariant at.Some? ==> IsNearest(fromNew, rows, n, at)
    {
      if Has(fromNew, n - d) {
        at := Some(fromNew[n - d]);
      } else if Has(fromNew, n + d) {
        at := Some(fromNew[n + d]);
      }
      d := d + 1;
    }
  }

  /** Said as a search: at the first distance with a line rendered either side, the row of the line
      before `n` if that one is, and otherwise of the line after it. */
  lemma NearestFirst(fromNew: map<nat, nat>, rows: nat, n: int, at: Option<nat>, d: nat)
    requires IsNearest(fromNew, rows, n, at)
    requires forall k | k in fromNew :: k <= n - d || k >= n + d
    ensures d <= rows && Has(fromNew, n - d) ==> at == Some(fromNew[n - d])
    ensures d <= rows && !Has(fromNew, n - d) && Has(fromNew, n + d) ==> at == Some(fromNew[n + d])
    ensures d > rows ==> at.None?
  {
    if d <= rows && Has(fromNew, n - d) {
      assert n - d in fromNew && Distance(n - d, n) == d;
    } else if d <= rows && Has(fromNew, n + d) {
      assert n + d in fromNew && Distance(n + d, n) == d;
    }
  }

  /** When lines 1 to `count` are all rendered, a row is found for any of them and for the line
      after the last: the line's own row where it has one. */
  lemma HoldFindsRow(fromNew: map<nat, nat>, rows: nat, count: nat, n: int, at: Option<nat>)
    requires (forall k: nat :: k in fromNew <==> 1 <= k <= count) && 1 <= count <= rows
    requires 1 <= n <= count + 1 && IsNearest(fromNew, rows, n, at)
    ensures at == Some(fromNew[if n <= count then n else count])
  {
    var k := if n <= count then n else count;
    assert k in fromNew;
    assert Distance(k, n) <= 1;
  }
}
