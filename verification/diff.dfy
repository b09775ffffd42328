/** A line diff in git's convention: a hunk with no lines on a side sits after the line its
    start names there. */
module Diff {

  /** Starts are one-based. */
  datatype Hunk = Hunk(oldStart: nat, oldCount: nat, newStart: nat, newCount: nat)

  /** How many lines come before the hunk on a side. */
  function At(start: nat, count: nat): int
  {
    if count == 0 then start else start - 1
  }

  function OldAt(h: Hunk): int
  {
    At(h.oldStart, h.oldCount)
  }

  function NewAt(h: Hunk): int
  {
    At(h.newStart, h.newCount)
  }

  /** The hunks from the `k`th on turn `was` from line `i` on into `now` from line `j` on: in
      order, in range, the lines between them equal. */
  predicate Valid<T(==)>(was: seq<T>, now: seq<T>, hunks: seq<Hunk>, k: nat, i: nat, j: nat)
    decreases |hunks| - k
  {
    k <= |hunks| && i <= |was| && j <= |now|
    && if k == |hunks| then was[i..] == now[j..]
       else
         var h := hunks[k];
         var p, q := OldAt(h), NewAt(h);
         && i <= p && p + h.oldCount <= |was|
         && j <= q && q + h.newCount <= |now|
         && was[i..p] == now[j..q]
         && Valid(was, now, hunks, k + 1, p + h.oldCount, q + h.newCount)
  }

  /** Both of the hunk's ranges are in range. */
  predicate HunkFits<T>(was: seq<T>, now: seq<T>, h: Hunk)
  {
    && 0 <= OldAt(h) && OldAt(h) + h.oldCount <= |was|
    && 0 <= NewAt(h) && NewAt(h) + h.newCount <= |now|
  }

  function OldLines<T>(was: seq<T>, h: Hunk): seq<T>
    requires 0 <= OldAt(h) && OldAt(h) + h.oldCount <= |was|
  {
    was[OldAt(h)..OldAt(h) + h.oldCount]
  }

  function NewLines<T>(now: seq<T>, h: Hunk): seq<T>
    requires 0 <= NewAt(h) && NewAt(h) + h.newCount <= |now|
  {
    now[NewAt(h)..NewAt(h) + h.newCount]
  }

  /** The unchanged lines of `was` from line `i` on, with `blocks` at the hunks. */
  function Join<T>(was: seq<T>, now: seq<T>, hunks: seq<Hunk>, k: nat, i: nat, j: nat, blocks: seq<seq<T>>): seq<T>
    requires Valid(was, now, hunks, k, i, j) && |blocks| == |hunks| - k
    decreases |hunks| - k
  {
    if k == |hunks| then was[i..]
    else
      var h := hunks[k];
      was[i..OldAt(h)] + blocks[0]
      + Join(was, now, hunks, k + 1, OldAt(h) + h.oldCount, NewAt(h) + h.newCount, blocks[1..])
  }

  function OldBlocks<T>(was: seq<T>, now: seq<T>, hunks: seq<Hunk>, k: nat, i: nat, j: nat): (blocks: seq<seq<T>>)
    requires Valid(was, now, hunks, k, i, j)
    ensures |blocks| == |hunks| - k
    decreases |hunks| - k
  {
    if k == |hunks| then []
    else
      var h := hunks[k];
      [OldLines(was, h)] + OldBlocks(was, now, hunks, k + 1, OldAt(h) + h.oldCount, NewAt(h) + h.newCount)
  }

  function NewBlocks<T>(was: seq<T>, now: seq<T>, hunks: seq<Hunk>, k: nat, i: nat, j: nat): (blocks: seq<seq<T>>)
    requires Valid(was, now, hunks, k, i, j)
    ensures |blocks| == |hunks| - k
    decreases |hunks| - k
  {
    if k == |hunks| then []
    else
      var h := hunks[k];
      [NewLines(now, h)] + NewBlocks(was, now, hunks, k + 1, OldAt(h) + h.oldCount, NewAt(h) + h.newCount)
  }

  /** The old lines at every hunk rebuild the old text, the new lines the new one. */
  lemma {:induction false} JoinRebuilds<T>(was: seq<T>, now: seq<T>, hunks: seq<Hunk>, k: nat, i: nat, j: nat)
    requires Valid(was, now, hunks, k, i, j)
    ensures Join(was, now, hunks, k, i, j, OldBlocks(was, now, hunks, k, i, j)) == was[i..]
    ensures Join(was, now, hunks, k, i, j, NewBlocks(was, now, hunks, k, i, j)) == now[j..]
    decreases |hunks| - k
  {
    if k < |hunks| {
      var h := hunks[k];
      var p, q := OldAt(h), NewAt(h);
      JoinRebuilds(was, now, hunks, k + 1, p + h.oldCount, q + h.newCount);
      assert was[i..] == was[i..p] + was[p..p + h.oldCount] + was[p + h.oldCount..];
      assert now[j..] == now[j..q] + now[q..q + h.newCount] + now[q + h.newCount..];
      assert OldBlocks(was, now, hunks, k, i, j)[1..]
           == OldBlocks(was, now, hunks, k + 1, p + h.oldCount, q + h.newCount);
      assert NewBlocks(was, now, hunks, k, i, j)[1..]
           == NewBlocks(was, now, hunks, k + 1, p + h.oldCount, q + h.newCount);
    }
  }
}
