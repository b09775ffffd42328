/** Writing a text from a diff's two sides, hunk by hunk: which side each hunk is taken from is
    chosen, and so is the side that the lines between the hunks are read from. */
module Splice {
  import opened Split
  import opened Text
  import opened Diff

  /** At each hunk, numbered from `k`, the new lines if it is applied and the old if not. */
  function Chosen<T>(was: seq<T>, now: seq<T>, hunks: seq<Hunk>, k: nat, i: nat, j: nat,
                     applied: set<nat>): (blocks: seq<seq<T>>)
    requires Valid(was, now, hunks, k, i, j)
    ensures |blocks| == |hunks| - k
    decreases |hunks| - k
  {
    if k == |hunks| then []
    else
      var h := hunks[k];
      [ChosenBlock(was, now, h, k, applied)]
      + Chosen(was, now, hunks, k + 1, OldAt(h) + h.oldCount, NewAt(h) + h.newCount, applied)
  }

  function ChosenBlock<T>(was: seq<T>, now: seq<T>, h: Hunk, k: nat, applied: set<nat>): seq<T>
    requires 0 <= OldAt(h) && OldAt(h) + h.oldCount <= |was|
    requires 0 <= NewAt(h) && NewAt(h) + h.newCount <= |now|
  {
    if k in applied then NewLines(now, h) else OldLines(was, h)
  }

  /** The lines of the splice from `i` and `j` on, hunks numbered from `k`. */
  function Spliced<T>(was: seq<T>, now: seq<T>, hunks: seq<Hunk>, k: nat, i: nat, j: nat, applied: set<nat>): seq<T>
    requires Valid(was, now, hunks, k, i, j)
    decreases |hunks| - k
  {
    if k == |hunks| then was[i..]
    else
      var h := hunks[k];
      was[i..OldAt(h)] + ChosenBlock(was, now, h, k, applied)
      + Spliced(was, now, hunks, k + 1, OldAt(h) + h.oldCount, NewAt(h) + h.newCount, applied)
  }

  /** Some unchanged line parts each hunk from the one before it. */
  predicate Apart(hunks: seq<Hunk>)
  {
    forall k, next | 0 <= k && next == k + 1 < |hunks| :: OldAt(hunks[k]) + hunks[k].oldCount < OldAt(hunks[next])
  }

  /** Nothing follows the hunk on the side `base` names, true for new, of the given lengths. */
  predicate AtEnd(h: Hunk, base: bool, wasLen: nat, nowLen: nat)
  {
    if base then NewAt(h) + h.newCount >= nowLen else OldAt(h) + h.oldCount >= wasLen
  }

  /** Whether the splice ends as the new text does: as a hunk's own side where nothing follows
      the hunk, else as the base. */
  function TailIsNew(hunks: seq<Hunk>, k: nat, applied: set<nat>, tail: bool, base: bool, wasLen: nat,
                     nowLen: nat): bool
    requires k <= |hunks|
    decreases |hunks| - k
  {
    if k == |hunks| then tail
    else TailIsNew(hunks, k + 1, applied, if AtEnd(hunks[k], base, wasLen, nowLen) then k in applied else tail, base,
                   wasLen, nowLen)
  }

  function BaseAt(h: Hunk, base: bool): int
  {
    if base then NewAt(h) else OldAt(h)
  }

  function BaseCount(h: Hunk, base: bool): nat
  {
    if base then h.newCount else h.oldCount
  }

  /** The loop makes `all` of `out` with `hunks` still to come. */
  predicate Makes<T(==)>(all: seq<T>, was: seq<T>, now: seq<T>, hunks: seq<Hunk>, k: nat, i: nat, j: nat,
                         applied: set<nat>, out: seq<T>)
    requires Valid(was, now, hunks, k, i, j)
    decreases |hunks| - k
  {
    if k == |hunks| then all == out + was[i..]
    else
      var h := hunks[k];
      Makes(all, was, now, hunks, k + 1, OldAt(h) + h.oldCount, NewAt(h) + h.newCount, applied,
            out + was[i..OldAt(h)] + ChosenBlock(was, now, h, k, applied))
  }

  lemma {:induction false} MakesSplice<T>(was: seq<T>, now: seq<T>, hunks: seq<Hunk>, k: nat, i: nat, j: nat,
                                          applied: set<nat>, out: seq<T>)
    requires Valid(was, now, hunks, k, i, j)
    ensures Makes(out + Spliced(was, now, hunks, k, i, j, applied), was, now, hunks, k, i, j, applied, out)
    decreases |hunks| - k
  {
    if k < |hunks| {
      var h := hunks[k];
      var i', j' := OldAt(h) + h.oldCount, NewAt(h) + h.newCount;
      var run, block := was[i..OldAt(h)], ChosenBlock(was, now, h, k, applied);
      MakesSplice(was, now, hunks, k + 1, i', j', applied, out + run + block);
      Regroup(out, run, block, Spliced(was, now, hunks, k + 1, i', j', applied));
    }
  }

  lemma Regroup<T>(out: seq<T>, run: seq<T>, block: seq<T>, rest: seq<T>)
    ensures out + run + block + rest == out + (run + block + rest)
  {
  }

  /** The loop's state with the hunks from the `k`th still to come: the next line of the base
      side is `next`, and what is left makes `all`. */
  ghost predicate Going<T>(all: seq<T>, was: seq<T>, now: seq<T>, hunks: seq<Hunk>, k: nat, applied: set<nat>,
                           base: bool, next: nat, out: seq<T>)
  {
    exists i: nat, j: nat :: Valid(was, now, hunks, k, i, j) && next == (if base then j else i)
        && Makes(all, was, now, hunks, k, i, j, applied, out)
  }

  lemma GoingTurn<T>(all: seq<T>, was: seq<T>, now: seq<T>, hunks: seq<Hunk>, k: nat, applied: set<nat>, base: bool,
                     next: nat, out: seq<T>)
    requires k < |hunks| && Going(all, was, now, hunks, k, applied, base, next, out)
    ensures var h := hunks[k];
            var lines := if base then now else was;
            && 0 <= OldAt(h) && OldAt(h) + h.oldCount <= |was| && 0 <= NewAt(h) && NewAt(h) + h.newCount <= |now|
            && next <= BaseAt(h, base) && BaseAt(h, base) + BaseCount(h, base) <= |lines|
            && Going(all, was, now, hunks, k + 1, applied, base, BaseAt(h, base) + BaseCount(h, base),
                     out + lines[next..BaseAt(h, base)] + ChosenBlock(was, now, h, k, applied))
  {
    var i: nat, j: nat :| Valid(was, now, hunks, k, i, j) && next == (if base then j else i)
        && Makes(all, was, now, hunks, k, i, j, applied, out);
    var h := hunks[k];
    assert Makes(all, was, now, hunks, k + 1, OldAt(h) + h.oldCount, NewAt(h) + h.newCount, applied,
                 out + was[i..OldAt(h)] + ChosenBlock(was, now, h, k, applied));
    assert was[i..OldAt(h)] == now[j..NewAt(h)];
  }

  lemma GoingEnds<T>(all: seq<T>, was: seq<T>, now: seq<T>, hunks: seq<Hunk>, applied: set<nat>, base: bool, next: nat,
                     out: seq<T>)
    requires Going(all, was, now, hunks, |hunks|, applied, base, next, out)
    ensures var lines := if base then now else was; next <= |lines| && all == out + lines[next..]
  {
  }

  /** Builds the lines, copying the unchanged ones from the base side; `base` and `tail` are
      true for the new side. */
  method SpliceLines<T(==)>(was: seq<T>, now: seq<T>, hunks: seq<Hunk>, applied: set<nat>, base: bool)
    returns (out: seq<T>, tail: bool)
    requires Valid(was, now, hunks, 0, 0, 0)
    ensures out == Spliced(was, now, hunks, 0, 0, 0, applied)
    ensures tail == TailIsNew(hunks, 0, applied, base, base, |was|, |now|)
  {
    var lines := if base then now else was;
    var next: nat := 0;
    out, tail := [], base;
    ghost var all := Spliced(was, now, hunks, 0, 0, 0, applied);
    ghost var ends := TailIsNew(hunks, 0, applied, base, base, |was|, |now|);
    MakesSplice(was, now, hunks, 0, 0, 0, applied, out);
    assert out + all == all;
    for k := 0 to |hunks|
      invariant Going(all, was, now, hunks, k, applied, base, next, out)
      invariant ends == TailIsNew(hunks, k, applied, tail, base, |was|, |now|)
    {
      var h := hunks[k];
      GoingTurn(all, was, now, hunks, k, applied, base, next, out);
      out := out + lines[next..BaseAt(h, base)] + ChosenBlock(was, now, h, k, applied);
      next := BaseAt(h, base) + BaseCount(h, base);
      if next >= |lines| {
        tail := k in applied;
      }
    }
    GoingEnds(all, was, now, hunks, applied, base, next, out);
    out := out + lines[next..];
  }

  function Ending(text: string): string
  {
    if text != "" && text[|text| - 1] == '\n' then "\n" else ""
  }

  /** The spliced text. */
  method SpliceText(oldText: string, newText: string, hunks: seq<Hunk>, applied: set<nat>, base: bool)
    returns (text: string)
    requires Valid(ToLines(oldText), ToLines(newText), hunks, 0, 0, 0)
    ensures text == SplicedText(oldText, newText, hunks, applied, base)
  {
    var out, tail := SpliceLines(ToLines(oldText), ToLines(newText), hunks, applied, base);
    if out == [] {
      return "";
    }
    return Glue(out, '\n') + Ending(if tail then newText else oldText);
  }

  function SplicedText(oldText: string, newText: string, hunks: seq<Hunk>, applied: set<nat>, base: bool): string
    requires Valid(ToLines(oldText), ToLines(newText), hunks, 0, 0, 0)
  {
    var was, now := ToLines(oldText), ToLines(newText);
    var out := Spliced(was, now, hunks, 0, 0, 0, applied);
    if out == [] then ""
    else Glue(out, '\n') + Ending(if TailIsNew(hunks, 0, applied, base, base, |was|, |now|) then newText else oldText)
  }

  /** A splice is the join of its chosen blocks. */
  lemma {:induction false} SplicedIsJoin<T>(was: seq<T>, now: seq<T>, hunks: seq<Hunk>, k: nat, i: nat, j: nat,
                                            applied: set<nat>)
    requires Valid(was, now, hunks, k, i, j)
    ensures Spliced(was, now, hunks, k, i, j, applied)
         == Join(was, now, hunks, k, i, j, Chosen(was, now, hunks, k, i, j, applied))
    decreases |hunks| - k
  {
    if k < |hunks| {
      var h := hunks[k];
      var i', j' := OldAt(h) + h.oldCount, NewAt(h) + h.newCount;
      assert Chosen(was, now, hunks, k, i, j, applied)[1..] == Chosen(was, now, hunks, k + 1, i', j', applied);
      SplicedIsJoin(was, now, hunks, k + 1, i', j', applied);
    }
  }

  // ----- a splice of plain lines is the join of ended ones -----

  /** The last line, if there is one, passes `p` exactly when `open`. */
  predicate EndsIn<T>(lines: seq<T>, p: T -> bool, open: bool)
  {
    lines != [] ==> (p(lines[|lines| - 1]) <==> open)
  }

  lemma SuffixTail<T>(lines: seq<T>, p: T -> bool, i: nat, open: bool)
    requires i <= |lines| && EndsIn(lines, p, open)
    ensures EndsIn(lines[i..], p, open)
  {
  }

  /** The last part that is not empty decides. */
  lemma PartsTail<T>(run: seq<T>, block: seq<T>, rest: seq<T>, p: T -> bool, open: bool, all: seq<T>)
    requires EndsIn(if rest != [] then rest else if block != [] then block else run, p, open)
    requires all == run + block + rest
    ensures EndsIn(all, p, open)
  {
    if rest != [] {
      assert all[|all| - 1] == rest[|rest| - 1];
    } else if block != [] {
      assert all[|all| - 1] == block[|block| - 1];
    } else {
      assert all == run;
    }
  }

  lemma OneHunkTail<T>(was: seq<T>, now: seq<T>, p: T -> bool, h: Hunk, i: nat, j: nat, k: nat, applied: set<nat>,
                       base: bool, oldOpen: bool, newOpen: bool)
    requires i <= OldAt(h) && OldAt(h) + h.oldCount <= |was| && j <= NewAt(h) && NewAt(h) + h.newCount <= |now|
    requires was[i..OldAt(h)] == now[j..NewAt(h)] && was[OldAt(h) + h.oldCount..] == now[NewAt(h) + h.newCount..]
    requires EndsIn(was, p, oldOpen) && EndsIn(now, p, newOpen)
    ensures EndsIn(was[i..OldAt(h)] + ChosenBlock(was, now, h, k, applied) + was[OldAt(h) + h.oldCount..], p,
                   if (if AtEnd(h, base, |was|, |now|) then k in applied else base) then newOpen else oldOpen)
  {
    var i', j' := OldAt(h) + h.oldCount, NewAt(h) + h.newCount;
    var run, block, rest := was[i..OldAt(h)], ChosenBlock(was, now, h, k, applied), was[i'..];
    var open := if (if AtEnd(h, base, |was|, |now|) then k in applied else base) then newOpen else oldOpen;
    SuffixTail(was, p, i', oldOpen);
    SuffixTail(now, p, j', newOpen);
    if rest == [] {
      if k in applied {
        SuffixTail(now, p, NewAt(h), newOpen);
        SuffixTail(now, p, j, newOpen);
        assert block == now[NewAt(h)..];
        assert block == [] ==> run == now[j..];
      } else {
        SuffixTail(was, p, OldAt(h), oldOpen);
        SuffixTail(was, p, i, oldOpen);
        assert block == was[OldAt(h)..];
        assert block == [] ==> run == was[i..];
      }
    }
    PartsTail(run, block, rest, p, open, run + block + rest);
  }

  lemma LaterHunkFollows<T>(was: seq<T>, now: seq<T>, hunks: seq<Hunk>, k: nat, i: nat, j: nat, applied: set<nat>,
                            base: bool)
    requires Valid(was, now, hunks, k, i, j) && Apart(hunks) && k + 1 < |hunks|
    ensures !AtEnd(hunks[k], base, |was|, |now|)
    ensures Spliced(was, now, hunks, k + 1, OldAt(hunks[k]) + hunks[k].oldCount, NewAt(hunks[k]) + hunks[k].newCount,
                    applied) != []
  {
    var h, next := hunks[k], hunks[k + 1];
    var i', j' := OldAt(h) + h.oldCount, NewAt(h) + h.newCount;
    assert i' < OldAt(next);
    assert |was[i'..OldAt(next)]| == |now[j'..NewAt(next)]|;
  }

  lemma LastHunkTail<T>(was: seq<T>, now: seq<T>, p: T -> bool, hunks: seq<Hunk>, k: nat, i: nat, j: nat,
                        applied: set<nat>,
                        base: bool, oldOpen: bool, newOpen: bool)
    requires Valid(was, now, hunks, k, i, j) && k + 1 == |hunks|
    requires EndsIn(was, p, oldOpen) && EndsIn(now, p, newOpen)
    ensures EndsIn(Spliced(was, now, hunks, k, i, j, applied), p,
                   if TailIsNew(hunks, k, applied, base, base, |was|, |now|) then newOpen else oldOpen)
  {
    OneHunkTail(was, now, p, hunks[k], i, j, k, applied, base, oldOpen, newOpen);
  }

  /** The last line of a splice passes `p`, a property of line ends, exactly when the last
      line of the side it ends as does. */
  lemma {:induction false} SplicedTail<T>(was: seq<T>, now: seq<T>, p: T -> bool, hunks: seq<Hunk>, k: nat, i: nat,
                                          j: nat, applied: set<nat>,
                                          base: bool, oldOpen: bool, newOpen: bool)
    requires Valid(was, now, hunks, k, i, j) && Apart(hunks)
    requires EndsIn(was, p, oldOpen) && EndsIn(now, p, newOpen)
    ensures EndsIn(Spliced(was, now, hunks, k, i, j, applied), p,
                   if TailIsNew(hunks, k, applied, base, base, |was|, |now|) then newOpen else oldOpen)
    decreases |hunks| - k
  {
    if k == |hunks| {
      SuffixTail(was, p, i, oldOpen);
      SuffixTail(now, p, j, newOpen);
    } else if k + 1 == |hunks| {
      LastHunkTail(was, now, p, hunks, k, i, j, applied, base, oldOpen, newOpen);
    } else {
      SplicedTail(was, now, p, hunks, k + 1, OldAt(hunks[k]) + hunks[k].oldCount, NewAt(hunks[k]) + hunks[k].newCount,
                  applied, base, oldOpen, newOpen);
      EarlierHunkTail(was, now, p, hunks, k, i, j, applied, base, oldOpen, newOpen);
    }
  }

  /** A hunk with others after it does not decide how the splice ends. */
  lemma EarlierHunkTail<T>(was: seq<T>, now: seq<T>, p: T -> bool, hunks: seq<Hunk>, k: nat, i: nat, j: nat,
                           applied: set<nat>,
                           base: bool, oldOpen: bool, newOpen: bool)
    requires Valid(was, now, hunks, k, i, j) && Apart(hunks) && k + 1 < |hunks|
    requires EndsIn(Spliced(was, now, hunks, k + 1, OldAt(hunks[k]) + hunks[k].oldCount,
                            NewAt(hunks[k]) + hunks[k].newCount, applied), p,
                    if TailIsNew(hunks, k + 1, applied, base, base, |was|, |now|) then newOpen else oldOpen)
    ensures EndsIn(Spliced(was, now, hunks, k, i, j, applied), p,
                   if TailIsNew(hunks, k, applied, base, base, |was|, |now|) then newOpen else oldOpen)
  {
    var h := hunks[k];
    var rest := Spliced(was, now, hunks, k + 1, OldAt(h) + h.oldCount, NewAt(h) + h.newCount, applied);
    LaterHunkFollows(was, now, hunks, k, i, j, applied, base);
    var open := if TailIsNew(hunks, k + 1, applied, base, base, |was|, |now|) then newOpen else oldOpen;
    assert TailIsNew(hunks, k, applied, base, base, |was|, |now|)
         == TailIsNew(hunks, k + 1, applied, base, base, |was|, |now|);
    PartsTail(was[i..OldAt(h)], ChosenBlock(was, now, h, k, applied), rest, p, open,
              Spliced(was, now, hunks, k, i, j, applied));
  }

  // ----- texts -----

  /** `r` is `s` with every element read through `f`. */
  ghost predicate Maps<A, B>(f: A -> B, s: seq<A>, r: seq<B>)
  {
    |r| == |s| && forall i | 0 <= i < |s| :: r[i] == f(s[i])
  }

  lemma MapsParts<A, B>(f: A -> B, a: seq<A>, b: seq<A>, a': seq<B>, b': seq<B>)
    requires Maps(f, a, a') && Maps(f, b, b')
    ensures Maps(f, a + b, a' + b')
  {
  }

  lemma MapsSlice<A, B>(f: A -> B, s: seq<A>, r: seq<B>, i: nat, j: nat)
    requires Maps(f, s, r) && i <= j <= |s|
    ensures Maps(f, s[i..j], r[i..j])
  {
  }

  lemma MapsRest<A, B>(f: A -> B, s: seq<A>, r: seq<B>, i: nat)
    requires Maps(f, s, r) && i <= |s|
    ensures Maps(f, s[i..], r[i..])
  {
  }

  lemma MapsEqual<A, B>(f: A -> B, s: seq<A>, t: seq<A>, r: seq<B>, u: seq<B>)
    requires Maps(f, s, r) && Maps(f, t, u) && s == t
    ensures r == u
  {
  }

  /** Reading every line through a function leaves a diff valid. */
  lemma {:induction false} MapsValid<A, B>(f: A -> B, was: seq<A>, now: seq<A>, was': seq<B>, now': seq<B>,
                                           hunks: seq<Hunk>, k: nat, i: nat, j: nat)
    requires Valid(was, now, hunks, k, i, j) && Maps(f, was, was') && Maps(f, now, now')
    ensures Valid(was', now', hunks, k, i, j)
    decreases |hunks| - k
  {
    if k == |hunks| {
      MapsRest(f, was, was', i);
      MapsRest(f, now, now', j);
      MapsEqual(f, was[i..], now[j..], was'[i..], now'[j..]);
    } else {
      var h := hunks[k];
      MapsSlice(f, was, was', i, OldAt(h));
      MapsSlice(f, now, now', j, NewAt(h));
      MapsEqual(f, was[i..OldAt(h)], now[j..NewAt(h)], was'[i..OldAt(h)], now'[j..NewAt(h)]);
      MapsValid(f, was, now, was', now', hunks, k + 1, OldAt(h) + h.oldCount, NewAt(h) + h.newCount);
    }
  }

  lemma MapsBlock<A, B>(f: A -> B, was: seq<A>, now: seq<A>, was': seq<B>, now': seq<B>, h: Hunk, k: nat,
                        applied: set<nat>)
    requires 0 <= OldAt(h) && OldAt(h) + h.oldCount <= |was|
    requires 0 <= NewAt(h) && NewAt(h) + h.newCount <= |now|
    requires Maps(f, was, was') && Maps(f, now, now')
    ensures Maps(f, ChosenBlock(was, now, h, k, applied), ChosenBlock(was', now', h, k, applied))
  {
    MapsSlice(f, was, was', OldAt(h), OldAt(h) + h.oldCount);
    MapsSlice(f, now, now', NewAt(h), NewAt(h) + h.newCount);
  }

  /** Reading lines through a function before splicing or after gives the same lines. */
  lemma {:induction false} MapsSpliced<A, B>(f: A -> B, was: seq<A>, now: seq<A>, was': seq<B>, now': seq<B>,
                                             hunks: seq<Hunk>, k: nat, i: nat, j: nat, applied: set<nat>)
    requires Valid(was, now, hunks, k, i, j) && Valid(was', now', hunks, k, i, j) && Maps(f, was, was')
    requires Maps(f, now, now')
    ensures Maps(f, Spliced(was, now, hunks, k, i, j, applied), Spliced(was', now', hunks, k, i, j, applied))
    decreases |hunks| - k
  {
    if k == |hunks| {
      MapsRest(f, was, was', i);
    } else {
      var h := hunks[k];
      var i', j' := OldAt(h) + h.oldCount, NewAt(h) + h.newCount;
      MapsSpliced(f, was, now, was', now', hunks, k + 1, i', j', applied);
      MapsSlice(f, was, was', i, OldAt(h));
      MapsBlock(f, was, now, was', now', h, k, applied);
      MapsTurn(f, was[i..OldAt(h)], ChosenBlock(was, now, h, k, applied),
               Spliced(was, now, hunks, k + 1, i', j', applied),
               was'[i..OldAt(h)], ChosenBlock(was', now', h, k, applied),
               Spliced(was', now', hunks, k + 1, i', j', applied),
               Spliced(was, now, hunks, k, i, j, applied), Spliced(was', now', hunks, k, i, j, applied));
    }
  }

  lemma MapsTurn<A, B>(f: A -> B, run: seq<A>, block: seq<A>, rest: seq<A>, run': seq<B>, block': seq<B>, rest': seq<B>,
                       all: seq<A>, all': seq<B>)
    requires Maps(f, run, run') && Maps(f, block, block') && Maps(f, rest, rest')
    requires all == run + block + rest && all' == run' + block' + rest'
    ensures Maps(f, all, all')
  {
    MapsParts(f, run, block, run', block');
    MapsParts(f, run + block, rest, run' + block', rest');
  }

  // ----- both ways of reading lines fix the lines and their endings -----

  /** `r` is read off `s` and `t` together, one element from the two at its place. */
  ghost predicate Reads2<A, B, C>(f: (A, B) -> C, s: seq<A>, t: seq<B>, r: seq<C>)
  {
    |r| == |s| == |t| && forall i | 0 <= i < |s| :: r[i] == f(s[i], t[i])
  }

  lemma Reads2Equal<A, B, C>(f: (A, B) -> C, s: seq<A>, t: seq<B>, r: seq<C>, s': seq<A>, t': seq<B>, r': seq<C>,
                             i: nat, p: nat, j: nat, q: nat)
    requires Reads2(f, s, t, r) && Reads2(f, s', t', r')
    requires i <= p <= |s| && j <= q <= |s'|
    requires s[i..p] == s'[j..q] && t[i..p] == t'[j..q]
    ensures r[i..p] == r'[j..q]
  {
    assert |s[i..p]| == |s'[j..q]|;
    forall k | 0 <= k < p - i
      ensures r[i..p][k] == r'[j..q][k]
    {
      assert s[i..p][k] == s'[j..q][k] && t[i..p][k] == t'[j..q][k];
    }
  }

  /** A diff valid for two readings of the lines is valid for the two together. */
  lemma {:induction false} Reads2Valid<A, B, C>(f: (A, B) -> C, s: seq<A>, t: seq<B>, r: seq<C>, s': seq<A>, t': seq<B>,
                                                r': seq<C>,
                                                hunks: seq<Hunk>, k: nat, i: nat, j: nat)
    requires Reads2(f, s, t, r) && Reads2(f, s', t', r')
    requires Valid(s, s', hunks, k, i, j) && Valid(t, t', hunks, k, i, j)
    ensures Valid(r, r', hunks, k, i, j)
    decreases |hunks| - k
  {
    if k == |hunks| {
      assert s[i..|s|] == s[i..] && s'[j..|s'|] == s'[j..] && t[i..|t|] == t[i..] && t'[j..|t'|] == t'[j..];
      Reads2Equal(f, s, t, r, s', t', r', i, |s|, j, |s'|);
      assert r[i..|r|] == r[i..] && r'[j..|r'|] == r'[j..];
    } else {
      var h := hunks[k];
      Reads2Equal(f, s, t, r, s', t', r', i, OldAt(h), j, NewAt(h));
      Reads2Valid(f, s, t, r, s', t', r', hunks, k + 1, OldAt(h) + h.oldCount, NewAt(h) + h.newCount);
    }
  }

  function Flag(plain: string, ended: string): Line
  {
    Line(plain, ended != plain)
  }

  lemma FlagsRead(text: string)
    ensures Reads2(Flag, ToLines(text), EndedLines(text), FlaggedLines(text))
  {
    FlaggedIsEnded(text);
    var plain, ended, lines := ToLines(text), EndedLines(text), FlaggedLines(text);
    forall k | 0 <= k < |plain|
      ensures lines[k] == Flag(plain[k], ended[k])
    {
      assert ended[k] == Marked(lines[k]);
      assert lines[k].open ==> |ended[k]| == |plain[k]| + 1;
    }
  }

  /** The diff holds of the lines however they are read: plain and with line ends. */
  predicate DiffsTexts(oldText: string, newText: string, hunks: seq<Hunk>)
  {
    && Valid(ToLines(oldText), ToLines(newText), hunks, 0, 0, 0)
    && Valid(EndedLines(oldText), EndedLines(newText), hunks, 0, 0, 0)
  }

  lemma FlaggedValid(oldText: string, newText: string, hunks: seq<Hunk>)
    requires DiffsTexts(oldText, newText, hunks)
    ensures Valid(FlaggedLines(oldText), FlaggedLines(newText), hunks, 0, 0, 0)
  {
    FlagsRead(oldText);
    FlagsRead(newText);
    Reads2Valid(Flag, ToLines(oldText), EndedLines(oldText), FlaggedLines(oldText),
                ToLines(newText), EndedLines(newText), FlaggedLines(newText), hunks, 0, 0, 0);
  }

  /** The splice of the lines with their ends. */
  ghost function FlaggedSplice(oldText: string, newText: string, hunks: seq<Hunk>, applied: set<nat>): seq<Line>
    requires DiffsTexts(oldText, newText, hunks)
  {
    FlaggedValid(oldText, newText, hunks);
    Spliced(FlaggedLines(oldText), FlaggedLines(newText), hunks, 0, 0, 0, applied)
  }

  lemma FlaggedSpliceTexts(oldText: string, newText: string, hunks: seq<Hunk>, applied: set<nat>)
    requires DiffsTexts(oldText, newText, hunks)
    ensures Maps(TextOf, FlaggedSplice(oldText, newText, hunks, applied),
                 Spliced(ToLines(oldText), ToLines(newText), hunks, 0, 0, 0, applied))
    ensures Maps(Marked, FlaggedSplice(oldText, newText, hunks, applied),
                 Spliced(EndedLines(oldText), EndedLines(newText), hunks, 0, 0, 0, applied))
  {
    var was, now := FlaggedLines(oldText), FlaggedLines(newText);
    FlaggedValid(oldText, newText, hunks);
    FlaggedIsEnded(oldText);
    FlaggedIsEnded(newText);
    MapsSpliced(TextOf, was, now, ToLines(oldText), ToLines(newText), hunks, 0, 0, 0, applied);
    MapsSpliced(Marked, was, now, EndedLines(oldText), EndedLines(newText), hunks, 0, 0, 0, applied);
  }

  predicate IsOpen(line: Line)
  {
    line.open
  }

  predicate OpenNonempty(line: Line)
  {
    line.open && line.text != ""
  }

  lemma FlaggedEnd(text: string)
    ensures EndsIn(FlaggedLines(text), IsOpen, Ending(text) == "")
    ensures EndsIn(FlaggedLines(text), OpenNonempty, Ending(text) == "")
  {
    if text != "" && text[|text| - 1] != '\n' {
      OpenNotEmpty(text);
    }
  }

  /** Which text the splice ends as. */
  function TailText(oldText: string, newText: string, hunks: seq<Hunk>, applied: set<nat>, base: bool): string
  {
    if TailIsNew(hunks, 0, applied, base, base, |ToLines(oldText)|, |ToLines(newText)|) then newText else oldText
  }

  lemma FlaggedSpliceEnd(oldText: string, newText: string, hunks: seq<Hunk>, applied: set<nat>, base: bool)
    requires DiffsTexts(oldText, newText, hunks) && Apart(hunks)
    ensures var lines, open := FlaggedSplice(oldText, newText, hunks, applied),
                               Ending(TailText(oldText, newText, hunks, applied, base)) == "";
            EndsIn(lines, IsOpen, open) && EndsIn(lines, OpenNonempty, open)
  {
    var was, now := FlaggedLines(oldText), FlaggedLines(newText);
    FlaggedValid(oldText, newText, hunks);
    FlaggedEnd(oldText);
    FlaggedEnd(newText);
    SplicedTail(was, now, IsOpen, hunks, 0, 0, 0, applied, base, Ending(oldText) == "", Ending(newText) == "");
    SplicedTail(was, now, OpenNonempty, hunks, 0, 0, 0, applied, base, Ending(oldText) == "", Ending(newText) == "");
  }

  /** The spliced text is the spliced lines with their own ends, whichever side the unchanged
      lines are read from. */
  lemma SpliceIsFlagged(oldText: string, newText: string, hunks: seq<Hunk>, applied: set<nat>, base: bool)
    requires DiffsTexts(oldText, newText, hunks) && Apart(hunks)
    ensures SplicedText(oldText, newText, hunks, applied, base)
         == FlaggedText(FlaggedSplice(oldText, newText, hunks, applied))
  {
    var lines := FlaggedSplice(oldText, newText, hunks, applied);
    FlaggedSpliceTexts(oldText, newText, hunks, applied);
    FlaggedSpliceEnd(oldText, newText, hunks, applied, base);
    assert Texts(lines) == Spliced(ToLines(oldText), ToLines(newText), hunks, 0, 0, 0, applied);
  }

  // ----- against joining ended lines -----

  /** The lines of a splice of ended lines. */
  function EndedSplice(oldText: string, newText: string, hunks: seq<Hunk>, applied: set<nat>): seq<string>
    requires Valid(EndedLines(oldText), EndedLines(newText), hunks, 0, 0, 0)
  {
    Spliced(EndedLines(oldText), EndedLines(newText), hunks, 0, 0, 0, applied)
  }

  /** A line a newline ends does not end in a NUL. */
  predicate Clean(line: Line)
  {
    line.open || !Unended(line.text)
  }

  lemma CleanText(text: string)
    requires !NulBeforeNewline(text)
    ensures forall line | line in FlaggedLines(text) :: Clean(line)
  {
    if text != "" {
      ClosedClean(text);
      var lines := FlaggedLines(text);
      forall k | 0 <= k < |lines|
        ensures Clean(lines[k])
      {
        assert !lines[k].open ==> Closed(text)[k] == lines[k].text;
      }
    }
  }

  lemma MarkedText(lines: seq<Line>, ended: seq<string>)
    requires Maps(Marked, lines, ended) && forall k | 0 <= k < |lines| :: Clean(lines[k])
    ensures EndedText(ended) == FlaggedText(lines)
  {
    forall k | 0 <= k < |lines|
      ensures Bare(ended[k]) == lines[k].text && (Unended(ended[k]) <==> lines[k].open)
    {
      BareMarked(lines[k].text);
    }
    assert BareLines(ended) == Texts(lines);
  }

  /** Where no NUL stands before a newline, splicing plain lines and then choosing an ending
      gives the text that joining ended lines gives. */
  lemma SpliceIsEndedJoin(oldText: string, newText: string, hunks: seq<Hunk>, applied: set<nat>, base: bool)
    requires DiffsTexts(oldText, newText, hunks) && Apart(hunks)
    requires !NulBeforeNewline(oldText) && !NulBeforeNewline(newText)
    ensures SplicedText(oldText, newText, hunks, applied, base)
         == EndedText(EndedSplice(oldText, newText, hunks, applied))
  {
    var was, now, lines := FlaggedLines(oldText), FlaggedLines(newText),
                           FlaggedSplice(oldText, newText, hunks, applied);
    SpliceIsFlagged(oldText, newText, hunks, applied, base);
    FlaggedSpliceTexts(oldText, newText, hunks, applied);
    FlaggedValid(oldText, newText, hunks);
    CleanText(oldText);
    CleanText(newText);
    var either := set line | line in was + now;
    SplicedElements(was, now, hunks, 0, 0, 0, applied, either);
    forall k | 0 <= k < |lines|
      ensures Clean(lines[k])
    {
      assert lines[k] in lines;
    }
    MarkedText(lines, EndedSplice(oldText, newText, hunks, applied));
  }

  function Below(n: nat): (s: set<nat>)
    ensures forall k: nat :: k in s <==> k < n
  {
    if n == 0 then {} else Below(n - 1) + {n - 1}
  }

  /** The two agree on every choice of hunks if and only if that holds of both texts. */
  lemma JoinAgreesExactly(oldText: string, newText: string, hunks: seq<Hunk>, base: bool)
    requires DiffsTexts(oldText, newText, hunks) && Apart(hunks)
    ensures (forall applied ::
               SplicedText(oldText, newText, hunks, applied, base)
                    == EndedText(EndedSplice(oldText, newText, hunks, applied)))
       <==> !NulBeforeNewline(oldText) && !NulBeforeNewline(newText)
  {
    if !NulBeforeNewline(oldText) && !NulBeforeNewline(newText) {
      forall applied
        ensures SplicedText(oldText, newText, hunks, applied, base)
             == EndedText(EndedSplice(oldText, newText, hunks, applied))
      {
        SpliceIsEndedJoin(oldText, newText, hunks, applied, base);
      }
    } else {
      SpliceEnds(oldText, newText, hunks, {}, base);
      SpliceEnds(oldText, newText, hunks, Below(|hunks|), base);
      JoinEnds(oldText, newText, hunks);
      EndedTextInverts(oldText);
      EndedTextInverts(newText);
    }
  }

  lemma JoinEnds(oldText: string, newText: string, hunks: seq<Hunk>)
    requires Valid(EndedLines(oldText), EndedLines(newText), hunks, 0, 0, 0)
    ensures EndedSplice(oldText, newText, hunks, {}) == EndedLines(oldText)
    ensures EndedSplice(oldText, newText, hunks, Below(|hunks|)) == EndedLines(newText)
  {
    SplicedNone(EndedLines(oldText), EndedLines(newText), hunks, 0, 0, 0, {});
    SplicedAll(EndedLines(oldText), EndedLines(newText), hunks, 0, 0, 0, Below(|hunks|));
  }

  /** Joining the old blocks at every hunk writes the old text, and the new blocks the new one,
      each exactly when no NUL stands before a newline in it. */
  lemma JoinWritesEnds(oldText: string, newText: string, hunks: seq<Hunk>)
    requires Valid(EndedLines(oldText), EndedLines(newText), hunks, 0, 0, 0)
    ensures var was, now := EndedLines(oldText), EndedLines(newText);
            && (EndedText(Join(was, now, hunks, 0, 0, 0, OldBlocks(was, now, hunks, 0, 0, 0))) == oldText
                <==> !NulBeforeNewline(oldText))
            && (EndedText(Join(was, now, hunks, 0, 0, 0, NewBlocks(was, now, hunks, 0, 0, 0))) == newText
                <==> !NulBeforeNewline(newText))
  {
    JoinRebuilds(EndedLines(oldText), EndedLines(newText), hunks, 0, 0, 0);
    EndedTextInverts(oldText);
    EndedTextInverts(newText);
  }

  lemma {:induction false} ChosenOld<T>(was: seq<T>, now: seq<T>, hunks: seq<Hunk>, k: nat, i: nat, j: nat,
                                        applied: set<nat>)
    requires Valid(was, now, hunks, k, i, j) && forall q: nat | k <= q < |hunks| :: q !in applied
    ensures Chosen(was, now, hunks, k, i, j, applied) == OldBlocks(was, now, hunks, k, i, j)
    decreases |hunks| - k
  {
    if k < |hunks| {
      ChosenOld(was, now, hunks, k + 1, OldAt(hunks[k]) + hunks[k].oldCount, NewAt(hunks[k]) + hunks[k].newCount,
                applied);
    }
  }

  lemma {:induction false} ChosenNew<T>(was: seq<T>, now: seq<T>, hunks: seq<Hunk>, k: nat, i: nat, j: nat,
                                        applied: set<nat>)
    requires Valid(was, now, hunks, k, i, j) && forall q: nat | k <= q < |hunks| :: q in applied
    ensures Chosen(was, now, hunks, k, i, j, applied) == NewBlocks(was, now, hunks, k, i, j)
    decreases |hunks| - k
  {
    if k < |hunks| {
      ChosenNew(was, now, hunks, k + 1, OldAt(hunks[k]) + hunks[k].oldCount, NewAt(hunks[k]) + hunks[k].newCount,
                applied);
    }
  }

  lemma SplicedNone<T>(was: seq<T>, now: seq<T>, hunks: seq<Hunk>, k: nat, i: nat, j: nat, applied: set<nat>)
    requires Valid(was, now, hunks, k, i, j) && forall q: nat | k <= q < |hunks| :: q !in applied
    ensures Spliced(was, now, hunks, k, i, j, applied) == was[i..]
  {
    SplicedIsJoin(was, now, hunks, k, i, j, applied);
    ChosenOld(was, now, hunks, k, i, j, applied);
    JoinRebuilds(was, now, hunks, k, i, j);
  }

  lemma SplicedAll<T>(was: seq<T>, now: seq<T>, hunks: seq<Hunk>, k: nat, i: nat, j: nat, applied: set<nat>)
    requires Valid(was, now, hunks, k, i, j) && forall q: nat | k <= q < |hunks| :: q in applied
    ensures Spliced(was, now, hunks, k, i, j, applied) == now[j..]
  {
    SplicedIsJoin(was, now, hunks, k, i, j, applied);
    ChosenNew(was, now, hunks, k, i, j, applied);
    JoinRebuilds(was, now, hunks, k, i, j);
  }

  /** With no hunk applied the splice is the old text, with every hunk applied the new one,
      last newline and all. */
  lemma SpliceEnds(oldText: string, newText: string, hunks: seq<Hunk>, applied: set<nat>, base: bool)
    requires DiffsTexts(oldText, newText, hunks) && Apart(hunks)
    ensures (forall k: nat | k < |hunks| :: k !in applied) ==>
            SplicedText(oldText, newText, hunks, applied, base) == oldText
    ensures (forall k: nat | k < |hunks| :: k in applied) ==>
            SplicedText(oldText, newText, hunks, applied, base) == newText
  {
    SpliceIsFlagged(oldText, newText, hunks, applied, base);
    FlaggedValid(oldText, newText, hunks);
    if forall k: nat | k < |hunks| :: k !in applied {
      SplicedNone(FlaggedLines(oldText), FlaggedLines(newText), hunks, 0, 0, 0, applied);
    }
    if forall k: nat | k < |hunks| :: k in applied {
      SplicedAll(FlaggedLines(oldText), FlaggedLines(newText), hunks, 0, 0, 0, applied);
    }
    FlaggedTextInverts(oldText);
    FlaggedTextInverts(newText);
  }

  /** Which side the unchanged lines are read from makes no difference. */
  lemma SpliceBaseFree(oldText: string, newText: string, hunks: seq<Hunk>, applied: set<nat>)
    requires DiffsTexts(oldText, newText, hunks) && Apart(hunks)
    ensures SplicedText(oldText, newText, hunks, applied, true) == SplicedText(oldText, newText, hunks, applied, false)
  {
    SpliceIsFlagged(oldText, newText, hunks, applied, true);
    SpliceIsFlagged(oldText, newText, hunks, applied, false);
  }

  // ----- reading a splice back -----

  predicate NewlineFree(lines: seq<string>)
  {
    forall i | 0 <= i < |lines| :: '\n' !in lines[i]
  }

  lemma InitOfSnoc<T>(s: seq<T>, x: T)
    ensures (s + [x])[..|s|] == s && (s + [x])[|s|] == x
  {
  }

  lemma GluedOpen(lines: seq<string>, text: string)
    requires lines != [] && NewlineFree(lines) && lines[|lines| - 1] != "" && text == Glue(lines, '\n')
    ensures ToLines(text) == lines
  {
    PiecesGlue(lines, '\n');
  }

  lemma GluedEnded(lines: seq<string>, text: string)
    requires lines != [] && NewlineFree(lines) && text == Glue(lines + [""], '\n')
    ensures ToLines(text) == lines
  {
    var more := lines + [""];
    InitOfSnoc(lines, "");
    PiecesGlue(more, '\n');
  }

  /** Lines glued and ended as a text ends read back as themselves. */
  lemma GluedReadsBack(lines: seq<string>, ending: string)
    requires lines != [] && NewlineFree(lines)
    requires ending == "\n" || (ending == "" && lines[|lines| - 1] != "")
    ensures ToLines(Glue(lines, '\n') + ending) == lines
  {
    if ending == "" {
      assert Glue(lines, '\n') + "" == Glue(lines, '\n');
      GluedOpen(lines, Glue(lines, '\n') + "");
    } else {
      GlueSnoc(lines, '\n', "");
      assert Glue(lines, '\n') + ['\n'] + "" == Glue(lines, '\n') + "\n";
      GluedEnded(lines, Glue(lines, '\n') + "\n");
    }
  }

  lemma PartsFrom<T>(run: seq<T>, block: seq<T>, rest: seq<T>, all: seq<T>, s: set<T>)
    requires all == run + block + rest
    requires (forall x | x in run :: x in s) && (forall x | x in block :: x in s) && (forall x | x in rest :: x in s)
    ensures forall x | x in all :: x in s
  {
  }

  lemma {:induction false} SplicedElements<T>(was: seq<T>, now: seq<T>, hunks: seq<Hunk>, k: nat, i: nat, j: nat,
                                              applied: set<nat>, s: set<T>)
    requires Valid(was, now, hunks, k, i, j) && (forall x | x in was :: x in s) && (forall x | x in now :: x in s)
    ensures forall x | x in Spliced(was, now, hunks, k, i, j, applied) :: x in s
    decreases |hunks| - k
  {
    if k < |hunks| {
      var h := hunks[k];
      var rest := Spliced(was, now, hunks, k + 1, OldAt(h) + h.oldCount, NewAt(h) + h.newCount, applied);
      SplicedElements(was, now, hunks, k + 1, OldAt(h) + h.oldCount, NewAt(h) + h.newCount, applied, s);
      PartsFrom(was[i..OldAt(h)], ChosenBlock(was, now, h, k, applied), rest,
                Spliced(was, now, hunks, k, i, j, applied), s);
    }
  }

  lemma LinesAreFree(text: string)
    ensures NewlineFree(ToLines(text))
  {
    PiecesFree(text, '\n');
  }

  lemma SplicedNewlineFree(oldText: string, newText: string, hunks: seq<Hunk>, applied: set<nat>)
    requires Valid(ToLines(oldText), ToLines(newText), hunks, 0, 0, 0)
    ensures NewlineFree(Spliced(ToLines(oldText), ToLines(newText), hunks, 0, 0, 0, applied))
  {
    var was, now := ToLines(oldText), ToLines(newText);
    var out, either := Spliced(was, now, hunks, 0, 0, 0, applied), set line | line in was + now;
    SplicedElements(was, now, hunks, 0, 0, 0, applied, either);
    LinesAreFree(oldText);
    LinesAreFree(newText);
    forall q | 0 <= q < |out|
      ensures '\n' !in out[q]
    {
      assert out[q] in out;
    }
  }

  /** The spliced text reads back as the spliced lines. */
  lemma SpliceReadsBack(oldText: string, newText: string, hunks: seq<Hunk>, applied: set<nat>, base: bool)
    requires DiffsTexts(oldText, newText, hunks) && Apart(hunks)
    ensures ToLines(SplicedText(oldText, newText, hunks, applied, base))
         == Spliced(ToLines(oldText), ToLines(newText), hunks, 0, 0, 0, applied)
  {
    var out := Spliced(ToLines(oldText), ToLines(newText), hunks, 0, 0, 0, applied);
    if out == [] {
      assert ToLines("") == [];
    } else {
      SplicedNewlineFree(oldText, newText, hunks, applied);
      OpenSpliceNonempty(oldText, newText, hunks, applied, base);
      GluedReadsBack(out, Ending(TailText(oldText, newText, hunks, applied, base)));
    }
  }

  lemma OpenSpliceNonempty(oldText: string, newText: string, hunks: seq<Hunk>, applied: set<nat>, base: bool)
    requires DiffsTexts(oldText, newText, hunks) && Apart(hunks)
    ensures var out := Spliced(ToLines(oldText), ToLines(newText), hunks, 0, 0, 0, applied);
            out != [] && Ending(TailText(oldText, newText, hunks, applied, base)) == "" ==> out[|out| - 1] != ""
  {
    FlaggedSpliceTexts(oldText, newText, hunks, applied);
    FlaggedSpliceEnd(oldText, newText, hunks, applied, base);
  }
}
