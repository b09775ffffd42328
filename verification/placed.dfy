/** Whether a text reads as a diff's rows, given which old and new lines it holds. */
module Placed {
  import opened Diff
  import opened Text
  import opened Shuffle

  /** Which lines of a side, by one-based number, the text holds. */
  type Held = nat -> bool

  /** The held lines of a side among the `count` after the first `at`. */
  function Kept<T>(side: seq<T>, at: nat, count: nat, held: Held): seq<T>
    requires at + count <= |side|
  {
    if count == 0 then []
    else
      var rest := Kept(side, at, count - 1, held);
      if held(at + count) then rest + [side[at + count - 1]] else rest
  }

  function KeptOld<T>(was: seq<T>, h: Hunk, held: Held): seq<T>
    requires 0 <= OldAt(h) && OldAt(h) + h.oldCount <= |was|
  {
    Kept(was, OldAt(h), h.oldCount, held)
  }

  function KeptNew<T>(now: seq<T>, h: Hunk, held: Held): seq<T>
    requires 0 <= NewAt(h) && NewAt(h) + h.newCount <= |now|
  {
    Kept(now, NewAt(h), h.newCount, held)
  }

  /** How many lines of a text the run up to a hunk and the hunk itself take. */
  function Span<T>(was: seq<T>, now: seq<T>, h: Hunk, i: nat, olds: Held, news: Held): nat
    requires i <= OldAt(h) && OldAt(h) + h.oldCount <= |was|
    requires 0 <= NewAt(h) && NewAt(h) + h.newCount <= |now|
  {
    OldAt(h) - i + |KeptOld(was, h, olds)| + |KeptNew(now, h, news)|
  }

  /** `lines` from `at` on start with the unchanged old lines from `i` up to the hunk, then a
      merge of the hunk's held old and new lines. */
  predicate Opens<T(==)>(was: seq<T>, now: seq<T>, h: Hunk, i: nat, olds: Held, news: Held, lines: seq<T>, at: nat)
    requires i <= OldAt(h) && OldAt(h) + h.oldCount <= |was|
    requires 0 <= NewAt(h) && NewAt(h) + h.newCount <= |now|
  {
    var start, next := at + (OldAt(h) - i), at + Span(was, now, h, i, olds, news);
    && next <= |lines|
    && lines[at..start] == was[i..OldAt(h)]
    && Shuffles(KeptOld(was, h, olds), KeptNew(now, h, news), lines[start..next])
  }

  /** `lines` from `at` on are the unchanged old lines from `i` on with, at each hunk from the
      `k`th, a merge of the held old and new lines. */
  predicate Reads<T(==)>(was: seq<T>, now: seq<T>, hunks: seq<Hunk>, k: nat, i: nat, j: nat, olds: Held, news: Held,
                         lines: seq<T>, at: nat)
    requires Valid(was, now, hunks, k, i, j) && at <= |lines|
    decreases |hunks| - k
  {
    if k == |hunks| then lines[at..] == was[i..]
    else
      var h := hunks[k];
      && Opens(was, now, h, i, olds, news, lines, at)
      && Reads(was, now, hunks, k + 1, OldAt(h) + h.oldCount, NewAt(h) + h.newCount, olds, news,
               lines, at + Span(was, now, h, i, olds, news))
  }

  /** Collects one side's held lines in order. */
  method Collect<T>(side: seq<T>, at: nat, count: nat, held: Held) returns (kept: seq<T>)
    requires at + count <= |side|
    ensures kept == Kept(side, at, count, held)
  {
    kept := [];
    for k := 0 to count
      invariant kept == Kept(side, at, k, held)
    {
      if held(at + k + 1) {
        kept := kept + [side[at + k]];
      }
    }
  }

  /** Walks `lines` from `at` past the old lines up to line `to`. */
  method Unchanged<T(==)>(was: seq<T>, lines: seq<T>, at: nat, next: nat, to: nat) returns (same: bool, past: nat)
    requires at <= |lines| && next <= to <= |was|
    ensures same <==> at + (to - next) <= |lines| && lines[at..at + (to - next)] == was[next..to]
    ensures same ==> past == at + (to - next)
  {
    past := at;
    for l := next to to
      invariant past == at + (l - next) <= |lines|
      invariant lines[at..past] == was[next..l]
    {
      if past >= |lines| || lines[past] != was[l] {
        assert past < |lines| && at + (to - next) <= |lines| ==> lines[at..at + (to - next)][l - next] == lines[past];
        assert was[next..to][l - next] == was[l];
        return false, past;
      }
      assert lines[at..past + 1] == lines[at..past] + [lines[past]];
      assert was[next..l + 1] == was[next..l] + [was[l]];
      past := past + 1;
    }
    return true, past;
  }

  /** The lines at one hunk: the run before it, then its merge. */
  method AtHunk<T(==)>(was: seq<T>, now: seq<T>, h: Hunk, i: nat, olds: Held, news: Held, lines: seq<T>, at: nat)
    returns (ok: bool, past: nat)
    requires i <= OldAt(h) && OldAt(h) + h.oldCount <= |was|
    requires 0 <= NewAt(h) && NewAt(h) + h.newCount <= |now|
    requires at <= |lines|
    ensures ok <==> Opens(was, now, h, i, olds, news, lines, at)
    ensures ok ==> past == at + Span(was, now, h, i, olds, news)
  {
    var same, start := Unchanged(was, lines, at, i, OldAt(h));
    if !same {
      return false, start;
    }
    var a := Collect(was, OldAt(h), h.oldCount, olds);
    var b := Collect(now, NewAt(h), h.newCount, news);
    ok := Interleaves(lines, start, a, b);
    past := start + |a| + |b|;
  }

  /** What is left is the unchanged lines after the last hunk. */
  method AtEnd<T(==)>(was: seq<T>, next: nat, lines: seq<T>, at: nat) returns (ok: bool)
    requires next <= |was| && at <= |lines|
    ensures ok <==> lines[at..] == was[next..]
  {
    var same, past := Unchanged(was, lines, at, next, |was|);
    if at + (|was| - next) == |lines| {
      assert lines[at..at + (|was| - next)] == lines[at..] && was[next..|was|] == was[next..];
    }
    return same && past == |lines|;
  }

  /** The text is `good` exactly when its lines from `at` on read as the hunks from the `k`th. */
  ghost predicate Judged<T>(good: bool, was: seq<T>, now: seq<T>, hunks: seq<Hunk>, k: nat, next: nat,
                            olds: Held, news: Held, lines: seq<T>, at: nat)
  {
    at <= |lines| && exists j: nat ::
      Valid(was, now, hunks, k, next, j) && (good <==> Reads(was, now, hunks, k, next, j, olds, news, lines, at))
  }

  lemma JudgedTurn<T>(good: bool, was: seq<T>, now: seq<T>, hunks: seq<Hunk>, k: nat, next: nat,
                      olds: Held, news: Held, lines: seq<T>, at: nat)
    requires k < |hunks| && Judged(good, was, now, hunks, k, next, olds, news, lines, at)
    ensures next <= OldAt(hunks[k]) && OldAt(hunks[k]) + hunks[k].oldCount <= |was|
    ensures 0 <= NewAt(hunks[k]) && NewAt(hunks[k]) + hunks[k].newCount <= |now|
    ensures if Opens(was, now, hunks[k], next, olds, news, lines, at)
            then Judged(good, was, now, hunks, k + 1, OldAt(hunks[k]) + hunks[k].oldCount, olds, news, lines,
                        at + Span(was, now, hunks[k], next, olds, news))
            else !good
  {
    var j: nat :| Valid(was, now, hunks, k, next, j)
                  && (good <==> Reads(was, now, hunks, k, next, j, olds, news, lines, at));
    var j': nat := NewAt(hunks[k]) + hunks[k].newCount;
    assert Valid(was, now, hunks, k + 1, OldAt(hunks[k]) + hunks[k].oldCount, j');
  }

  /** The walk over the hunks, on lines already read. */
  method Walk<T(==)>(was: seq<T>, now: seq<T>, hunks: seq<Hunk>, lines: seq<T>, olds: Held, news: Held)
    returns (ok: bool)
    requires Valid(was, now, hunks, 0, 0, 0)
    ensures ok <==> Reads(was, now, hunks, 0, 0, 0, olds, news, lines, 0)
  {
    var at: nat, next: nat := 0, 0;
    ghost var good := Reads(was, now, hunks, 0, 0, 0, olds, news, lines, 0);
    for k := 0 to |hunks|
      invariant Judged(good, was, now, hunks, k, next, olds, news, lines, at)
    {
      JudgedTurn(good, was, now, hunks, k, next, olds, news, lines, at);
      var h := hunks[k];
      var here, past := AtHunk(was, now, h, next, olds, news, lines, at);
      if !here {
        return false;
      }
      at, next := past, OldAt(h) + h.oldCount;
    }
    ok := AtEnd(was, next, lines, at);
  }

  /** Whether `text` reads as the rows of a diff from `old` to `new`. */
  method IsPlaced(oldText: string, newText: string, hunks: seq<Hunk>, text: string, olds: Held, news: Held)
    returns (ok: bool)
    requires Valid(EndedLines(oldText), EndedLines(newText), hunks, 0, 0, 0)
    ensures ok <==> Reads(EndedLines(oldText), EndedLines(newText), hunks, 0, 0, 0, olds, news, EndedLines(text), 0)
  {
    var was, now := EndedLines(oldText), EndedLines(newText);
    var lines := EndedLines(text);
    ok := Walk(was, now, hunks, lines, olds, news);
  }

  // ----- what the walk accepts -----

  /** Each block merges the held lines of its hunk. */
  ghost predicate Merges<T>(was: seq<T>, now: seq<T>, hunks: seq<Hunk>, k: nat, i: nat, j: nat, olds: Held, news: Held,
                            blocks: seq<seq<T>>)
    requires Valid(was, now, hunks, k, i, j)
    decreases |hunks| - k
  {
    |blocks| == |hunks| - k
    && (k < |hunks| ==>
      var h := hunks[k];
      && Shuffles(KeptOld(was, h, olds), KeptNew(now, h, news), blocks[0])
      && Merges(was, now, hunks, k + 1, OldAt(h) + h.oldCount, NewAt(h) + h.newCount, olds, news, blocks[1..]))
  }

  lemma Cuts<T>(lines: seq<T>, at: nat, run: seq<T>, block: seq<T>, rest: seq<T>)
    requires at <= |lines| && lines[at..] == run + block + rest
    ensures var start, next := at + |run|, at + |run| + |block|;
            && next <= |lines|
            && lines[at..start] == run && lines[start..next] == block && lines[next..] == rest
  {
    var tail := lines[at..];
    assert tail[..|run|] == run && tail[|run|..|run| + |block|] == block && tail[|run| + |block|..] == rest;
    assert lines[at..at + |run|] == tail[..|run|];
    assert lines[at + |run|..at + |run| + |block|] == tail[|run|..|run| + |block|];
  }

  lemma Pieced<T>(lines: seq<T>, at: nat, start: nat, next: nat)
    requires at <= start <= next <= |lines|
    ensures lines[at..] == lines[at..start] + lines[start..next] + lines[next..]
  {
  }

  lemma {:induction false} BlocksRead<T>(was: seq<T>, now: seq<T>, hunks: seq<Hunk>, k: nat, i: nat, j: nat, olds: Held,
                                         news: Held, blocks: seq<seq<T>>, lines: seq<T>, at: nat)
    requires Valid(was, now, hunks, k, i, j) && Merges(was, now, hunks, k, i, j, olds, news, blocks)
    requires at <= |lines| && lines[at..] == Join(was, now, hunks, k, i, j, blocks)
    ensures Reads(was, now, hunks, k, i, j, olds, news, lines, at)
    decreases |hunks| - k
  {
    if k < |hunks| {
      var h := hunks[k];
      var i', j' := OldAt(h) + h.oldCount, NewAt(h) + h.newCount;
      Cuts(lines, at, was[i..OldAt(h)], blocks[0], Join(was, now, hunks, k + 1, i', j', blocks[1..]));
      ShuffleLength(KeptOld(was, h, olds), KeptNew(now, h, news), blocks[0]);
      BlocksRead(was, now, hunks, k + 1, i', j', olds, news, blocks[1..], lines, at + Span(was, now, h, i, olds, news));
    }
  }

  lemma JoinTurn<T>(was: seq<T>, now: seq<T>, hunks: seq<Hunk>, k: nat, i: nat, j: nat, olds: Held, news: Held,
                    lines: seq<T>, at: nat,
                    block: seq<T>, rest: seq<seq<T>>)
    requires Valid(was, now, hunks, k, i, j) && k < |hunks| && Opens(was, now, hunks[k], i, olds, news, lines, at)
    requires |rest| == |hunks| - k - 1
    requires var next := at + Span(was, now, hunks[k], i, olds, news);
             && block == lines[at + (OldAt(hunks[k]) - i)..next]
             && lines[next..] == Join(was, now, hunks, k + 1, OldAt(hunks[k]) + hunks[k].oldCount,
                                      NewAt(hunks[k]) + hunks[k].newCount, rest)
    ensures lines[at..] == Join(was, now, hunks, k, i, j, [block] + rest)
  {
    assert ([block] + rest)[1..] == rest;
    Pieced(lines, at, at + (OldAt(hunks[k]) - i), at + Span(was, now, hunks[k], i, olds, news));
  }

  lemma {:induction false} ReadHasBlocks<T>(was: seq<T>, now: seq<T>, hunks: seq<Hunk>, k: nat, i: nat, j: nat,
                                            olds: Held, news: Held, lines: seq<T>, at: nat)
    returns (blocks: seq<seq<T>>)
    requires Valid(was, now, hunks, k, i, j) && at <= |lines| && Reads(was, now, hunks, k, i, j, olds, news, lines, at)
    ensures Merges(was, now, hunks, k, i, j, olds, news, blocks)
    ensures lines[at..] == Join(was, now, hunks, k, i, j, blocks)
    decreases |hunks| - k
  {
    if k == |hunks| {
      blocks := [];
    } else {
      var h := hunks[k];
      var start, next := at + (OldAt(h) - i), at + Span(was, now, h, i, olds, news);
      var rest := ReadHasBlocks(was, now, hunks, k + 1, OldAt(h) + h.oldCount, NewAt(h) + h.newCount, olds, news, lines,
                                next);
      blocks := [lines[start..next]] + rest;
      assert blocks[1..] == rest;
      JoinTurn(was, now, hunks, k, i, j, olds, news, lines, at, lines[start..next], rest);
    }
  }

  /** A text is accepted, from any hunk on, exactly when it is the unchanged lines joined with
      some merge of the held lines at each hunk. */
  lemma ReadsMeansJoined<T>(was: seq<T>, now: seq<T>, hunks: seq<Hunk>, k: nat, i: nat, j: nat, olds: Held, news: Held,
                            text: seq<T>)
    requires Valid(was, now, hunks, k, i, j)
    ensures Reads(was, now, hunks, k, i, j, olds, news, text, 0) <==>
            exists blocks ::
              && Merges(was, now, hunks, k, i, j, olds, news, blocks)
              && text == Join(was, now, hunks, k, i, j, blocks)
  {
    assert text[0..] == text;
    if Reads(was, now, hunks, k, i, j, olds, news, text, 0) {
      var blocks := ReadHasBlocks(was, now, hunks, k, i, j, olds, news, text, 0);
    }
    forall blocks | Merges(was, now, hunks, k, i, j, olds, news, blocks) &&
        text == Join(was, now, hunks, k, i, j, blocks)
      ensures Reads(was, now, hunks, k, i, j, olds, news, text, 0)
    {
      BlocksRead(was, now, hunks, k, i, j, olds, news, blocks, text, 0);
    }
  }

  lemma {:induction false} KeptAll<T>(side: seq<T>, at: nat, count: nat, held: Held)
    requires at + count <= |side|
    ensures (forall l :: held(l)) ==> Kept(side, at, count, held) == side[at..at + count]
    ensures (forall l :: !held(l)) ==> Kept(side, at, count, held) == []
  {
    if count > 0 {
      KeptAll(side, at, count - 1, held);
      assert side[at..at + count] == side[at..at + count - 1] + [side[at + count - 1]];
    }
  }

  /** With every old line held and no new one, the blocks are the old lines. */
  lemma {:induction false} OldBlocksOnly<T>(was: seq<T>, now: seq<T>, hunks: seq<Hunk>, k: nat, i: nat, j: nat,
                                            olds: Held, news: Held, blocks: seq<seq<T>>)
    requires Valid(was, now, hunks, k, i, j) && forall l :: olds(l) && !news(l)
    ensures Merges(was, now, hunks, k, i, j, olds, news, blocks) <==> blocks == OldBlocks(was, now, hunks, k, i, j)
    decreases |hunks| - k
  {
    if k < |hunks| && |blocks| == |hunks| - k {
      var h := hunks[k];
      OldBlocksOnly(was, now, hunks, k + 1, OldAt(h) + h.oldCount, NewAt(h) + h.newCount, olds, news, blocks[1..]);
      KeptAll(was, OldAt(h), h.oldCount, olds);
      KeptAll(now, NewAt(h), h.newCount, news);
      ShuffleAlone(OldLines(was, h), blocks[0]);
      assert blocks == [blocks[0]] + blocks[1..];
    }
  }

  /** And the new lines the other way round. */
  lemma {:induction false} NewBlocksOnly<T>(was: seq<T>, now: seq<T>, hunks: seq<Hunk>, k: nat, i: nat, j: nat,
                                            olds: Held, news: Held, blocks: seq<seq<T>>)
    requires Valid(was, now, hunks, k, i, j) && forall l :: news(l) && !olds(l)
    ensures Merges(was, now, hunks, k, i, j, olds, news, blocks) <==> blocks == NewBlocks(was, now, hunks, k, i, j)
    decreases |hunks| - k
  {
    if k < |hunks| && |blocks| == |hunks| - k {
      var h := hunks[k];
      NewBlocksOnly(was, now, hunks, k + 1, OldAt(h) + h.oldCount, NewAt(h) + h.newCount, olds, news, blocks[1..]);
      KeptAll(was, OldAt(h), h.oldCount, olds);
      KeptAll(now, NewAt(h), h.newCount, news);
      ShuffleAlone(NewLines(now, h), blocks[0]);
      assert blocks == [blocks[0]] + blocks[1..];
    }
  }

  /** Holding every old line and no new one, only the old text is accepted. */
  lemma OldSideReadsOld<T>(was: seq<T>, now: seq<T>, hunks: seq<Hunk>, olds: Held, news: Held, text: seq<T>)
    requires Valid(was, now, hunks, 0, 0, 0) && forall l :: olds(l) && !news(l)
    ensures Reads(was, now, hunks, 0, 0, 0, olds, news, text, 0) <==> text == was
  {
    ReadsMeansJoined(was, now, hunks, 0, 0, 0, olds, news, text);
    JoinRebuilds(was, now, hunks, 0, 0, 0);
    OldBlocksOnly(was, now, hunks, 0, 0, 0, olds, news, OldBlocks(was, now, hunks, 0, 0, 0));
    forall blocks | Merges(was, now, hunks, 0, 0, 0, olds, news, blocks)
      ensures blocks == OldBlocks(was, now, hunks, 0, 0, 0)
    {
      OldBlocksOnly(was, now, hunks, 0, 0, 0, olds, news, blocks);
    }
  }

  /** Holding every new line and no old one, only the new text. */
  lemma NewSideReadsNew<T>(was: seq<T>, now: seq<T>, hunks: seq<Hunk>, olds: Held, news: Held, text: seq<T>)
    requires Valid(was, now, hunks, 0, 0, 0) && forall l :: news(l) && !olds(l)
    ensures Reads(was, now, hunks, 0, 0, 0, olds, news, text, 0) <==> text == now
  {
    ReadsMeansJoined(was, now, hunks, 0, 0, 0, olds, news, text);
    JoinRebuilds(was, now, hunks, 0, 0, 0);
    NewBlocksOnly(was, now, hunks, 0, 0, 0, olds, news, NewBlocks(was, now, hunks, 0, 0, 0));
    forall blocks | Merges(was, now, hunks, 0, 0, 0, olds, news, blocks)
      ensures blocks == NewBlocks(was, now, hunks, 0, 0, 0)
    {
      NewBlocksOnly(was, now, hunks, 0, 0, 0, olds, news, blocks);
    }
  }

  // ----- where each hunk's lines stand -----

  lemma {:induction false} KeptWithin<T>(side: seq<T>, p: nat, at: nat, count: nat, held: Held)
    requires at + count <= p <= |side|
    ensures Kept(side[..p], at, count, held) == Kept(side, at, count, held)
  {
    if count > 0 {
      KeptWithin(side, p, at, count - 1, held);
    }
  }

  /** The hunks before the `k`th, on the lines before it. */
  lemma {:induction false} ValidBefore<T>(was: seq<T>, now: seq<T>, hunks: seq<Hunk>, k0: nat, i: nat, j: nat, k: nat)
    requires Valid(was, now, hunks, k0, i, j) && k0 <= k < |hunks|
    ensures i <= OldAt(hunks[k]) && OldAt(hunks[k]) + hunks[k].oldCount <= |was|
    ensures j <= NewAt(hunks[k]) && NewAt(hunks[k]) + hunks[k].newCount <= |now|
    ensures Valid(was[..OldAt(hunks[k])], now[..NewAt(hunks[k])], hunks[..k], k0, i, j)
    decreases k - k0
  {
    var p, q := OldAt(hunks[k]), NewAt(hunks[k]);
    if k0 == k {
      assert was[..p][i..] == was[i..p] && now[..q][j..] == now[j..q];
    } else {
      var h := hunks[k0];
      var i', j' := OldAt(h) + h.oldCount, NewAt(h) + h.newCount;
      ValidBefore(was, now, hunks, k0 + 1, i', j', k);
      assert hunks[..k][k0] == h;
      assert was[..p][i..OldAt(h)] == was[i..OldAt(h)] && now[..q][j..NewAt(h)] == now[j..NewAt(h)];
    }
  }

  lemma {:induction false} ValidAfter<T>(was: seq<T>, now: seq<T>, hunks: seq<Hunk>, k0: nat, i: nat, j: nat, k: nat)
    requires Valid(was, now, hunks, k0, i, j) && k0 <= k < |hunks|
    ensures i <= OldAt(hunks[k]) && j <= NewAt(hunks[k])
    ensures Valid(was, now, hunks, k + 1, OldAt(hunks[k]) + hunks[k].oldCount, NewAt(hunks[k]) + hunks[k].newCount)
    decreases k - k0
  {
    if k0 < k {
      var h := hunks[k0];
      ValidAfter(was, now, hunks, k0 + 1, OldAt(h) + h.oldCount, NewAt(h) + h.newCount, k);
    }
  }

  /** `was'` and `now'` are the lines before the `k`th hunk, `hunks'` the hunks before it. */
  ghost predicate Before<T>(was: seq<T>, now: seq<T>, hunks: seq<Hunk>, k: nat,
                            was': seq<T>, now': seq<T>, hunks': seq<Hunk>)
    requires k < |hunks|
  {
    && 0 <= OldAt(hunks[k]) <= |was| && 0 <= NewAt(hunks[k]) <= |now|
    && was' == was[..OldAt(hunks[k])] && now' == now[..NewAt(hunks[k])] && hunks' == hunks[..k]
  }

  lemma TailOf<T>(front: seq<T>, block: T, back: seq<T>)
    requires front != []
    ensures (front + [block] + back)[0] == front[0] && (front + [block] + back)[1..] == front[1..] + [block] + back
  {
  }

  /** The lines after the `k`th hunk start at `i'` and `j'`. */
  ghost predicate After<T>(was: seq<T>, now: seq<T>, hunks: seq<Hunk>, k: nat, i': nat, j': nat)
    requires k < |hunks|
  {
    && i' == OldAt(hunks[k]) + hunks[k].oldCount && j' == NewAt(hunks[k]) + hunks[k].newCount
    && Valid(was, now, hunks, k + 1, i', j')
  }

  lemma BeforeTurn<T>(was: seq<T>, now: seq<T>, hunks: seq<Hunk>, k0: nat, i: nat, j: nat, k: nat,
                      was': seq<T>, now': seq<T>, hunks': seq<Hunk>)
    requires Valid(was, now, hunks, k0, i, j) && k0 < k < |hunks|
    requires Before(was, now, hunks, k, was', now', hunks') && Valid(was', now', hunks', k0, i, j)
    ensures var i', j' := OldAt(hunks[k0]) + hunks[k0].oldCount, NewAt(hunks[k0]) + hunks[k0].newCount;
            i' >= 0 && j' >= 0 && Valid(was, now, hunks, k0 + 1, i', j') && Valid(was', now', hunks', k0 + 1, i', j')
  {
    assert hunks'[k0] == hunks[k0];
  }

  /** Every block of a cut list merges its hunk's held lines exactly when those of its parts do. */
  lemma {:induction false} MergesSplit<T>(was: seq<T>, now: seq<T>, hunks: seq<Hunk>, k0: nat, i: nat, j: nat,
                                          olds: Held, news: Held, k: nat, i': nat, j': nat,
                                          was': seq<T>, now': seq<T>, hunks': seq<Hunk>,
                                          front: seq<seq<T>>, block: seq<T>, back: seq<seq<T>>, all: seq<seq<T>>)
    requires Valid(was, now, hunks, k0, i, j) && k0 <= k < |hunks| && |front| == k - k0
    requires Before(was, now, hunks, k, was', now', hunks') && Valid(was', now', hunks', k0, i, j)
    requires After(was, now, hunks, k, i', j') && all == front + [block] + back
    ensures Merges(was, now, hunks, k0, i, j, olds, news, all) <==>
            (&& Merges(was', now', hunks', k0, i, j, olds, news, front)
             && Shuffles(KeptOld(was, hunks[k], olds), KeptNew(now, hunks[k], news), block)
             && Merges(was, now, hunks, k + 1, i', j', olds, news, back))
    decreases k - k0
  {
    if k0 == k {
      assert all == [block] + back && all[1..] == back;
    } else {
      var h := hunks[k0];
      TailOf(front, block, back);
      KeptWithin(was, |was'|, OldAt(h), h.oldCount, olds);
      KeptWithin(now, |now'|, NewAt(h), h.newCount, news);
      MergesSplit(was, now, hunks, k0 + 1, OldAt(h) + h.oldCount, NewAt(h) + h.newCount, olds, news, k, i', j',
                  was', now', hunks', front[1..], block, back, all[1..]);
    }
  }

  lemma Regroup<T>(run: seq<T>, first: seq<T>, front: seq<T>, block: seq<T>, back: seq<T>, rest: seq<T>, all: seq<T>)
    requires rest == front + block + back && all == run + first + rest
    ensures all == (run + first + front) + block + back
  {
  }

  lemma JoinSplitTurn<T>(was: seq<T>, now: seq<T>, hunks: seq<Hunk>, k0: nat, i: nat, j: nat, k: nat,
                         was': seq<T>, now': seq<T>, hunks': seq<Hunk>,
                         front: seq<seq<T>>, all: seq<seq<T>>, block: seq<T>, later: seq<T>)
    requires Valid(was, now, hunks, k0, i, j) && k0 < k < |hunks| && |front| == k - k0 && |all| == |hunks| - k0
    requires Before(was, now, hunks, k, was', now', hunks') && Valid(was', now', hunks', k0, i, j)
    requires front[0] == all[0]
    requires var i', j' := OldAt(hunks[k0]) + hunks[k0].oldCount, NewAt(hunks[k0]) + hunks[k0].newCount;
             && Valid(was', now', hunks', k0 + 1, i', j')
             && Join(was, now, hunks, k0 + 1, i', j', all[1..]) == Join(was', now', hunks', k0 + 1, i', j', front[1..])
                  + block + later
    ensures Join(was, now, hunks, k0, i, j, all) == Join(was', now', hunks', k0, i, j, front) + block + later
  {
    var h := hunks[k0];
    var i', j' := OldAt(h) + h.oldCount, NewAt(h) + h.newCount;
    var run := was[i..OldAt(h)];
    assert was'[i..OldAt(h)] == run;
    Regroup(run, front[0], Join(was', now', hunks', k0 + 1, i', j', front[1..]), block, later,
            Join(was, now, hunks, k0 + 1, i', j', all[1..]), Join(was, now, hunks, k0, i, j, all));
  }

  lemma JoinSplitHere<T>(was: seq<T>, now: seq<T>, hunks: seq<Hunk>, i: nat, j: nat, k: nat, run: seq<T>,
                         all: seq<seq<T>>, block: seq<T>, back: seq<seq<T>>)
    requires Valid(was, now, hunks, k, i, j) && k < |hunks| && |back| == |hunks| - k - 1
    requires run == was[i..OldAt(hunks[k])] && all == [block] + back
    ensures Join(was, now, hunks, k, i, j, all)
         == run + block
            + Join(was, now, hunks, k + 1, OldAt(hunks[k]) + hunks[k].oldCount, NewAt(hunks[k]) + hunks[k].newCount,
                   back)
  {
    assert all[1..] == back;
  }

  /** The text joined, cut at the `k`th hunk's block. */
  lemma {:induction false} JoinSplits<T>(was: seq<T>, now: seq<T>, hunks: seq<Hunk>, k0: nat, i: nat, j: nat, k: nat,
                                         i': nat, j': nat,
                                         was': seq<T>, now': seq<T>, hunks': seq<Hunk>,
                                         front: seq<seq<T>>, block: seq<T>, back: seq<seq<T>>,
                                         all: seq<seq<T>>, later: seq<T>)
    requires Valid(was, now, hunks, k0, i, j) && k0 <= k < |hunks| && |front| == k - k0
    requires Before(was, now, hunks, k, was', now', hunks') && Valid(was', now', hunks', k0, i, j)
    requires |back| == |hunks| - k - 1 && all == front + [block] + back
    requires After(was, now, hunks, k, i', j') && later == Join(was, now, hunks, k + 1, i', j', back)
    ensures Join(was, now, hunks, k0, i, j, all) == Join(was', now', hunks', k0, i, j, front) + block + later
    decreases k - k0
  {
    if k0 == k {
      assert all == [block] + back;
      assert was'[i..] == was[i..OldAt(hunks[k])];
      JoinSplitHere(was, now, hunks, i, j, k, was'[i..], all, block, back);
    } else {
      var h := hunks[k0];
      TailOf(front, block, back);
      BeforeTurn(was, now, hunks, k0, i, j, k, was', now', hunks');
      JoinSplits(was, now, hunks, k0 + 1, OldAt(h) + h.oldCount, NewAt(h) + h.newCount, k, i', j',
                 was', now', hunks', front[1..], block, back, all[1..], later);
      JoinSplitTurn(was, now, hunks, k0, i, j, k, was', now', hunks', front, all, block, later);
    }
  }

  /** A text reading as the hunks before the `k`th, on the lines before it. */
  ghost predicate FrontReads<T>(was: seq<T>, now: seq<T>, hunks: seq<Hunk>, k: nat, olds: Held, news: Held,
                                front: seq<T>)
    requires Valid(was, now, hunks, 0, 0, 0) && k < |hunks|
  {
    ValidBefore(was, now, hunks, 0, 0, 0, k);
    Reads(was[..OldAt(hunks[k])], now[..NewAt(hunks[k])], hunks[..k], 0, 0, 0, olds, news, front, 0)
  }

  /** A text reading as the hunks after the `k`th, on the lines after it. */
  ghost predicate BackReads<T>(was: seq<T>, now: seq<T>, hunks: seq<Hunk>, k: nat, olds: Held, news: Held, back: seq<T>)
    requires Valid(was, now, hunks, 0, 0, 0) && k < |hunks|
  {
    ValidAfter(was, now, hunks, 0, 0, 0, k);
    Reads(was, now, hunks, k + 1, OldAt(hunks[k]) + hunks[k].oldCount, NewAt(hunks[k]) + hunks[k].newCount,
          olds, news, back, 0)
  }

  /** The lines before a hunk, a merge of its own, and the lines after it. */
  ghost predicate AroundHunk<T>(was: seq<T>, now: seq<T>, hunks: seq<Hunk>, k: nat, olds: Held, news: Held,
                                front: seq<T>, block: seq<T>, back: seq<T>)
    requires Valid(was, now, hunks, 0, 0, 0) && k < |hunks|
  {
    ValidBefore(was, now, hunks, 0, 0, 0, k);
    && FrontReads(was, now, hunks, k, olds, news, front)
    && Shuffles(KeptOld(was, hunks[k], olds), KeptNew(now, hunks[k], news), block)
    && BackReads(was, now, hunks, k, olds, news, back)
  }

  lemma BlocksAround<T>(was: seq<T>, now: seq<T>, hunks: seq<Hunk>, k: nat, i': nat, j': nat, olds: Held, news: Held,
                        was': seq<T>, now': seq<T>, hunks': seq<Hunk>,
                        before: seq<seq<T>>, block: seq<T>, after: seq<seq<T>>, blocks: seq<seq<T>>)
    requires Valid(was, now, hunks, 0, 0, 0) && k < |hunks| && |before| == k && |after| == |hunks| - k - 1
    requires Before(was, now, hunks, k, was', now', hunks') && Valid(was', now', hunks', 0, 0, 0)
    requires After(was, now, hunks, k, i', j') && blocks == before + [block] + after
    ensures Merges(was, now, hunks, 0, 0, 0, olds, news, blocks) <==>
            (&& Merges(was', now', hunks', 0, 0, 0, olds, news, before)
             && Shuffles(KeptOld(was, hunks[k], olds), KeptNew(now, hunks[k], news), block)
             && Merges(was, now, hunks, k + 1, i', j', olds, news, after))
    ensures Join(was, now, hunks, 0, 0, 0, blocks)
         == Join(was', now', hunks', 0, 0, 0, before) + block + Join(was, now, hunks, k + 1, i', j', after)
  {
    MergesSplit(was, now, hunks, 0, 0, 0, olds, news, k, i', j', was', now', hunks', before, block, after, blocks);
    JoinSplits(was, now, hunks, 0, 0, 0, k, i', j', was', now', hunks', before, block, after, blocks,
               Join(was, now, hunks, k + 1, i', j', after));
  }

  lemma HunkCuts<T>(was: seq<T>, now: seq<T>, hunks: seq<Hunk>, k: nat, olds: Held, news: Held)
    returns (i': nat, j': nat, was': seq<T>, now': seq<T>, hunks': seq<Hunk>)
    requires Valid(was, now, hunks, 0, 0, 0) && k < |hunks|
    ensures Before(was, now, hunks, k, was', now', hunks') && Valid(was', now', hunks', 0, 0, 0)
    ensures After(was, now, hunks, k, i', j')
    ensures OldAt(hunks[k]) + hunks[k].oldCount <= |was| && NewAt(hunks[k]) + hunks[k].newCount <= |now|
    ensures forall front ::
              FrontReads(was, now, hunks, k, olds, news, front) <==> Reads(was', now', hunks', 0, 0, 0, olds, news,
                  front, 0)
    ensures forall back ::
              BackReads(was, now, hunks, k, olds, news, back) <==> Reads(was, now, hunks, k + 1, i', j', olds, news,
                  back, 0)
  {
    ValidBefore(was, now, hunks, 0, 0, 0, k);
    ValidAfter(was, now, hunks, 0, 0, 0, k);
    i', j' := OldAt(hunks[k]) + hunks[k].oldCount, NewAt(hunks[k]) + hunks[k].newCount;
    was', now', hunks' := was[..OldAt(hunks[k])], now[..NewAt(hunks[k])], hunks[..k];
  }

  lemma SplitsAround<T>(was: seq<T>, now: seq<T>, hunks: seq<Hunk>, k: nat, olds: Held, news: Held,
                        blocks: seq<seq<T>>, text: seq<T>)
    returns (front: seq<T>, block: seq<T>, back: seq<T>)
    requires Valid(was, now, hunks, 0, 0, 0) && k < |hunks|
    requires Merges(was, now, hunks, 0, 0, 0, olds, news, blocks) && text == Join(was, now, hunks, 0, 0, 0, blocks)
    ensures text == front + block + back && AroundHunk(was, now, hunks, k, olds, news, front, block, back)
  {
    var i', j', was', now', hunks' := HunkCuts(was, now, hunks, k, olds, news);
    var before, after := blocks[..k], blocks[k + 1..];
    block := blocks[k];
    assert blocks == before + [block] + after;
    BlocksAround(was, now, hunks, k, i', j', olds, news, was', now', hunks', before, block, after, blocks);
    front, back := Join(was', now', hunks', 0, 0, 0, before), Join(was, now, hunks, k + 1, i', j', after);
    assert front[0..] == front && back[0..] == back;
    BlocksRead(was', now', hunks', 0, 0, 0, olds, news, before, front, 0);
    BlocksRead(was, now, hunks, k + 1, i', j', olds, news, after, back, 0);
  }

  lemma BlocksMeet<T>(was: seq<T>, now: seq<T>, hunks: seq<Hunk>, k: nat, i': nat, j': nat, olds: Held, news: Held,
                      was': seq<T>, now': seq<T>, hunks': seq<Hunk>,
                      before: seq<seq<T>>, block: seq<T>, after: seq<seq<T>>, text: seq<T>)
    requires Valid(was, now, hunks, 0, 0, 0) && k < |hunks|
    requires Before(was, now, hunks, k, was', now', hunks') && Valid(was', now', hunks', 0, 0, 0)
    requires After(was, now, hunks, k, i', j')
    requires OldAt(hunks[k]) + hunks[k].oldCount <= |was| && NewAt(hunks[k]) + hunks[k].newCount <= |now|
    requires Merges(was', now', hunks', 0, 0, 0, olds, news, before)
    requires Shuffles(KeptOld(was, hunks[k], olds), KeptNew(now, hunks[k], news), block)
    requires Merges(was, now, hunks, k + 1, i', j', olds, news, after)
    requires text == Join(was', now', hunks', 0, 0, 0, before) + block + Join(was, now, hunks, k + 1, i', j', after)
    ensures Reads(was, now, hunks, 0, 0, 0, olds, news, text, 0)
  {
    var blocks := before + [block] + after;
    BlocksAround(was, now, hunks, k, i', j', olds, news, was', now', hunks', before, block, after, blocks);
    assert text[0..] == text;
    BlocksRead(was, now, hunks, 0, 0, 0, olds, news, blocks, text, 0);
  }

  lemma AroundReads<T>(was: seq<T>, now: seq<T>, hunks: seq<Hunk>, k: nat, olds: Held, news: Held,
                       front: seq<T>, block: seq<T>, back: seq<T>)
    requires Valid(was, now, hunks, 0, 0, 0) && k < |hunks|
    requires AroundHunk(was, now, hunks, k, olds, news, front, block, back)
    ensures Reads(was, now, hunks, 0, 0, 0, olds, news, front + block + back, 0)
  {
    var i', j', was', now', hunks' := HunkCuts(was, now, hunks, k, olds, news);
    ReadsMeansJoined(was', now', hunks', 0, 0, 0, olds, news, front);
    ReadsMeansJoined(was, now, hunks, k + 1, i', j', olds, news, back);
    var before :| Merges(was', now', hunks', 0, 0, 0, olds, news, before)
        && front == Join(was', now', hunks', 0, 0, 0, before);
    var after :| Merges(was, now, hunks, k + 1, i', j', olds, news, after)
        && back == Join(was, now, hunks, k + 1, i', j', after);
    BlocksMeet(was, now, hunks, k, i', j', olds, news, was', now', hunks', before, block, after, front + block + back);
  }

  /** For any hunk: a text is accepted exactly when it is a text reading as the hunks before on the
      old lines before it, a merge of its held lines, and a text reading as the hunks after on the
      old lines after it. */
  lemma HunkStands<T(!new)>(was: seq<T>, now: seq<T>, hunks: seq<Hunk>, k: nat, olds: Held, news: Held, text: seq<T>)
    requires Valid(was, now, hunks, 0, 0, 0) && k < |hunks|
    ensures Reads(was, now, hunks, 0, 0, 0, olds, news, text, 0) <==>
            exists front, block, back ::
              text == front + block + back && AroundHunk(was, now, hunks, k, olds, news, front, block, back)
  {
    if Reads(was, now, hunks, 0, 0, 0, olds, news, text, 0) {
      ReadsMeansJoined(was, now, hunks, 0, 0, 0, olds, news, text);
      var blocks :| Merges(was, now, hunks, 0, 0, 0, olds, news, blocks)
          && text == Join(was, now, hunks, 0, 0, 0, blocks);
      var front, block, back := SplitsAround(was, now, hunks, k, olds, news, blocks, text);
    }
    forall front, block, back | text == front + block + back &&
        AroundHunk(was, now, hunks, k, olds, news, front, block, back)
      ensures Reads(was, now, hunks, 0, 0, 0, olds, news, text, 0)
    {
      AroundReads(was, now, hunks, k, olds, news, front, block, back);
    }
  }

  /** A hunk with no old lines puts its held new lines after the old line its start names, the
      hunks before it being read on the lines up to there and those after it on the lines on. */
  lemma InsertionAfterStart<T(!new)>(was: seq<T>, now: seq<T>, hunks: seq<Hunk>, k: nat, olds: Held, news: Held,
                                     text: seq<T>)
    requires Valid(was, now, hunks, 0, 0, 0) && k < |hunks| && hunks[k].oldCount == 0
    ensures OldAt(hunks[k]) == hunks[k].oldStart <= |was| && 0 <= NewAt(hunks[k]) <= |now| - hunks[k].newCount
    ensures Reads(was, now, hunks, 0, 0, 0, olds, news, text, 0) <==>
            exists front, back ::
              && text == front + KeptNew(now, hunks[k], news) + back
              && AroundHunk(was, now, hunks, k, olds, news, front, KeptNew(now, hunks[k], news), back)
  {
    ValidBefore(was, now, hunks, 0, 0, 0, k);
    HunkStands(was, now, hunks, k, olds, news, text);
    var own := KeptNew(now, hunks[k], news);
    forall front, block, back | AroundHunk(was, now, hunks, k, olds, news, front, block, back)
      ensures block == own
    {
      ShuffleAlone(own, block);
    }
  }
}
