/** The review walk: repeated presses of the staging key over one file's hunks. */
module Review {
  import opened Wrappers
  import opened Diff
  import opened Nav
  import opened Render

  datatype HunkState = Staged | Unstaged | Partial

  /** `s`, which stages and walks down, and `u`, which unstages and walks up. */
  datatype Key = StageKey | UnstageKey

  /** What the source answers when asked to move a hunk: the new states of every hunk, that
      this hunk cannot move on its own, or a failure. */
  datatype Answer = Changed(states: seq<HunkState>) | Stuck | Failed

  /** Hunks are numbered from one; `stuckStage` and `stuckUnstage` are those `s` and `u` have
      refused to move. */
  datatype Walk = Walk(states: seq<HunkState>, stuckStage: set<nat>, stuckUnstage: set<nat>, cursor: nat)

  /** The state a key moves hunks to. */
  function Goal(key: Key): HunkState
  {
    if key.StageKey? then Staged else Unstaged
  }

  function StuckFor(s: Walk, key: Key): set<nat>
  {
    if key.StageKey? then s.stuckStage else s.stuckUnstage
  }

  function MarkStuck(s: Walk, key: Key, h: nat): Walk
  {
    if key.StageKey? then s.(stuckStage := s.stuckStage + {h}) else s.(stuckUnstage := s.stuckUnstage + {h})
  }

  function StateOf(states: seq<HunkState>, h: nat): HunkState
  {
    if 1 <= h <= |states| then states[h - 1] else Unstaged
  }

  /** The filter the walk scans with: hunks with something left for the key that have not
      refused it. */
  function Wanted(s: Walk, key: Key): Want
  {
    (h: nat) => h !in StuckFor(s, key) && StateOf(s.states, h) != Goal(key)
  }

  function HunkAt(rows: seq<Row>, lnum: nat): Option<nat>
  {
    if 1 <= lnum <= |rows| then rows[lnum - 1].hunk else None
  }

  ghost predicate ReviewDone(s: Walk, key: Key)
  {
    forall h: nat | 1 <= h <= |s.states| :: !Wanted(s, key)(h)
  }

  /** The wanted hunk a scan in the key's direction finds from a row. */
  ghost predicate Scans(rows: seq<Row>, s: Walk, key: Key, from: nat, r: Option<nat>)
  {
    if key.StageKey? then IsNext(rows, from, Wanted(s, key), r) else IsPrev(rows, from, Wanted(s, key), r)
  }

  /** Where a wrapped scan begins. */
  function FarEnd(rows: seq<Row>, key: Key): nat
  {
    if key.StageKey? then 0 else |rows| + 1
  }

  /** One step of the walk: to the next wanted hunk past the cursor, else the first from the
      far end, else nowhere, the file done. */
  ghost predicate Stepped(rows: seq<Row>, s: Walk, key: Key, t: Walk, done: bool)
  {
    && t == s.(cursor := t.cursor)
    && if done then Scans(rows, s, key, s.cursor, None) && Scans(rows, s, key, FarEnd(rows, key), None) && t == s
       else
         || Scans(rows, s, key, s.cursor, Some(t.cursor))
         || (Scans(rows, s, key, s.cursor, None) && Scans(rows, s, key, FarEnd(rows, key), Some(t.cursor)))
  }

  /** One press of the key. */
  ghost predicate Pressed(rows: seq<Row>, s: Walk, key: Key, confirmed: bool, answer: Answer, t: Walk, done: bool)
  {
    var at := HunkAt(rows, s.cursor);
    if at.Some? && StateOf(s.states, at.value) != Goal(key) then
      if !confirmed then t == s && !done
      else match answer
        case Changed(states) => t == Walk(states, {}, {}, s.cursor) && !done
        case Stuck => Stepped(rows, MarkStuck(s, key, at.value), key, t, done)
        case Failed => t == s && !done
    else Stepped(rows, s, key, t, done)
  }

  class View {
    const hunkMap: LineMap
    var states: seq<HunkState>
    var stuckStage: set<nat>
    var stuckUnstage: set<nat>
    var cursor: nat

    constructor (hunkMap: LineMap, states: seq<HunkState>, cursor: nat)
      ensures this.hunkMap == hunkMap && Now() == Walk(states, {}, {}, cursor)
    {
      this.hunkMap, this.states, this.stuckStage, this.stuckUnstage, this.cursor := hunkMap, states, {}, {}, cursor;
    }

    function Now(): Walk
      reads this
    {
      Walk(states, stuckStage, stuckUnstage, cursor)
    }

    /** Whether nothing here has anything left for the key. */
    method IsDone(key: Key) returns (done: bool)
      ensures done <==> ReviewDone(Now(), key)
    {
      var want := Wanted(Now(), key);
      for i := 1 to |states| + 1
        invariant forall h: nat | 1 <= h < i :: !want(h)
      {
        if want(i) {
          return false;
        }
      }
      return true;
    }

    /** The next wanted hunk in the key's direction, and the first from the far end. */
    method Scan(key: Key) returns (onward: Option<nat>, back: Option<nat>)
      ensures Scans(hunkMap.lines, Now(), key, cursor, onward)
      ensures Scans(hunkMap.lines, Now(), key, FarEnd(hunkMap.lines, key), back)
    {
      var want := Wanted(Now(), key);
      if key.StageKey? {
        onward := NextHunk(hunkMap, cursor, want);
        back := FirstHunk(hunkMap, want);
      } else {
        onward := PrevHunk(hunkMap, cursor, want);
        back := LastHunk(hunkMap, want);
      }
    }

    method StepReview(key: Key) returns (done: bool)
      modifies this`cursor
      ensures Stepped(hunkMap.lines, old(Now()), key, Now(), done)
    {
      var onward, back := Scan(key);
      if onward.Some? {
        cursor := onward.value;
        return false;
      }
      if back.Some? {
        cursor := back.value;
        return false;
      }
      return true;
    }

    /** Asks the source to move the hunk: whether it changed, and whether it refused. */
    method ApplyHunk(key: Key, idx: nat, answer: Answer) returns (changed: bool, refused: bool)
      modifies this`states
      ensures StateOf(old(states), idx) == Goal(key) ==> !changed && !refused
      ensures StateOf(old(states), idx) != Goal(key) ==> changed == answer.Changed? && refused == answer.Stuck?
      ensures states == if changed then answer.states else old(states)
    {
      if StateOf(states, idx) == Goal(key) {
        return false, false;
      }
      match answer
      case Changed(after) =>
        states := after;
        return true, false;
      case Stuck =>
        return false, true;
      case Failed =>
        return false, false;
    }

    method ToggleHunk(key: Key, answer: Answer) returns (done: bool)
      modifies this`states, this`stuckStage, this`stuckUnstage, this`cursor
      ensures var at := HunkAt(hunkMap.lines, old(cursor));
              if at.Some? && StateOf(old(states), at.value) != Goal(key)
              then Pressed(hunkMap.lines, old(Now()), key, true, answer, Now(), done)
              else Now() == old(Now()) && !done
    {
      var at := HunkAt(hunkMap.lines, cursor);
      if at.None? || StateOf(states, at.value) == Goal(key) {
        return false;
      }
      var changed, refused := ApplyHunk(key, at.value, answer);
      if changed {
        stuckStage, stuckUnstage := {}, {};
        return false;
      }
      if refused {
        if key.StageKey? {
          stuckStage := stuckStage + {at.value};
        } else {
          stuckUnstage := stuckUnstage + {at.value};
        }
        done := StepReview(key);
        return;
      }
      return false;
    }

    /** A press: move the hunk under the cursor, or step on where there is nothing to move. */
    method Press(key: Key, confirmed: bool, answer: Answer) returns (done: bool)
      modifies this`states, this`stuckStage, this`stuckUnstage, this`cursor
      ensures Pressed(hunkMap.lines, old(Now()), key, confirmed, answer, Now(), done)
      ensures var at := HunkAt(hunkMap.lines, old(cursor));
              at.Some? && 1 <= at.value <= |old(states)|
              && old(states)[at.value - 1] != (if key.StageKey? then HunkState.Staged else HunkState.Unstaged) ==>
                (!confirmed ==> Now() == old(Now()) && !done)
                && (confirmed && answer.Changed? ==> Now() == Walk(answer.states, {}, {}, old(cursor)) && !done)
                && (confirmed && answer.Failed? ==> Now() == old(Now()) && !done)
                && (confirmed && answer.Stuck? ==>
                      && states == old(states)
                      && stuckStage == old(stuckStage) + (if key.StageKey? then {at.value} else {})
                      && stuckUnstage == old(stuckUnstage) + (if key.StageKey? then {} else {at.value}))
    {
      var at := HunkAt(hunkMap.lines, cursor);
      if at.Some? && StateOf(states, at.value) != Goal(key) {
        if !confirmed {
          return false;
        }
        done := ToggleHunk(key, answer);
      } else {
        done := StepReview(key);
      }
    }
  }

  // ----- what the keys do, state by state -----

  /** Confirmed on a hunk that is not staged, the staging key leaves what the source made of it, or
      sets it aside for this key alone; on a staged hunk, and off the hunks, it moves nothing. */
  lemma StageKeyStages(rows: seq<Row>, s: Walk, answer: Answer, t: Walk, done: bool)
    requires Pressed(rows, s, StageKey, true, answer, t, done)
    ensures var at := HunkAt(rows, s.cursor);
            if at.Some? && (1 <= at.value <= |s.states| ==> s.states[at.value - 1] != HunkState.Staged) then
              match answer
              case Changed(states) => t == Walk(states, {}, {}, s.cursor) && !done
              case Stuck => t == Walk(s.states, s.stuckStage + {at.value}, s.stuckUnstage, t.cursor)
              case Failed => t == s && !done
            else t == s.(cursor := t.cursor)
  {
  }

  /** And the unstaging key on one that is not unstaged. */
  lemma UnstageKeyUnstages(rows: seq<Row>, s: Walk, answer: Answer, t: Walk, done: bool)
    requires Pressed(rows, s, UnstageKey, true, answer, t, done)
    ensures var at := HunkAt(rows, s.cursor);
            if at.Some? && 1 <= at.value <= |s.states| && s.states[at.value - 1] != HunkState.Unstaged then
              match answer
              case Changed(states) => t == Walk(states, {}, {}, s.cursor) && !done
              case Stuck => t == Walk(s.states, s.stuckStage, s.stuckUnstage + {at.value}, t.cursor)
              case Failed => t == s && !done
            else t == s.(cursor := t.cursor)
  {
  }

  /** A hunk of the file not staged, and not one the staging key has refused. */
  predicate ToStage(s: Walk, h: nat)
  {
    1 <= h <= |s.states| && s.states[h - 1] != HunkState.Staged && h !in s.stuckStage
  }

  predicate ToUnstage(s: Walk, h: nat)
  {
    1 <= h <= |s.states| && s.states[h - 1] != HunkState.Unstaged && h !in s.stuckUnstage
  }

  /** Staging walks down: to the first hunk to stage below the cursor, else the first of the file,
      else nowhere. */
  lemma StageStepsDown(rows: seq<Row>, s: Walk, t: Walk, done: bool)
    requires Stepped(rows, s, StageKey, t, done) && HunksNumbered(rows, |s.states|)
    ensures t == s.(cursor := t.cursor)
    ensures done <==> forall st | st in Starts(rows) :: !ToStage(s, st.hunk)
    ensures !done ==> exists st | st in Starts(rows) :: st.lnum == t.cursor && ToStage(s, st.hunk)
    ensures !done ==> forall st | st in Starts(rows) && ToStage(s, st.hunk) ::
              if t.cursor > s.cursor then st.lnum <= s.cursor || st.lnum >= t.cursor
              else t.cursor <= st.lnum <= s.cursor
  {
    StepStarts(rows, s, StageKey);
  }

  /** Unstaging walks up. */
  lemma UnstageStepsUp(rows: seq<Row>, s: Walk, t: Walk, done: bool)
    requires Stepped(rows, s, UnstageKey, t, done) && HunksNumbered(rows, |s.states|)
    ensures t == s.(cursor := t.cursor)
    ensures done <==> forall st | st in Starts(rows) :: !ToUnstage(s, st.hunk)
    ensures !done ==> exists st | st in Starts(rows) :: st.lnum == t.cursor && ToUnstage(s, st.hunk)
    ensures !done ==> forall st | st in Starts(rows) && ToUnstage(s, st.hunk) ::
              if t.cursor < s.cursor then st.lnum >= s.cursor || st.lnum <= t.cursor
              else s.cursor <= st.lnum <= t.cursor
  {
    StepStarts(rows, s, UnstageKey);
  }

  lemma StepStarts(rows: seq<Row>, s: Walk, key: Key)
    requires HunksNumbered(rows, |s.states|)
    ensures forall st | st in Starts(rows) ::
              && 1 <= st.lnum <= |rows| && 1 <= st.hunk <= |s.states|
              && (key.StageKey? ==> (Wanted(s, key)(st.hunk) <==> ToStage(s, st.hunk)))
              && (key.UnstageKey? ==> (Wanted(s, key)(st.hunk) <==> ToUnstage(s, st.hunk)))
  {
    forall st | st in Starts(rows)
      ensures 1 <= st.lnum <= |rows| && 1 <= st.hunk <= |s.states|
    {
      StartsBegin(rows, st);
    }
  }

  // ----- the walk ends -----

  ghost predicate HasStart(rows: seq<Row>, h: nat)
  {
    exists s :: s in Starts(rows) && s.hunk == h
  }

  /** Every hunk has a start, and every row's hunk is one of them. */
  ghost predicate HunksNumbered(rows: seq<Row>, count: nat)
  {
    && (forall h: nat | 1 <= h <= count :: HasStart(rows, h))
    && (forall r | 0 <= r < |rows| && rows[r].hunk.Some? :: 1 <= rows[r].hunk.value <= count)
  }

  /** Hunks of the first `k` not yet at the goal, but for those in `stuck`. */
  function Waiting(states: seq<HunkState>, stuck: set<nat>, goal: HunkState, k: nat): (n: nat)
    requires k <= |states|
    ensures n <= k
  {
    if k == 0 then 0
    else Waiting(states, stuck, goal, k - 1) + if k !in stuck && states[k - 1] != goal then 1 else 0
  }

  predicate Off(rows: seq<Row>, s: Walk, key: Key)
  {
    var at := HunkAt(rows, s.cursor);
    at.None? || !Wanted(s, key)(at.value)
  }

  /** Hunks left to move, of those the ones not stuck, and whether the cursor is off one of
      these, in that order of weight. */
  function Left(rows: seq<Row>, s: Walk, key: Key): nat
  {
    var n := |s.states|;
    Waiting(s.states, {}, Goal(key), n) * (2 * n + 2) + 2 * Waiting(s.states, StuckFor(s, key), Goal(key), n)
    + if Off(rows, s, key) then 1 else 0
  }

  /** The source moves the hunk it was asked to and takes none back, or refuses. */
  ghost predicate Honest(rows: seq<Row>, s: Walk, key: Key, answer: Answer)
  {
    match answer
    case Failed => false
    case Stuck => true
    case Changed(states) =>
      && |states| == |s.states|
      && (forall h: nat :: StateOf(s.states, h) == Goal(key) ==> StateOf(states, h) == Goal(key))
      && (var at := HunkAt(rows, s.cursor); at.Some? ==> StateOf(states, at.value) == Goal(key))
  }

  lemma {:induction false} WaitingLess(states: seq<HunkState>, states': seq<HunkState>, goal: HunkState, k: nat, h: nat)
    requires k <= |states| == |states'| && forall q | 0 <= q < k :: states[q] == goal ==> states'[q] == goal
    ensures Waiting(states', {}, goal, k) <= Waiting(states, {}, goal, k)
    ensures 1 <= h <= k && states[h - 1] != goal && states'[h - 1] == goal ==>
            Waiting(states', {}, goal, k) < Waiting(states, {}, goal, k)
  {
    if k > 0 {
      WaitingLess(states, states', goal, k - 1, h);
    }
  }

  lemma {:induction false} WaitingStuck(states: seq<HunkState>, stuck: set<nat>, goal: HunkState, k: nat, h: nat)
    requires k <= |states| && h !in stuck
    ensures Waiting(states, stuck + {h}, goal, k) == Waiting(states, stuck, goal, k) - if 1 <= h <= k
            && states[h - 1] != goal then 1 else 0
  {
    if k > 0 {
      WaitingStuck(states, stuck, goal, k - 1, h);
    }
  }

  /** A step lands on a wanted hunk, or there is none. */
  lemma StepLands(rows: seq<Row>, s: Walk, key: Key, t: Walk, done: bool)
    requires Stepped(rows, s, key, t, done) && HunksNumbered(rows, |s.states|)
    ensures done ==> ReviewDone(t, key)
    ensures !done ==> !Off(rows, t, key)
  {
    var starts, want := Starts(rows), Wanted(s, key);
    if done {
      StartsAscend(rows);
      forall h: nat | 1 <= h <= |s.states|
        ensures !want(h)
      {
        assert HasStart(rows, h);
        var st :| st in starts && st.hunk == h;
        assert NoneBetween(starts, want, 0, |rows| + 1);
      }
    } else {
      assert Hit(starts, want, t.cursor);
      var i :| 0 <= i < |starts| && starts[i].lnum == t.cursor && want(starts[i].hunk);
      StartsBegin(rows, starts[i]);
    }
  }

  lemma ProductLess(a: nat, b: nat, n: nat, x: nat, y: nat)
    requires a < b && x <= 2 * n + 1
    ensures a * (2 * n + 2) + x < b * (2 * n + 2) + y
  {
    assert b * (2 * n + 2) >= (a + 1) * (2 * n + 2) == a * (2 * n + 2) + 2 * n + 2;
  }

  /** Every confirmed press on an honest source finishes the file or brings it nearer. */
  lemma PressProgress(rows: seq<Row>, s: Walk, key: Key, answer: Answer, t: Walk, done: bool)
    requires HunksNumbered(rows, |s.states|) && Honest(rows, s, key, answer)
    requires Pressed(rows, s, key, true, answer, t, done)
    ensures |t.states| == |s.states|
    ensures done ==> ReviewDone(t, key)
    ensures !done ==> Left(rows, t, key) < Left(rows, s, key)
  {
    var n, at, goal := |s.states|, HunkAt(rows, s.cursor), Goal(key);
    if at.Some? && StateOf(s.states, at.value) != goal {
      var h := at.value;
      match answer
      case Changed(states) =>
        assert forall q | 0 <= q < n :: StateOf(s.states, q + 1) == s.states[q] && StateOf(states, q + 1) == states[q];
        WaitingLess(s.states, states, goal, n, h);
        ProductLess(Waiting(states, {}, goal, n), Waiting(s.states, {}, goal, n), n,
                    2 * Waiting(states, {}, goal, n) + if Off(rows, t, key) then 1 else 0,
                    2 * Waiting(s.states, StuckFor(s, key), goal, n) + if Off(rows, s, key) then 1 else 0);
      case Stuck =>
        var s' := MarkStuck(s, key, h);
        StepLands(rows, s', key, t, done);
        if h !in StuckFor(s, key) {
          WaitingStuck(s.states, StuckFor(s, key), goal, n, h);
        } else {
          assert StuckFor(s, key) + {h} == StuckFor(s, key);
        }
      case Failed =>
    } else {
      StepLands(rows, s, key, t, done);
    }
  }

  /** A run of presses of one key: the states before each and after the last, and which ended
      the walk. */
  ghost predicate Presses(rows: seq<Row>, key: Key, walk: seq<Walk>, answers: seq<Answer>, dones: seq<bool>)
  {
    && |walk| == |answers| + 1 && |dones| == |answers|
    && forall k | 0 <= k < |answers| ::
         Honest(rows, walk[k], key, answers[k]) && Pressed(rows, walk[k], key, true, answers[k], walk[k + 1], dones[k])
  }

  lemma {:induction false} PressesSpend(rows: seq<Row>, key: Key, walk: seq<Walk>, answers: seq<Answer>,
                                        dones: seq<bool>, k: nat)
    requires Presses(rows, key, walk, answers, dones) && k <= |answers| && HunksNumbered(rows, |walk[0].states|)
    requires forall q | 0 <= q < k :: !dones[q]
    ensures |walk[k].states| == |walk[0].states| && Left(rows, walk[k], key) + k <= Left(rows, walk[0], key)
  {
    if k > 0 {
      PressesSpend(rows, key, walk, answers, dones, k - 1);
      assert Honest(rows, walk[k - 1], key, answers[k - 1])
             && Pressed(rows, walk[k - 1], key, true, answers[k - 1], walk[k - 1 + 1], dones[k - 1]);
      PressProgress(rows, walk[k - 1], key, answers[k - 1], walk[k], dones[k - 1]);
    }
  }

  lemma LeftBounded(rows: seq<Row>, s: Walk, key: Key)
    ensures var n := |s.states|; Left(rows, s, key) <= n * (2 * n + 2) + 2 * n + 1
  {
    var n := |s.states|;
    assert Waiting(s.states, {}, Goal(key), n) * (2 * n + 2) <= n * (2 * n + 2);
  }

  /** However the honest source answers, some press among the first n(2n+2) + 2n + 2 finds the
      file done: every hunk at the goal, or stuck since the last one that moved. */
  lemma WalkEnds(rows: seq<Row>, key: Key, walk: seq<Walk>, answers: seq<Answer>, dones: seq<bool>)
    returns (k: nat, last: Walk)
    requires Presses(rows, key, walk, answers, dones) && HunksNumbered(rows, |walk[0].states|)
    requires var n := |walk[0].states|; |answers| >= n * (2 * n + 2) + 2 * n + 2
    ensures k < |answers| && dones[k] && last == walk[k + 1] && ReviewDone(last, key)
    ensures var n := |walk[0].states|; k <= n * (2 * n + 2) + 2 * n + 1
    ensures |last.states| == |walk[0].states|
    ensures key.StageKey? ==> forall q | 0 <= q < |last.states| ::
              last.states[q] == HunkState.Staged || q + 1 in last.stuckStage
    ensures key.UnstageKey? ==> forall q | 0 <= q < |last.states| ::
              last.states[q] == HunkState.Unstaged || q + 1 in last.stuckUnstage
  {
    var n := |walk[0].states|;
    LeftBounded(rows, walk[0], key);
    k := 0;
    while !dones[k]
      invariant k <= n * (2 * n + 2) + 2 * n + 1 && forall q | 0 <= q < k :: !dones[q]
      decreases |answers| - k
    {
      PressesSpend(rows, key, walk, answers, dones, k + 1);
      k := k + 1;
    }
    PressesSpend(rows, key, walk, answers, dones, k);
    assert Honest(rows, walk[k], key, answers[k])
           && Pressed(rows, walk[k], key, true, answers[k], walk[k + 1], dones[k]);
    PressProgress(rows, walk[k], key, answers[k], walk[k + 1], dones[k]);
    last := walk[k + 1];
    AllMoved(last, key);
  }

  lemma AllMoved(s: Walk, key: Key)
    requires ReviewDone(s, key)
    ensures key.StageKey? ==> forall q | 0 <= q < |s.states| ::
              s.states[q] == HunkState.Staged || q + 1 in s.stuckStage
    ensures key.UnstageKey? ==> forall q | 0 <= q < |s.states| ::
              s.states[q] == HunkState.Unstaged || q + 1 in s.stuckUnstage
  {
    forall q | 0 <= q < |s.states|
      ensures s.states[q] == Goal(key) || q + 1 in StuckFor(s, key)
    {
      assert !Wanted(s, key)(q + 1);
    }
  }

  /** A failure, or a declined prompt, leaves the press undone: for as long as every press at a
      hunk left to move fails, the walk is where it was. */
  lemma {:induction false} FailuresNeverEnd(rows: seq<Row>, key: Key, walk: seq<Walk>, answers: seq<Answer>,
                                            dones: seq<bool>, k: nat)
    requires |walk| == |answers| + 1 && |dones| == |answers| && k <= |answers|
    requires forall q | 0 <= q < |answers| ::
          Pressed(rows, walk[q], key, true, answers[q], walk[q + 1], dones[q]) && answers[q].Failed?
    requires HunkAt(rows, walk[0].cursor).Some?
    requires StateOf(walk[0].states, HunkAt(rows, walk[0].cursor).value) != Goal(key)
    ensures walk[k] == walk[0] && forall q | 0 <= q < k :: !dones[q]
  {
    if k > 0 {
      FailuresNeverEnd(rows, key, walk, answers, dones, k - 1);
      assert Pressed(rows, walk[k - 1], key, true, answers[k - 1], walk[k - 1 + 1], dones[k - 1])
             && answers[k - 1].Failed?;
    }
  }

  /** A one-column rendering of a diff numbers its hunks so, when each changes some line. */
  lemma StackedNumbered<T>(was: seq<T>, now: seq<T>, hunks: seq<Hunk>)
    requires Valid(was, now, hunks, 0, 0, 0) && forall h | h in hunks :: h.oldCount + h.newCount > 0
    ensures HunksNumbered(Rendered(was, now, hunks), |hunks|)
  {
    var rows := Rendered(was, now, hunks);
    StackedTogether(was, now, hunks, 0, 0, 0);
    StackedContiguous(was, now, hunks);
    forall h: nat | 1 <= h <= |hunks|
      ensures HasStart(rows, h)
    {
      assert hunks[h - 1] in hunks;
      var r := StackedShows(was, now, hunks, 0, 0, 0, h - 1);
      OneColumn(rows);
      var s := ShownHasStart([rows], rows, h, r);
    }
  }
}
