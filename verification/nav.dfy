/** Line maps, and motion over the hunks they show. */
module Nav {
  import opened Wrappers

  datatype Kind = Context | Old | New | Meta

  /** A buffer row: the line it shows on each side, and its hunk. */
  datatype Row = Row(kind: Kind, was: Option<nat>, now: Option<nat>, hunk: Option<nat>)

  /** Rows are numbered from one. */
  class LineMap {
    var lines: seq<Row>
    var fromOld: map<nat, nat>
    var fromNew: map<nat, nat>

    constructor ()
      ensures lines == [] && fromOld == map[] && fromNew == map[]
    {
      lines, fromOld, fromNew := [], map[], map[];
    }

    /** Appends a row and points its line numbers at it. */
    method Push(line: Row) returns (lnum: nat)
      modifies this
      ensures lines == old(lines) + [line] && lnum == |lines|
      ensures fromOld == if ShowsOld(line) then old(fromOld)[line.was.value := lnum] else old(fromOld)
      ensures fromNew == if ShowsNew(line) then old(fromNew)[line.now.value := lnum] else old(fromNew)
    {
      lnum := |lines| + 1;
      lines := lines + [line];
      if line.was.Some? && (line.kind.Old? || line.kind.Context?) {
        fromOld := fromOld[line.was.value := lnum];
      }
      if line.now.Some? && (line.kind.New? || line.kind.Context?) {
        fromNew := fromNew[line.now.value := lnum];
      }
    }
  }

  predicate ShowsOld(row: Row)
  {
    row.was.Some? && (row.kind.Old? || row.kind.Context?)
  }

  predicate ShowsNew(row: Row)
  {
    row.now.Some? && (row.kind.New? || row.kind.Context?)
  }

  /** The last row that shows each new line. */
  function NewIndex(rows: seq<Row>): map<nat, nat>
  {
    if rows == [] then map[]
    else
      var was, row := NewIndex(rows[..|rows| - 1]), rows[|rows| - 1];
      if ShowsNew(row) then was[row.now.value := |rows|] else was
  }

  function OldIndex(rows: seq<Row>): map<nat, nat>
  {
    if rows == [] then map[]
    else
      var was, row := OldIndex(rows[..|rows| - 1]), rows[|rows| - 1];
      if ShowsOld(row) then was[row.was.value := |rows|] else was
  }

  /** Built by pushes alone: the indices are those of the rows. */
  ghost predicate Pushed(m: LineMap)
    reads m
  {
    m.fromOld == OldIndex(m.lines) && m.fromNew == NewIndex(m.lines)
  }

  lemma PushKeeps(rows: seq<Row>, row: Row)
    ensures NewIndex(rows + [row])
         == if ShowsNew(row) then NewIndex(rows)[row.now.value := |rows| + 1] else NewIndex(rows)
    ensures OldIndex(rows + [row])
         == if ShowsOld(row) then OldIndex(rows)[row.was.value := |rows| + 1] else OldIndex(rows)
  {
    assert (rows + [row])[..|rows|] == rows;
  }

  /** An indexed line is shown at its row. */
  lemma {:induction false} IndexedIsShown(rows: seq<Row>, n: nat)
    requires n in NewIndex(rows)
    ensures var l := NewIndex(rows)[n]; 1 <= l <= |rows| && ShowsNew(rows[l - 1]) && rows[l - 1].now == Some(n)
  {
    var row := rows[|rows| - 1];
    if !(ShowsNew(row) && row.now == Some(n)) {
      IndexedIsShown(rows[..|rows| - 1], n);
    }
  }

  /** A shown line is indexed. */
  lemma {:induction false} ShownIsIndexed(rows: seq<Row>, k: nat)
    requires k < |rows| && ShowsNew(rows[k])
    ensures rows[k].now.value in NewIndex(rows)
  {
    if k < |rows| - 1 {
      ShownIsIndexed(rows[..|rows| - 1], k);
    }
  }

  // ----- one map over the columns -----

  /** What the merged row holds: the first column's row there with a hunk, else the first's. */
  function HunkRow(columns: seq<seq<Row>>, k: nat): Row
    requires columns != [] && forall c | c in columns :: k < |c|
  {
    HunkRowFrom(columns, 0, k)
  }

  function HunkRowFrom(columns: seq<seq<Row>>, from: nat, k: nat): Row
    requires columns != [] && from <= |columns| && forall c | c in columns :: k < |c|
    decreases |columns| - from
  {
    if from == |columns| then columns[0][k]
    else if columns[from][k].hunk.Some? then columns[from][k]
    else HunkRowFrom(columns, from + 1, k)
  }

  function Overlay(indices: seq<map<nat, nat>>): map<nat, nat>
  {
    if indices == [] then map[] else Overlay(indices[..|indices| - 1]) + indices[|indices| - 1]
  }

  function Columns(maps: seq<LineMap>): (columns: seq<seq<Row>>)
    reads maps
    ensures |columns| == |maps| && forall i :: 0 <= i < |maps| ==> columns[i] == maps[i].lines
  {
    seq(|maps|, i requires 0 <= i < |maps| reads maps => maps[i].lines)
  }

  function Olds(maps: seq<LineMap>): (indices: seq<map<nat, nat>>)
    reads maps
    ensures |indices| == |maps| && forall i :: 0 <= i < |maps| ==> indices[i] == maps[i].fromOld
  {
    seq(|maps|, i requires 0 <= i < |maps| reads maps => maps[i].fromOld)
  }

  function News(maps: seq<LineMap>): (indices: seq<map<nat, nat>>)
    reads maps
    ensures |indices| == |maps| && forall i :: 0 <= i < |maps| ==> indices[i] == maps[i].fromNew
  {
    seq(|maps|, i requires 0 <= i < |maps| reads maps => maps[i].fromNew)
  }

  lemma {:induction false} HunkRowFirst(columns: seq<seq<Row>>, from: nat, k: nat) returns (c: nat)
    requires columns != [] && from <= |columns| && forall c | c in columns :: k < |c|
    ensures c < |columns| && HunkRowFrom(columns, from, k) == columns[c][k]
    ensures if c >= from && columns[c][k].hunk.Some? then forall b | from <= b < c :: columns[b][k].hunk.None?
            else c == 0 && forall b | from <= b < |columns| :: columns[b][k].hunk.None?
    decreases |columns| - from
  {
    if from == |columns| {
      c := 0;
    } else if columns[from][k].hunk.Some? {
      c := from;
    } else {
      c := HunkRowFirst(columns, from + 1, k);
    }
  }

  /** A merged row is the row of the first column that has a hunk there, or else the first's. */
  lemma MergedRow(columns: seq<seq<Row>>, k: nat, c: nat)
    requires c < |columns| && forall c | c in columns :: k < |c|
    requires forall b | 0 <= b < c :: columns[b][k].hunk.None?
    requires columns[c][k].hunk.Some? || (c == 0 && forall b | 0 <= b < |columns| :: columns[b][k].hunk.None?)
    ensures HunkRow(columns, k) == columns[c][k]
  {
    var first := HunkRowFirst(columns, 0, k);
  }

  /** A merged index has every line some column's has, at the row of the last that has it. */
  lemma {:induction false} MergedIndex(indices: seq<map<nat, nat>>, key: nat, c: nat)
    requires c < |indices| && key in indices[c] && forall b | c < b < |indices| :: key !in indices[b]
    ensures key in Overlay(indices) && Overlay(indices)[key] == indices[c][key]
    decreases |indices|
  {
    if c < |indices| - 1 {
      assert indices[..|indices| - 1][c] == indices[c];
      MergedIndex(indices[..|indices| - 1], key, c);
    }
  }

  lemma {:induction false} NoIndex(indices: seq<map<nat, nat>>, key: nat)
    requires forall b | 0 <= b < |indices| :: key !in indices[b]
    ensures key !in Overlay(indices)
    decreases |indices|
  {
    if indices != [] {
      NoIndex(indices[..|indices| - 1], key);
    }
  }

  /** Row `k` of the first map whose row there carries a hunk, else the first map's. */
  method RowAt(maps: seq<LineMap>, k: nat) returns (row: Row)
    requires maps != [] && forall m | m in maps :: k < |m.lines|
    ensures row == HunkRow(Columns(maps), k)
  {
    for i := 0 to |maps|
      invariant HunkRow(Columns(maps), k) == HunkRowFrom(Columns(maps), i, k)
    {
      if maps[i].lines[k].hunk.Some? {
        return maps[i].lines[k];
      }
    }
    return maps[0].lines[k];
  }

  method MergedRows(maps: seq<LineMap>) returns (rows: seq<Row>)
    requires maps != [] && forall m | m in maps :: |m.lines| == |maps[0].lines|
    ensures |rows| == |maps[0].lines|
    ensures forall k | 0 <= k < |rows| :: rows[k] == HunkRow(Columns(maps), k)
  {
    rows := [];
    for k := 0 to |maps[0].lines|
      invariant |rows| == k
      invariant forall q | 0 <= q < k :: rows[q] == HunkRow(Columns(maps), q)
    {
      var row := RowAt(maps, k);
      rows := rows + [row];
    }
  }

  /** A line several columns show is found at the last one's row. */
  method MergedIndices(maps: seq<LineMap>) returns (fromOld: map<nat, nat>, fromNew: map<nat, nat>)
    ensures fromOld == Overlay(Olds(maps)) && fromNew == Overlay(News(maps))
  {
    fromOld, fromNew := map[], map[];
    ghost var olds, news := Olds(maps), News(maps);
    for i := 0 to |maps|
      invariant fromOld == Overlay(olds[..i]) && fromNew == Overlay(news[..i])
    {
      assert olds[..i + 1][..i] == olds[..i] && news[..i + 1][..i] == news[..i];
      fromOld := fromOld + maps[i].fromOld;
      fromNew := fromNew + maps[i].fromNew;
    }
    assert olds[..|maps|] == olds && news[..|maps|] == news;
  }

  method MapOf(rows: seq<Row>, fromOld: map<nat, nat>, fromNew: map<nat, nat>) returns (m: LineMap)
    ensures fresh(m) && m.lines == rows && m.fromOld == fromOld && m.fromNew == fromNew
  {
    m := new LineMap();
    m.lines, m.fromOld, m.fromNew := rows, fromOld, fromNew;
  }

  /** One map over row-aligned column maps; a single map is returned as it is. */
  method Merge(maps: seq<LineMap>) returns (merged: LineMap)
    requires maps != [] && forall m | m in maps :: |m.lines| == |maps[0].lines|
    ensures |maps| == 1 ==> merged == maps[0]
    ensures |maps| > 1 ==>
              (&& fresh(merged) && |merged.lines| == |maps[0].lines|
               && (forall k | 0 <= k < |merged.lines| :: merged.lines[k] == HunkRow(Columns(maps), k))
               && merged.fromOld == Overlay(Olds(maps)) && merged.fromNew == Overlay(News(maps)))
  {
    if |maps| == 1 {
      return maps[0];
    }
    var rows := MergedRows(maps);
    var olds, news := MergedIndices(maps);
    merged := MapOf(rows, olds, news);
  }

  // ----- hunk starts -----

  datatype Start = Start(lnum: nat, hunk: nat)

  /** A row whose hunk differs from the row above's. */
  predicate Begins(rows: seq<Row>, k: nat)
    requires k < |rows|
  {
    rows[k].hunk.Some? && (k == 0 || rows[k - 1].hunk != rows[k].hunk)
  }

  /** Where each run of rows of one hunk begins, ascending. */
  function Starts(rows: seq<Row>): seq<Start>
  {
    if rows == [] then []
    else
      var init, k := rows[..|rows| - 1], |rows| - 1;
      if Begins(rows, k) then Starts(init) + [Start(|rows|, rows[k].hunk.value)] else Starts(init)
  }

  lemma {:induction false} StartsBegin(rows: seq<Row>, s: Start)
    ensures s in Starts(rows) <==>
            1 <= s.lnum <= |rows| && Begins(rows, s.lnum - 1) && rows[s.lnum - 1].hunk == Some(s.hunk)
  {
    if rows != [] {
      var init := rows[..|rows| - 1];
      StartsBegin(init, s);
      assert 1 <= s.lnum <= |init| ==> Begins(init, s.lnum - 1) == Begins(rows, s.lnum - 1);
    }
  }

  lemma {:induction false} StartsAscend(rows: seq<Row>)
    ensures forall i, j | 0 <= i < j < |Starts(rows)| :: Starts(rows)[i].lnum < Starts(rows)[j].lnum
    ensures forall i | 0 <= i < |Starts(rows)| :: 1 <= Starts(rows)[i].lnum <= |rows|
  {
    if rows != [] {
      StartsAscend(rows[..|rows| - 1]);
    }
  }

  method HunkStarts(m: LineMap) returns (starts: seq<Start>)
    ensures starts == Starts(m.lines)
  {
    starts := [];
    var prev: Option<nat> := None;
    for i := 0 to |m.lines|
      invariant starts == Starts(m.lines[..i])
      invariant prev == if i == 0 then None else m.lines[i - 1].hunk
    {
      var line := m.lines[i];
      assert m.lines[..i + 1][..i] == m.lines[..i];
      if line.hunk.Some? && line.hunk != prev {
        starts := starts + [Start(i + 1, line.hunk.value)];
      }
      prev := line.hunk;
    }
    assert m.lines[..|m.lines|] == m.lines;
  }

  /** A filter on hunks; scanning for any hunk passes one that always holds. */
  type Want = nat -> bool

  ghost predicate Hit(starts: seq<Start>, want: Want, lnum: nat)
  {
    exists i :: 0 <= i < |starts| && starts[i].lnum == lnum && want(starts[i].hunk)
  }

  /** No start strictly between the two lines matches. */
  ghost predicate NoneBetween(starts: seq<Start>, want: Want, lo: int, hi: int)
  {
    forall i | 0 <= i < |starts| && lo < starts[i].lnum < hi :: !want(starts[i].hunk)
  }

  /** `r` is the least matching start past `lnum`, if there is one. */
  ghost predicate IsNext(rows: seq<Row>, lnum: nat, want: Want, r: Option<nat>)
  {
    match r
    case None => NoneBetween(Starts(rows), want, lnum, |rows| + 1)
    case Some(l) => l > lnum && Hit(Starts(rows), want, l) && NoneBetween(Starts(rows), want, lnum, l)
  }

  /** `r` is the greatest matching start before `lnum`, if there is one. */
  ghost predicate IsPrev(rows: seq<Row>, lnum: nat, want: Want, r: Option<nat>)
  {
    match r
    case None => NoneBetween(Starts(rows), want, 0, lnum)
    case Some(l) => l < lnum && Hit(Starts(rows), want, l) && NoneBetween(Starts(rows), want, l, lnum)
  }

  /** The first matching hunk start past `lnum`. */
  method NextHunk(m: LineMap, lnum: nat, want: Want) returns (r: Option<nat>)
    ensures IsNext(m.lines, lnum, want, r)
  {
    StartsAscend(m.lines);
    var starts := HunkStarts(m);
    for i := 0 to |starts|
      invariant forall k | 0 <= k < i && starts[k].lnum > lnum :: !want(starts[k].hunk)
    {
      if starts[i].lnum > lnum && want(starts[i].hunk) {
        assert Hit(starts, want, starts[i].lnum);
        return Some(starts[i].lnum);
      }
    }
    return None;
  }

  /** The last matching hunk start before `lnum`. */
  method PrevHunk(m: LineMap, lnum: nat, want: Want) returns (best: Option<nat>)
    ensures IsPrev(m.lines, lnum, want, best)
  {
    StartsAscend(m.lines);
    var starts := HunkStarts(m);
    best := None;
    for i := 0 to |starts|
      invariant best.None? ==> forall k | 0 <= k < i :: !want(starts[k].hunk)
      invariant best.Some? ==> (best.value < lnum && Hit(starts, want, best.value)
                                && forall k | 0 <= k < i && best.value < starts[k].lnum :: !want(starts[k].hunk))
    {
      if starts[i].lnum >= lnum {
        break;
      }
      if want(starts[i].hunk) {
        assert Hit(starts, want, starts[i].lnum);
        best := Some(starts[i].lnum);
      }
    }
  }

  method FirstHunk(m: LineMap, want: Want) returns (r: Option<nat>)
    ensures IsNext(m.lines, 0, want, r)
  {
    r := NextHunk(m, 0, want);
  }

  method LastHunk(m: LineMap, want: Want) returns (r: Option<nat>)
    ensures IsPrev(m.lines, |m.lines| + 1, want, r)
  {
    r := PrevHunk(m, |m.lines| + 1, want);
  }

  // ----- each hunk starts once, where it is first shown -----

  /** Some column shows the hunk at row `k`. */
  predicate Shown(columns: seq<seq<Row>>, h: nat, k: nat)
    requires forall c | c in columns :: k < |c|
  {
    exists i :: 0 <= i < |columns| && columns[i][k].hunk == Some(h)
  }

  predicate Aligned(columns: seq<seq<Row>>)
  {
    columns != [] && forall c | c in columns :: |c| == |columns[0]|
  }

  /** No row shows two hunks, and the rows that show one are together. */
  ghost predicate Contiguous(columns: seq<seq<Row>>)
    requires Aligned(columns)
  {
    && (forall h, g, k | 0 <= k < |columns[0]| && Shown(columns, h, k) && Shown(columns, g, k) :: h == g)
    && (forall h, i, k, j | 0 <= i < k < j < |columns[0]| && Shown(columns, h, i) && Shown(columns, h, j) ::
          Shown(columns, h, k))
  }

  lemma {:induction false} HunkRowShows(columns: seq<seq<Row>>, from: nat, k: nat)
    requires Aligned(columns) && k < |columns[0]| && from <= |columns|
    ensures var row := HunkRowFrom(columns, from, k);
            && (row.hunk.Some? ==> Shown(columns, row.hunk.value, k))
            && (forall i | from <= i < |columns| && columns[i][k].hunk.Some? :: row.hunk.Some?)
    decreases |columns| - from
  {
    if from < |columns| {
      HunkRowShows(columns, from + 1, k);
    }
  }

  /** The merged row carries a hunk exactly when some column shows it there. */
  lemma MergedShows(columns: seq<seq<Row>>, k: nat, h: nat)
    requires Aligned(columns) && k < |columns[0]| && Contiguous(columns)
    ensures HunkRow(columns, k).hunk == Some(h) <==> Shown(columns, h, k)
  {
    HunkRowShows(columns, 0, k);
  }

  /** `rows` are the columns merged. */
  ghost predicate Merges(rows: seq<Row>, columns: seq<seq<Row>>)
    requires Aligned(columns)
  {
    |rows| == |columns[0]| && forall k | 0 <= k < |rows| :: rows[k].hunk == HunkRow(columns, k).hunk
  }

  /** On merged columns whose hunk rows are together, a hunk starts exactly at the least row
      any column shows it, and so once. */
  lemma StartIsFirstShown(columns: seq<seq<Row>>, rows: seq<Row>, s: Start)
    requires Aligned(columns) && Contiguous(columns) && Merges(rows, columns)
    ensures s in Starts(rows) <==>
            && 1 <= s.lnum <= |rows| && Shown(columns, s.hunk, s.lnum - 1)
            && forall k | 0 <= k < s.lnum - 1 :: !Shown(columns, s.hunk, k)
  {
    StartsBegin(rows, s);
    if 1 <= s.lnum <= |rows| {
      MergedShows(columns, s.lnum - 1, s.hunk);
      if s.lnum >= 2 {
        MergedShows(columns, s.lnum - 2, s.hunk);
      }
    }
  }

  lemma OneStartEach(columns: seq<seq<Row>>, rows: seq<Row>, s: Start, t: Start)
    requires Aligned(columns) && Contiguous(columns) && Merges(rows, columns)
    requires s in Starts(rows) && t in Starts(rows) && s.hunk == t.hunk
    ensures s == t
  {
    StartIsFirstShown(columns, rows, s);
    StartIsFirstShown(columns, rows, t);
  }

  /** Every hunk some column shows has a start. */
  lemma ShownHasStart(columns: seq<seq<Row>>, rows: seq<Row>, h: nat, k: nat) returns (s: Start)
    requires Aligned(columns) && Contiguous(columns) && Merges(rows, columns)
    requires k < |rows| && Shown(columns, h, k)
    ensures s in Starts(rows) && s.hunk == h && s.lnum <= k + 1
    decreases k
  {
    if j: nat :| j < k && Shown(columns, h, j) {
      s := ShownHasStart(columns, rows, h, j);
    } else {
      s := Start(k + 1, h);
      StartIsFirstShown(columns, rows, s);
    }
  }

  // ----- stepping through every matching start -----

  predicate Ascending(v: seq<nat>)
  {
    forall i, j | 0 <= i < j < |v| :: v[i] < v[j]
  }

  function Reverse(v: seq<nat>): seq<nat>
  {
    if v == [] then [] else Reverse(v[1..]) + [v[0]]
  }

  /** The rows of the starts a filter matches, in order. */
  function Matching(starts: seq<Start>, want: Want): seq<nat>
  {
    if starts == [] then []
    else
      var s := starts[|starts| - 1];
      Matching(starts[..|starts| - 1], want) + if want(s.hunk) then [s.lnum] else []
  }

  /** `v` is where repeated motion to the next match goes from `from` until there is none. */
  ghost predicate StepsOn(rows: seq<Row>, want: Want, from: nat, v: seq<nat>)
    decreases |v|
  {
    if v == [] then IsNext(rows, from, want, None)
    else IsNext(rows, from, want, Some(v[0])) && StepsOn(rows, want, v[0], v[1..])
  }

  ghost predicate StepsBack(rows: seq<Row>, want: Want, from: nat, v: seq<nat>)
    decreases |v|
  {
    if v == [] then IsPrev(rows, from, want, None)
    else IsPrev(rows, from, want, Some(v[0])) && StepsBack(rows, want, v[0], v[1..])
  }

  lemma LastIsMost(a: seq<nat>, x: nat)
    requires Ascending(a) && x in a
    ensures x <= a[|a| - 1]
  {
  }

  lemma SameEnds(a: seq<nat>, b: seq<nat>, a': seq<nat>, b': seq<nat>)
    requires Ascending(a) && Ascending(b) && a != [] && b != [] && forall x: nat :: x in a <==> x in b
    requires a' == a[..|a| - 1] && b' == b[..|b| - 1]
    ensures a[|a| - 1] == b[|b| - 1] && forall x: nat :: x in a' <==> x in b'
  {
    var x, y := a[|a| - 1], b[|b| - 1];
    assert x in b && y in a;
    LastIsMost(a, y);
    LastIsMost(b, x);
    forall z: nat
      ensures z in a' <==> z in b'
    {
      InitOf(a, z);
      InitOf(b, z);
    }
  }

  lemma {:induction false} AscendingEqual(a: seq<nat>, b: seq<nat>)
    requires Ascending(a) && Ascending(b) && forall x: nat :: x in a <==> x in b
    ensures a == b
  {
    if a == [] {
      assert forall i | 0 <= i < |b| :: b[i] in b;
    } else {
      assert a[0] in a && a[0] in b;
      var a', b' := a[..|a| - 1], b[..|b| - 1];
      SameEnds(a, b, a', b');
      AscendingEqual(a', b');
      assert a == a' + [a[|a| - 1]] && b == b' + [b[|b| - 1]];
    }
  }

  lemma InitOf(a: seq<nat>, z: nat)
    requires a != [] && Ascending(a)
    ensures z in a[..|a| - 1] <==> z in a && z != a[|a| - 1]
  {
  }

  lemma {:induction false} ReverseIs(v: seq<nat>)
    ensures |Reverse(v)| == |v| && forall i | 0 <= i < |v| :: Reverse(v)[i] == v[|v| - 1 - i]
  {
    if v != [] {
      ReverseIs(v[1..]);
    }
  }

  lemma {:induction false} MatchingHits(starts: seq<Start>, want: Want)
    requires forall i, j | 0 <= i < j < |starts| :: starts[i].lnum < starts[j].lnum
    ensures Ascending(Matching(starts, want))
    ensures forall x: nat :: x in Matching(starts, want) <==> Hit(starts, want, x)
  {
    if starts != [] {
      var init, s := starts[..|starts| - 1], starts[|starts| - 1];
      var v := Matching(init, want);
      MatchingHits(init, want);
      forall x: nat
        ensures x in Matching(starts, want) <==> Hit(starts, want, x)
        ensures x in v ==> x < s.lnum
      {
        HitSnoc(init, s, want, x);
        assert starts == init + [s];
      }
      assert forall i | 0 <= i < |v| :: v[i] in v;
    }
  }

  lemma HitSnoc(init: seq<Start>, s: Start, want: Want, x: nat)
    ensures Hit(init + [s], want, x) <==> Hit(init, want, x) || (x == s.lnum && want(s.hunk))
  {
    var starts := init + [s];
    if Hit(init, want, x) {
      var i :| 0 <= i < |init| && init[i].lnum == x && want(init[i].hunk);
      assert starts[i] == init[i];
    }
    if x == s.lnum && want(s.hunk) {
      assert starts[|init|] == s;
    }
  }

  lemma NoHitBetween(starts: seq<Start>, want: Want, lo: int, hi: int)
    ensures NoneBetween(starts, want, lo, hi) <==> forall x: nat | Hit(starts, want, x) :: !(lo < x < hi)
  {
    if forall x: nat | Hit(starts, want, x) :: !(lo < x < hi) {
      forall i | 0 <= i < |starts| && lo < starts[i].lnum < hi
        ensures !want(starts[i].hunk)
      {
        assert want(starts[i].hunk) ==> Hit(starts, want, starts[i].lnum);
      }
    }
  }

  lemma AscendingCons(h: nat, t: seq<nat>)
    ensures Ascending([h] + t) <==> Ascending(t) && forall x: nat | x in t :: x > h
  {
    var v := [h] + t;
    assert forall i | 0 <= i < |t| :: v[i + 1] == t[i] && t[i] in t;
    if Ascending(v) {
      forall i, j | 0 <= i < j < |t|
        ensures t[i] < t[j]
      {
        assert v[i + 1] < v[j + 1];
      }
      forall x: nat | x in t
        ensures x > h
      {
        var i :| 0 <= i < |t| && t[i] == x;
        assert v[0] < v[i + 1];
      }
    }
  }

  lemma DescendingCons(h: nat, t: seq<nat>)
    ensures Descending([h] + t) <==> Descending(t) && forall x: nat | x in t :: x < h
  {
    var v := [h] + t;
    assert forall i | 0 <= i < |t| :: v[i + 1] == t[i] && t[i] in t;
    if Descending(v) {
      forall i, j | 0 <= i < j < |t|
        ensures t[i] > t[j]
      {
        assert v[i + 1] > v[j + 1];
      }
      forall x: nat | x in t
        ensures x < h
      {
        var i :| 0 <= i < |t| && t[i] == x;
        assert v[0] > v[i + 1];
      }
    }
  }

  /** Stepping on visits exactly the matches past where it starts, in order. */
  lemma {:induction false} OnVisited(rows: seq<Row>, want: Want, from: nat, v: seq<nat>)
    requires StepsOn(rows, want, from, v)
    ensures Ascending(v) && Covers(v, Starts(rows), want, from, |rows| + 1)
    decreases |v|
  {
    HitsInRange(rows, want);
    NoHitBetween(Starts(rows), want, from, |rows| + 1);
    if v != [] {
      var h, t := v[0], v[1..];
      NoHitBetween(Starts(rows), want, from, h);
      OnVisited(rows, want, h, t);
      AscendingCons(h, t);
      assert v == [h] + t;
      assert forall x: nat :: x in v <==> x == h || x in t;
    }
  }

  lemma {:induction false} OnVisiting(rows: seq<Row>, want: Want, from: nat, v: seq<nat>)
    requires Ascending(v) && Covers(v, Starts(rows), want, from, |rows| + 1)
    ensures StepsOn(rows, want, from, v)
    decreases |v|
  {
    HitsInRange(rows, want);
    NoHitBetween(Starts(rows), want, from, |rows| + 1);
    if v != [] {
      var h, t := v[0], v[1..];
      assert h in v;
      NoHitBetween(Starts(rows), want, from, h);
      AscendingCons(h, t);
      assert v == [h] + t;
      assert forall x: nat :: x in v <==> x == h || x in t;
      forall x: nat
        ensures x in t <==> h < x < |rows| + 1 && Hit(Starts(rows), want, x)
      {
        assert x in v <==> x == h || x in t;
      }
      OnVisiting(rows, want, h, t);
    }
  }

  /** `v` holds exactly the matches strictly between the two lines. */
  ghost predicate Covers(v: seq<nat>, starts: seq<Start>, want: Want, lo: int, hi: int)
  {
    forall x: nat :: x in v <==> lo < x < hi && Hit(starts, want, x)
  }

  lemma HitsInRange(rows: seq<Row>, want: Want)
    ensures forall x: nat | Hit(Starts(rows), want, x) :: 1 <= x <= |rows|
  {
    StartsAscend(rows);
  }

  predicate Descending(v: seq<nat>)
  {
    forall i, j | 0 <= i < j < |v| :: v[i] > v[j]
  }

  /** Stepping back visits exactly the matches before where it starts, last to first. */
  lemma {:induction false} BackVisited(rows: seq<Row>, want: Want, from: nat, v: seq<nat>)
    requires StepsBack(rows, want, from, v)
    ensures Descending(v) && Covers(v, Starts(rows), want, 0, from)
    decreases |v|
  {
    HitsInRange(rows, want);
    NoHitBetween(Starts(rows), want, 0, from);
    if v != [] {
      var h, t := v[0], v[1..];
      NoHitBetween(Starts(rows), want, h, from);
      BackVisited(rows, want, h, t);
      DescendingCons(h, t);
      assert v == [h] + t;
      assert forall x: nat :: x in v <==> x == h || x in t;
    }
  }

  lemma {:induction false} BackVisiting(rows: seq<Row>, want: Want, from: nat, v: seq<nat>)
    requires Descending(v) && Covers(v, Starts(rows), want, 0, from)
    ensures StepsBack(rows, want, from, v)
    decreases |v|
  {
    HitsInRange(rows, want);
    NoHitBetween(Starts(rows), want, 0, from);
    if v != [] {
      var h, t := v[0], v[1..];
      assert h in v;
      NoHitBetween(Starts(rows), want, h, from);
      DescendingCons(h, t);
      assert v == [h] + t;
      assert forall x: nat :: x in v <==> x == h || x in t;
      forall x: nat
        ensures x in t <==> 0 < x < h && Hit(Starts(rows), want, x)
      {
        assert x in v <==> x == h || x in t;
      }
      BackVisiting(rows, want, h, t);
    }
  }

  lemma ReverseSame(v: seq<nat>)
    ensures forall x: nat :: x in Reverse(v) <==> x in v
    ensures Ascending(v) <==> Descending(Reverse(v))
    ensures Descending(v) <==> Ascending(Reverse(v))
    ensures Reverse(Reverse(v)) == v
  {
    var r := Reverse(v);
    ReverseIs(v);
    ReverseIs(r);
    forall x: nat
      ensures x in r <==> x in v
    {
      if x in v {
        var i :| 0 <= i < |v| && v[i] == x;
        assert r[|v| - 1 - i] == x;
      }
    }
    assert forall i | 0 <= i < |v| :: v[i] == r[|v| - 1 - i];
  }

  lemma OrderedEqual(v: seq<nat>, m: seq<nat>)
    requires Ascending(m)
    ensures v == m <==> Ascending(v) && forall x: nat :: x in v <==> x in m
    ensures v == Reverse(m) <==> Descending(v) && forall x: nat :: x in v <==> x in m
  {
    ReverseSame(v);
    ReverseSame(m);
    if Ascending(v) && forall x: nat :: x in v <==> x in m {
      AscendingEqual(v, m);
    }
    if Descending(v) && forall x: nat :: x in v <==> x in m {
      AscendingEqual(Reverse(v), m);
    }
  }

  lemma CoversMatching(rows: seq<Row>, want: Want, v: seq<nat>)
    ensures var m := Matching(Starts(rows), want);
            && Ascending(m)
            && (Covers(v, Starts(rows), want, 0, |rows| + 1) <==> forall x: nat :: x in v <==> x in m)
  {
    StartsAscend(rows);
    MatchingHits(Starts(rows), want);
    HitsInRange(rows, want);
  }

  /** Stepping on from above the first row visits each matching start once, ascending. */
  lemma MotionOnVisitsAll(rows: seq<Row>, want: Want, v: seq<nat>)
    ensures StepsOn(rows, want, 0, v) <==> v == Matching(Starts(rows), want)
  {
    CoversMatching(rows, want, v);
    OrderedEqual(v, Matching(Starts(rows), want));
    if StepsOn(rows, want, 0, v) {
      OnVisited(rows, want, 0, v);
    }
    if v == Matching(Starts(rows), want) {
      OnVisiting(rows, want, 0, v);
    }
  }

  /** Stepping back from below the last row is its exact reverse. */
  lemma MotionBackVisitsAll(rows: seq<Row>, want: Want, v: seq<nat>)
    ensures StepsBack(rows, want, |rows| + 1, v) <==> v == Reverse(Matching(Starts(rows), want))
  {
    CoversMatching(rows, want, v);
    OrderedEqual(v, Matching(Starts(rows), want));
    if StepsBack(rows, want, |rows| + 1, v) {
      BackVisited(rows, want, |rows| + 1, v);
    }
    if v == Reverse(Matching(Starts(rows), want)) {
      BackVisiting(rows, want, |rows| + 1, v);
    }
  }

  // ----- the file line under the cursor -----

  /** The new line at the nearest row at or after the cursor's that has one, else at the
      nearest row before it. */
  ghost predicate IsFileLine(rows: seq<Row>, lnum: nat, r: Option<nat>)
  {
    match r
    case None => forall k | 0 <= k < |rows| :: rows[k].now.None?
    case Some(n) =>
      exists k: nat :: k < |rows| && rows[k].now == Some(n)
        && (if k + 1 >= lnum then forall q | 0 <= q < k && q + 1 >= lnum :: rows[q].now.None?
            else forall q | k < q < |rows| :: rows[q].now.None?)
  }

  /** The new-side line for a row, searching on and then back. */
  method FileLine(m: LineMap, lnum: nat) returns (r: Option<nat>)
    requires lnum <= |m.lines| + 1
    ensures IsFileLine(m.lines, lnum, r)
  {
    if 1 <= lnum <= |m.lines| && m.lines[lnum - 1].now.Some? {
      return m.lines[lnum - 1].now;
    }
    var i: int := lnum + 1;
    while i <= |m.lines|
      invariant forall q | 0 <= q < |m.lines| && lnum <= q + 1 < i :: m.lines[q].now.None?
    {
      if m.lines[i - 1].now.Some? {
        r := m.lines[i - 1].now;
        assert m.lines[i - 1].now == Some(r.value);
        return;
      }
      i := i + 1;
    }
    i := lnum - 1;
    while i >= 1
      invariant i < lnum && forall q | 0 <= q < |m.lines| && i < q + 1 :: m.lines[q].now.None?
    {
      if m.lines[i - 1].now.Some? {
        r := m.lines[i - 1].now;
        assert m.lines[i - 1].now == Some(r.value);
        return;
      }
      i := i - 1;
    }
    return None;
  }

  /** New-side numbers go up with the rows that have them. */
  ghost predicate NewAscends(rows: seq<Row>)
  {
    forall i, j | 0 <= i < j < |rows| && rows[i].now.Some? && rows[j].now.Some? :: rows[i].now.value < rows[j].now.value
  }

  /** A later cursor never maps to an earlier file line. */
  lemma FileLineMonotone(rows: seq<Row>, lo: nat, hi: nat, r: Option<nat>, t: Option<nat>)
    requires NewAscends(rows) && lo <= hi && IsFileLine(rows, lo, r) && IsFileLine(rows, hi, t)
    ensures r.None? <==> t.None?
    ensures r.Some? ==> r.value <= t.value
  {
  }

  /** Where rows' new-side numbers ascend, the file line of a row that shows a new line is
      that line, and the row indexed for a file line is one that shows it. */
  lemma FileLineInverts(rows: seq<Row>, n: nat, r: Option<nat>)
    requires n in NewIndex(rows) && IsFileLine(rows, NewIndex(rows)[n], r)
    ensures r == Some(n)
  {
    IndexedIsShown(rows, n);
  }

  lemma IndexInverts(rows: seq<Row>, n: nat, k: nat)
    requires NewAscends(rows) && k < |rows| && ShowsNew(rows[k]) && IsFileLine(rows, k + 1, Some(n))
    ensures n in NewIndex(rows) && NewIndex(rows)[n] == k + 1
  {
    assert rows[k].now == Some(n);
    ShownIsIndexed(rows, k);
    IndexedIsShown(rows, n);
  }
}
