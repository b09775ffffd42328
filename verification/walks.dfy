/** Paged reads of a remote list: following cursors or links, a page a request, from a server
    that may answer anything. */
module Walks {
  import opened Wrappers

  const MAX_PAGES: nat := 100

  /** A decoded page. A REST page's `cursor` is the URL of the next one, empty if there is none. */
  datatype Page<+P> = Page(body: P, hasNext: bool, cursor: string)

  /** What the server answers to its `n`th request, for a given cursor or URL. */
  type Answers<!P> = (nat, string) -> Result<Page<P>>

  /** The far end, with what it has been asked. */
  class Server<P> {
    const answers: Answers<P>
    var asked: seq<string>

    constructor (answers: Answers<P>)
      ensures this.answers == answers && asked == []
    {
      this.answers, this.asked := answers, [];
    }

    method Ask(cursor: string) returns (page: Result<Page<P>>)
      modifies this`asked
      ensures asked == old(asked) + [cursor] && page == answers(|old(asked)|, cursor)
    {
      page := answers(|asked|, cursor);
      asked := asked + [cursor];
    }
  }

  /** The cursor to fetch next: none on the last page, an empty cursor, or one that has not
      moved. */
  function NextCursor<P>(prev: string, page: Page<P>): Option<string>
  {
    if !page.hasNext || page.cursor == "" || page.cursor == prev then None else Some(page.cursor)
  }

  /** A REST walk goes on to whatever URL it is given. */
  function NextLink<P>(prev: string, page: Page<P>): Option<string>
  {
    if page.cursor == "" then None else Some(page.cursor)
  }

  type Next<!P> = (string, Page<P>) -> Option<string>

  /** A walk: the pages read, what was asked for, and the failure that ended it. */
  datatype Trip<+P> = Trip(pages: seq<Page<P>>, asked: seq<string>, failed: Option<string>)

  function Walk<P>(answers: Answers<P>, next: Next<P>, n: nat, cursor: string, budget: nat): Trip<P>
    decreases budget
  {
    if budget == 0 then Trip([], [], None)
    else match answers(n, cursor)
      case Err(why) => Trip([], [cursor], Some(why))
      case Ok(page) =>
        match next(cursor, page)
        case None => Trip([page], [cursor], None)
        case Some(onward) =>
          var rest := Walk(answers, next, n + 1, onward, budget - 1);
          Trip([page] + rest.pages, [cursor] + rest.asked, rest.failed)
  }

  // ----- what a walk is, said of its requests and pages alone -----

  /** Request `i` asks for the cursor page `i - 1` gave, every page but the last goes on, and
      the walk stops for one of three reasons: a failure, a last page, or the cap. */
  ghost predicate IsTrip<P(!new)>(answers: Answers<P>, next: Next<P>, n: nat, cursor: string, budget: nat, t: Trip<P>)
  {
    && |t.asked| <= budget
    && |t.asked| == |t.pages| + (if t.failed.Some? then 1 else 0)
    && (t.asked != [] ==> t.asked[0] == cursor)
    && (forall i | 0 <= i < |t.pages| :: answers(n + i, t.asked[i]) == Ok(t.pages[i]))
    && (forall i | 0 <= i < |t.asked| - 1 :: next(t.asked[i], t.pages[i]) == Some(t.asked[i + 1]))
    && (t.failed.Some? ==> answers(n + |t.pages|, t.asked[|t.pages|]) == Err(t.failed.value))
    && (t.failed.None? && |t.pages| < budget ==> t.pages != [] && next(t.asked[|t.pages| - 1],
                                                                       t.pages[|t.pages| - 1]) == None)
  }

  /** One request on, a walk is the walk from the next cursor. */
  lemma TripRest<P(!new)>(answers: Answers<P>, next: Next<P>, n: nat, cursor: string, budget: nat, t: Trip<P>)
    requires budget > 0 && t.asked != [] && t.pages != [] && answers(n, cursor) == Ok(t.pages[0])
    requires next(cursor, t.pages[0]).Some?
    ensures IsTrip(answers, next, n, cursor, budget, t) <==>
            && t.asked[0] == cursor
            && IsTrip(answers, next, n + 1, next(cursor, t.pages[0]).value, budget - 1,
                      Trip(t.pages[1..], t.asked[1..], t.failed))
  {
  }

  lemma TripBegins<P(!new)>(answers: Answers<P>, next: Next<P>, n: nat, cursor: string, budget: nat, t: Trip<P>)
    requires budget > 0 && IsTrip(answers, next, n, cursor, budget, t)
    ensures t.asked != [] && t.asked[0] == cursor
    ensures t.pages == [] ==> t.failed.Some? && answers(n, cursor) == Err(t.failed.value)
    ensures t.pages != [] ==> answers(n, cursor) == Ok(t.pages[0])
    ensures |t.asked| > 1 ==> t.pages != [] && next(cursor, t.pages[0]) == Some(t.asked[1])
  {
    assert t.pages != [] ==> answers(n + 0, t.asked[0]) == Ok(t.pages[0]);
  }

  lemma LastRequest<P(!new)>(answers: Answers<P>, next: Next<P>, n: nat, cursor: string, budget: nat, t: Trip<P>)
    requires budget == 0 || answers(n, cursor).Err? || next(cursor, answers(n, cursor).value).None?
    ensures t == Walk(answers, next, n, cursor, budget) <==> IsTrip(answers, next, n, cursor, budget, t)
  {
    if budget > 0 && IsTrip(answers, next, n, cursor, budget, t) {
      TripBegins(answers, next, n, cursor, budget, t);
      assert |t.asked| <= 1 && |t.pages| <= 1;
    }
  }

  lemma WalkUnfolds<P>(answers: Answers<P>, next: Next<P>, n: nat, cursor: string, budget: nat, t: Trip<P>)
    requires budget > 0 && answers(n, cursor).Ok? && next(cursor, answers(n, cursor).value).Some?
    ensures t == Walk(answers, next, n, cursor, budget) <==>
            && t.asked != [] && t.pages != [] && t.asked[0] == cursor && t.pages[0] == answers(n, cursor).value
            && Trip(t.pages[1..], t.asked[1..], t.failed)
               == Walk(answers, next, n + 1, next(cursor, answers(n, cursor).value).value, budget - 1)
  {
    var rest := Walk(answers, next, n + 1, next(cursor, answers(n, cursor).value).value, budget - 1);
    if t.asked != [] && t.pages != [] {
      assert t.pages == [t.pages[0]] + t.pages[1..] && t.asked == [t.asked[0]] + t.asked[1..];
    }
    var page := answers(n, cursor).value;
    assert ([page] + rest.pages)[1..] == rest.pages && ([cursor] + rest.asked)[1..] == rest.asked;
  }

  /** The recursion is exactly that: against any server there is one walk, of at most `budget`
      requests. */
  lemma {:induction false} WalkIsTrip<P(!new)>(answers: Answers<P>, next: Next<P>, n: nat, cursor: string, budget: nat,
                                               t: Trip<P>)
    ensures t == Walk(answers, next, n, cursor, budget) <==> IsTrip(answers, next, n, cursor, budget, t)
    decreases budget
  {
    if budget == 0 || answers(n, cursor).Err? || next(cursor, answers(n, cursor).value).None? {
      LastRequest(answers, next, n, cursor, budget, t);
    } else {
      var onward := next(cursor, answers(n, cursor).value).value;
      WalkUnfolds(answers, next, n, cursor, budget, t);
      if IsTrip(answers, next, n, cursor, budget, t) {
        TripBegins(answers, next, n, cursor, budget, t);
      }
      if t.asked != [] && t.pages != [] && answers(n, cursor) == Ok(t.pages[0]) {
        WalkIsTrip(answers, next, n + 1, onward, budget - 1, Trip(t.pages[1..], t.asked[1..], t.failed));
        TripRest(answers, next, n, cursor, budget, t);
      }
    }
  }

  /** The request after page `i` is for what that page named. */
  predicate Onward<P>(t: Trip<P>, i: nat)
  {
    i < |t.pages| && i + 1 < |t.asked| && t.asked[i + 1] == t.pages[i].cursor
  }

  /** A GraphQL walk asks for the first page with no cursor and goes on, while it is within its
      budget, just while a page says there is more and gives a cursor that is not empty and not
      the one it was asked for. */
  lemma CursorWalk<P(!new)>(answers: Answers<P>, n: nat, budget: nat, t: Trip<P>)
    requires budget > 0 && t == Walk(answers, NextCursor, n, "", budget)
    ensures 1 <= |t.asked| <= budget && t.asked[0] == "" && |t.asked| - 1 <= |t.pages| <= |t.asked|
    ensures forall i | 0 <= i < |t.asked| - 1 ::
              t.pages[i].hasNext && t.pages[i].cursor != "" && t.pages[i].cursor != t.asked[i]
    ensures forall i | 0 <= i < |t.asked| - 1 :: Onward(t, i)
    ensures t.failed.None? && |t.asked| < budget ==>
              var last, cursor := t.pages[|t.pages| - 1], t.asked[|t.pages| - 1];
              !last.hasNext || last.cursor == "" || last.cursor == cursor
  {
    WalkIsTrip(answers, NextCursor, n, "", budget, t);
    TripBegins(answers, NextCursor, n, "", budget, t);
    forall i | 0 <= i < |t.asked| - 1
      ensures t.pages[i].hasNext && t.pages[i].cursor != "" && t.pages[i].cursor != t.asked[i] && Onward(t, i)
    {
      assert NextCursor(t.asked[i], t.pages[i]) == Some(t.asked[i + 1]);
    }
  }

  /** A REST walk goes on just while a page links to another. */
  lemma LinkWalk<P(!new)>(answers: Answers<P>, n: nat, url: string, budget: nat, t: Trip<P>)
    requires budget > 0 && t == Walk(answers, NextLink, n, url, budget)
    ensures 1 <= |t.asked| <= budget && t.asked[0] == url && |t.asked| - 1 <= |t.pages| <= |t.asked|
    ensures forall i | 0 <= i < |t.asked| - 1 :: t.pages[i].cursor != "" && Onward(t, i)
    ensures t.failed.None? && |t.asked| < budget ==> t.pages[|t.pages| - 1].cursor == ""
  {
    WalkIsTrip(answers, NextLink, n, url, budget, t);
    TripBegins(answers, NextLink, n, url, budget, t);
    forall i | 0 <= i < |t.asked| - 1
      ensures t.pages[i].cursor != "" && Onward(t, i)
    {
      assert NextLink(t.asked[i], t.pages[i]) == Some(t.asked[i + 1]);
    }
  }

  // ----- the loops -----

  function Bodies<P>(pages: seq<Page<P>>): (bodies: seq<P>)
    ensures |bodies| == |pages|
  {
    if pages == [] then [] else [pages[0].body] + Bodies(pages[1..])
  }

  function Flatten<N>(lists: seq<seq<N>>): seq<N>
  {
    if lists == [] then [] else lists[0] + Flatten(lists[1..])
  }

  /** A walk that has read `pages` and asked for `asked` goes on from request `n` and `cursor`
      to end as `trip`. */
  ghost predicate LeadsTo<P(!new)>(trip: Trip<P>, answers: Answers<P>, next: Next<P>, n: nat, cursor: string,
                                   budget: nat,
                                   pages: seq<Page<P>>, asked: seq<string>)
    decreases budget
  {
    if budget == 0 then trip == Trip(pages, asked, None)
    else match answers(n, cursor)
      case Err(why) => trip == Trip(pages, asked + [cursor], Some(why))
      case Ok(page) =>
        match next(cursor, page)
        case None => trip == Trip(pages + [page], asked + [cursor], None)
        case Some(onward) => LeadsTo(trip, answers, next, n + 1, onward, budget - 1, pages + [page], asked + [cursor])
  }

  lemma {:induction false} WalkLeads<P(!new)>(answers: Answers<P>, next: Next<P>, n: nat, cursor: string, budget: nat,
                                              pages: seq<Page<P>>, asked: seq<string>)
    ensures var rest := Walk(answers, next, n, cursor, budget);
            LeadsTo(Trip(pages + rest.pages, asked + rest.asked, rest.failed), answers, next, n, cursor, budget, pages,
                    asked)
    decreases budget
  {
    if budget == 0 || answers(n, cursor).Err? {
      assert pages + [] == pages && asked + [] == asked;
    } else {
      var page := answers(n, cursor).value;
      match next(cursor, page)
      case None =>
      case Some(onward) =>
        var rest := Walk(answers, next, n + 1, onward, budget - 1);
        WalkLeads(answers, next, n + 1, onward, budget - 1, pages + [page], asked + [cursor]);
        assert pages + ([page] + rest.pages) == pages + [page] + rest.pages;
        assert asked + ([cursor] + rest.asked) == asked + [cursor] + rest.asked;
    }
  }

  /** A whole walk leads to itself from nothing read. */
  lemma WalkStarts<P(!new)>(answers: Answers<P>, next: Next<P>, n: nat, cursor: string, budget: nat)
    ensures LeadsTo(Walk(answers, next, n, cursor, budget), answers, next, n, cursor, budget, [], [])
  {
    var trip := Walk(answers, next, n, cursor, budget);
    WalkLeads(answers, next, n, cursor, budget, [], []);
    assert [] + trip.pages == trip.pages && [] + trip.asked == trip.asked;
  }

  lemma {:induction false} FlattenSnoc<N>(lists: seq<seq<N>>, last: seq<N>)
    ensures Flatten(lists + [last]) == Flatten(lists) + last
  {
    if lists == [] {
      assert lists + [last] == [last];
    } else {
      assert (lists + [last])[1..] == lists[1..] + [last];
      FlattenSnoc(lists[1..], last);
    }
  }

  lemma {:induction false} BodiesSnoc<P>(pages: seq<Page<P>>, last: Page<P>)
    ensures Bodies(pages + [last]) == Bodies(pages) + [last.body]
  {
    if pages == [] {
      assert pages + [last] == [last];
    } else {
      assert (pages + [last])[1..] == pages[1..] + [last];
      BodiesSnoc(pages[1..], last);
    }
  }

  /** The items of a list stand after those of the lists before it, in their own order. */
  lemma {:induction false} FlattenOrder<N>(lists: seq<seq<N>>, i: nat, k: nat)
    requires i < |lists| && k < |lists[i]|
    ensures var at := |Flatten(lists[..i])| + k; at < |Flatten(lists)| && Flatten(lists)[at] == lists[i][k]
  {
    if i > 0 {
      FlattenOrder(lists[1..], i - 1, k);
      assert lists[..i][1..] == lists[1..][..i - 1];
    }
  }

  /** Every page's items, in order. */
  function Items<N>(pages: seq<Page<seq<N>>>): seq<N>
  {
    Flatten(Bodies(pages))
  }

  lemma ItemsSnoc<N>(pages: seq<Page<seq<N>>>, last: Page<seq<N>>)
    ensures Items(pages + [last]) == Items(pages) + last.body
  {
    BodiesSnoc(pages, last);
    FlattenSnoc(Bodies(pages), last.body);
  }

  // ----- the timeline -----

  datatype Review = Review(author: string, state: string, body: string, submittedAt: string)

  datatype TimelinePage<+C> = TimelinePage(comments: seq<C>, reviews: seq<Review>)

  datatype Timeline<+C> = Timeline(comments: seq<C>, reviews: seq<Review>)

  /** Submitted, and saying something: not a bare comment that only carried inline ones. */
  predicate Verdict(r: Review)
  {
    r.submittedAt != "" && !(r.body == "" && (r.state == "" || r.state == "COMMENTED"))
  }

  function Verdicts(reviews: seq<Review>): seq<Review>
  {
    if reviews == [] then []
    else Verdicts(reviews[..|reviews| - 1]) + if Verdict(reviews[|reviews| - 1]) then [reviews[|reviews| - 1]] else []
  }

  /** The verdicts kept are the submitted reviews that have a body, or a state other than none and a
      plain comment. */
  lemma {:induction false} VerdictKept(reviews: seq<Review>, r: Review)
    ensures r in Verdicts(reviews) <==>
            r in reviews && r.submittedAt != "" && (r.body != "" || (r.state != "" && r.state != "COMMENTED"))
    decreases |reviews|
  {
    if reviews != [] {
      assert reviews == reviews[..|reviews| - 1] + [reviews[|reviews| - 1]];
      VerdictKept(reviews[..|reviews| - 1], r);
    }
  }

  /** In their order. */
  lemma {:induction false} VerdictsInOrder(a: seq<Review>, b: seq<Review>)
    ensures Verdicts(a + b) == Verdicts(a) + Verdicts(b)
    decreases |b|
  {
    if b == [] {
      assert a + b == a;
    } else {
      assert (a + b)[..|a + b| - 1] == a + b[..|b| - 1];
      VerdictsInOrder(a, b[..|b| - 1]);
    }
  }

  function Comments<C>(pages: seq<Page<TimelinePage<C>>>): seq<C>
  {
    if pages == [] then [] else pages[0].body.comments + Comments(pages[1..])
  }

  lemma {:induction false} CommentsSnoc<C>(pages: seq<Page<TimelinePage<C>>>, last: Page<TimelinePage<C>>)
    ensures Comments(pages + [last]) == Comments(pages) + last.body.comments
  {
    if pages == [] {
      assert pages + [last] == [last];
    } else {
      assert (pages + [last])[1..] == pages[1..] + [last];
      CommentsSnoc(pages[1..], last);
    }
  }

  method CollectVerdicts(reviews: seq<Review>) returns (out: seq<Review>)
    ensures out == Verdicts(reviews)
  {
    out := [];
    for i := 0 to |reviews|
      invariant out == Verdicts(reviews[..i])
    {
      assert reviews[..i + 1][..i] == reviews[..i];
      if reviews[i].submittedAt == "" {
        continue;
      }
      if reviews[i].body == "" && (reviews[i].state == "" || reviews[i].state == "COMMENTED") {
        continue;
      }
      out := out + [reviews[i]];
    }
    assert reviews[..|reviews|] == reviews;
  }

  function FirstReviews<C>(pages: seq<Page<TimelinePage<C>>>): seq<Review>
  {
    if pages == [] then [] else Verdicts(pages[0].body.reviews)
  }

  /** Every page's comments in order, and the first page's verdicts. */
  method GetTimeline<C(!new)>(server: Server<TimelinePage<C>>) returns (r: Result<Timeline<C>>)
    modifies server`asked
    ensures var trip := Walk(server.answers, NextCursor, |old(server.asked)|, "", MAX_PAGES);
            && server.asked == old(server.asked) + trip.asked
            && r == if trip.failed.Some? then Err(trip.failed.value)
                    else Ok(Timeline(Comments(trip.pages), FirstReviews(trip.pages)))
  {
    var comments: seq<C>, reviews: seq<Review> := [], [];
    var cursor := "";
    ghost var trip := Walk(server.answers, NextCursor, |server.asked|, "", MAX_PAGES);
    ghost var asked: seq<string>, pages: seq<Page<TimelinePage<C>>> := [], [];
    WalkStarts(server.answers, NextCursor, |server.asked|, "", MAX_PAGES);
    for k := 0 to MAX_PAGES
      invariant server.asked == old(server.asked) + asked
      invariant comments == Comments(pages) && reviews == FirstReviews(pages) && (cursor == "" <==> pages == [])
      invariant LeadsTo(trip, server.answers, NextCursor, |server.asked|, cursor, MAX_PAGES - k, pages, asked)
    {
      asked := asked + [cursor];
      var answer := server.Ask(cursor);
      if answer.Err? {
        return Err(answer.why);
      }
      var page := answer.value;
      CommentsSnoc(pages, page);
      comments := comments + page.body.comments;
      if cursor == "" {
        var kept := CollectVerdicts(page.body.reviews);
        reviews := reviews + kept;
      }
      pages := pages + [page];
      assert reviews == FirstReviews(pages);
      var next := NextCursor(cursor, page);
      if next.None? {
        return Ok(Timeline(comments, reviews));
      }
      cursor := next.value;
    }
    return Ok(Timeline(comments, reviews));
  }

  // ----- REST pages -----

  /** Follows links from `url`; without a token nothing is asked. */
  method GetPaged<N(!new)>(server: Server<seq<N>>, tokenErr: Option<string>, url: string) returns (r: Result<seq<N>>)
    modifies server`asked
    ensures tokenErr.Some? ==> r == Err(tokenErr.value) && server.asked == old(server.asked)
    ensures tokenErr.None? && url == "" ==> r == Ok([]) && server.asked == old(server.asked)
    ensures tokenErr.None? && url != "" ==>
              var trip := Walk(server.answers, NextLink, |old(server.asked)|, url, MAX_PAGES);
              && server.asked == old(server.asked) + trip.asked
              && r == if trip.failed.Some? then Err(trip.failed.value) else Ok(Items(trip.pages))
  {
    if tokenErr.Some? {
      return Err(tokenErr.value);
    }
    var all: seq<N> := [];
    var rawURL, page := url, 0;
    ghost var trip := Walk(server.answers, NextLink, |server.asked|, url, MAX_PAGES);
    ghost var asked: seq<string>, pages: seq<Page<seq<N>>> := [], [];
    WalkStarts(server.answers, NextLink, |server.asked|, url, MAX_PAGES);
    while rawURL != "" && page < MAX_PAGES
      invariant page <= MAX_PAGES && server.asked == old(server.asked) + asked && all == Items(pages)
      invariant url == "" ==> rawURL == "" && pages == [] && asked == []
      invariant url != "" && rawURL == "" ==> trip == Trip(pages, asked, None)
      invariant rawURL != "" ==>
              LeadsTo(trip, server.answers, NextLink, |server.asked|, rawURL, MAX_PAGES - page, pages, asked)
      decreases MAX_PAGES - page
    {
      asked := asked + [rawURL];
      var answer := server.Ask(rawURL);
      if answer.Err? {
        return Err(answer.why);
      }
      ItemsSnoc(pages, answer.value);
      pages := pages + [answer.value];
      all := all + answer.value.body;
      rawURL := answer.value.cursor;
      page := page + 1;
    }
    return Ok(all);
  }

  // ----- one pull request -----

  datatype FileState = FileState(path: string, state: string)

  datatype PRPage<+M> = PRPage(meta: M, files: seq<FileState>)

  datatype RestFile<+D> = RestFile(filename: string, details: D)

  datatype PRFile<+D> = PRFile(file: RestFile<D>, viewed: string)

  datatype PRDetail<+M, +D> = PRDetail(meta: M, files: seq<PRFile<D>>)

  /** The state a path was last given. */
  function LastSeen(files: seq<FileState>, path: string): Option<string>
  {
    if files == [] then None
    else if files[|files| - 1].path == path then Some(files[|files| - 1].state)
    else LastSeen(files[..|files| - 1], path)
  }

  /** A path the walk did not see, or saw with an empty state, is unviewed. */
  function ViewedState(files: seq<FileState>, path: string): string
  {
    match LastSeen(files, path)
    case None => "UNVIEWED"
    case Some(state) => if state == "" then "UNVIEWED" else state
  }

  /** A file's state is the last one its path was given anywhere on the pages. */
  lemma {:induction false} LastGiven(files: seq<FileState>, k: nat)
    requires k < |files| && forall q | k < q < |files| :: files[q].path != files[k].path
    ensures ViewedState(files, files[k].path) == if files[k].state == "" then "UNVIEWED" else files[k].state
    decreases |files|
  {
    if k < |files| - 1 {
      assert files[..|files| - 1][k] == files[k];
      LastGiven(files[..|files| - 1], k);
    }
  }

  /** And a path given none is unviewed. */
  lemma {:induction false} NeverGiven(files: seq<FileState>, path: string)
    requires forall q | 0 <= q < |files| :: files[q].path != path
    ensures ViewedState(files, path) == "UNVIEWED"
    decreases |files|
  {
    if files != [] {
      NeverGiven(files[..|files| - 1], path);
    }
  }

  /** The REST list in its order, each file with its viewed state. */
  function WithStates<D>(rest: seq<RestFile<D>>, files: seq<FileState>): (merged: seq<PRFile<D>>)
    ensures |merged| == |rest|
    ensures forall i | 0 <= i < |rest| :: merged[i] == PRFile(rest[i], ViewedState(files, rest[i].filename))
  {
    seq(|rest|, i requires 0 <= i < |rest| => PRFile(rest[i], ViewedState(files, rest[i].filename)))
  }

  function FilesSeen<M>(pages: seq<Page<PRPage<M>>>): seq<FileState>
  {
    if pages == [] then [] else pages[0].body.files + FilesSeen(pages[1..])
  }

  lemma {:induction false} FilesSeenSnoc<M>(pages: seq<Page<PRPage<M>>>, last: Page<PRPage<M>>)
    ensures FilesSeen(pages + [last]) == FilesSeen(pages) + last.body.files
  {
    if pages == [] {
      assert pages + [last] == [last];
    } else {
      assert (pages + [last])[1..] == pages[1..] + [last];
      FilesSeenSnoc(pages[1..], last);
    }
  }

  ghost predicate Records(viewed: map<string, string>, files: seq<FileState>)
  {
    forall path :: LastSeen(files, path) == if path in viewed then Some(viewed[path]) else None
  }

  /** Records each of a page's files; a path seen before takes its new state. */
  method Record(viewed: map<string, string>, ghost before: seq<FileState>, files: seq<FileState>)
    returns (now: map<string, string>)
    requires Records(viewed, before)
    ensures Records(now, before + files)
  {
    now := viewed;
    ghost var seen := before;
    for i := 0 to |files|
      invariant seen == before + files[..i] && Records(now, seen)
    {
      RecordsSnoc(now, seen, files[i]);
      now := now[files[i].path := files[i].state];
      seen := seen + [files[i]];
    }
    assert files[..|files|] == files;
  }

  lemma RecordsSnoc(viewed: map<string, string>, files: seq<FileState>, f: FileState)
    requires Records(viewed, files)
    ensures Records(viewed[f.path := f.state], files + [f])
  {
    forall path
      ensures LastSeen(files + [f], path)
           == if path == f.path then Some(f.state) else if path in viewed then Some(viewed[path]) else None
    {
      assert (files + [f])[..|files|] == files;
      assert LastSeen(files, path) == if path in viewed then Some(viewed[path]) else None;
    }
  }

  /** The viewed states of every page, and the first page's metadata. */
  method GetMeta<M(!new)>(server: Server<PRPage<M>>, zero: M)
    returns (failed: Option<string>, meta: M, viewed: map<string, string>)
    modifies server`asked
    ensures var trip := Walk(server.answers, NextCursor, |old(server.asked)|, "", MAX_PAGES);
            && server.asked == old(server.asked) + trip.asked && failed == trip.failed
            && (failed.None? ==>
                  trip.pages != [] && meta == trip.pages[0].body.meta && Records(viewed, FilesSeen(trip.pages)))
  {
    viewed, meta := map[], zero;
    var cursor := "";
    ghost var trip := Walk(server.answers, NextCursor, |server.asked|, "", MAX_PAGES);
    ghost var asked: seq<string>, pages: seq<Page<PRPage<M>>> := [], [];
    WalkStarts(server.answers, NextCursor, |server.asked|, "", MAX_PAGES);
    for k := 0 to MAX_PAGES
      invariant server.asked == old(server.asked) + asked && Records(viewed, FilesSeen(pages))
      invariant (cursor == "" <==> pages == []) && |pages| == k && (pages != [] ==> meta == pages[0].body.meta)
      invariant LeadsTo(trip, server.answers, NextCursor, |server.asked|, cursor, MAX_PAGES - k, pages, asked)
    {
      asked := asked + [cursor];
      var answer := server.Ask(cursor);
      if answer.Err? {
        return Some(answer.why), meta, viewed;
      }
      var page := answer.value;
      if cursor == "" {
        meta := page.body.meta;
      }
      FilesSeenSnoc(pages, page);
      viewed := Record(viewed, FilesSeen(pages), page.body.files);
      pages := pages + [page];
      var next := NextCursor(cursor, page);
      if next.None? {
        return None, meta, viewed;
      }
      cursor := next.value;
    }
    return None, meta, viewed;
  }

  /** Gives each REST file, in order, the viewed state recorded for its path. */
  method MergeStates<D>(rest: seq<RestFile<D>>, viewed: map<string, string>, ghost seen: seq<FileState>)
    returns (files: seq<PRFile<D>>)
    requires Records(viewed, seen)
    ensures files == WithStates(rest, seen)
  {
    files := [];
    for i := 0 to |rest|
      invariant files == WithStates(rest[..i], seen)
    {
      var f := rest[i];
      var vs := if f.filename in viewed then viewed[f.filename] else "";
      if vs == "" {
        vs := "UNVIEWED";
      }
      assert LastSeen(seen, f.filename) == if f.filename in viewed then Some(viewed[f.filename]) else None;
      files := files + [PRFile(f, vs)];
    }
    assert rest[..|rest|] == rest;
  }

  /** Metadata from the first page, the file list and its order from REST, viewed states from
      every page. A failure of either walk fails the call, and the second is not begun when the
      first fails. */
  method GetPR<M(!new), D(!new)>(server: Server<PRPage<M>>, rest: Server<seq<RestFile<D>>>, tokenErr: Option<string>,
                                 url: string, zero: M)
    returns (r: Result<PRDetail<M, D>>)
    requires url != ""
    modifies server`asked, rest`asked
    ensures var trip := Walk(server.answers, NextCursor, |old(server.asked)|, "", MAX_PAGES);
            var listed := Walk(rest.answers, NextLink, |old(rest.asked)|, url, MAX_PAGES);
            && server.asked == old(server.asked) + trip.asked
            && rest.asked == old(rest.asked) + (if trip.failed.Some? || tokenErr.Some? then [] else listed.asked)
            && r == if trip.failed.Some? then Err(trip.failed.value)
                    else if tokenErr.Some? then Err(tokenErr.value)
                    else if listed.failed.Some? then Err(listed.failed.value)
                    else Ok(PRDetail(trip.pages[0].body.meta, WithStates(Items(listed.pages), FilesSeen(trip.pages))))
  {
    var failed, meta, viewed := GetMeta(server, zero);
    if failed.Some? {
      return Err(failed.value);
    }
    ghost var seen := FilesSeen(Walk(server.answers, NextCursor, |old(server.asked)|, "", MAX_PAGES).pages);
    var listed := GetPaged(rest, tokenErr, url);
    if listed.Err? {
      return Err(listed.why);
    }
    var files := MergeStates(listed.value, viewed, seen);
    return Ok(PRDetail(meta, files));
  }

  // ----- an honest server -----

  /** Whenever it is asked, the server answers the `i`th cursor with the `i`th page, which leads
      on to the next cursor, and the last page nowhere. */
  ghost predicate Serves<P(!new)>(answers: Answers<P>, next: Next<P>, bodies: seq<P>, cursors: seq<string>)
  {
    && |bodies| == |cursors|
    && forall n: nat, i | 0 <= i < |bodies| ::
         && answers(n, cursors[i]).Ok?
         && answers(n, cursors[i]).value.body == bodies[i]
         && next(cursors[i], answers(n, cursors[i]).value) == if i + 1 < |bodies| then Some(cursors[i + 1]) else None
  }

  function Least(a: nat, b: nat): nat
  {
    if a < b then a else b
  }

  /** A walk over an honest server reads its pages in order, each once, as far as the cap. */
  lemma {:induction false} HonestWalk<P(!new)>(answers: Answers<P>, next: Next<P>, bodies: seq<P>, cursors: seq<string>,
                                               n: nat, i: nat, budget: nat)
    requires Serves(answers, next, bodies, cursors) && i < |bodies|
    ensures var trip := Walk(answers, next, n, cursors[i], budget);
            && trip.failed.None?
            && Bodies(trip.pages) == bodies[i..Least(i + budget, |bodies|)]
            && trip.asked == cursors[i..Least(i + budget, |bodies|)]
    decreases budget
  {
    var end := Least(i + budget, |bodies|);
    if budget > 0 {
      var page := answers(n, cursors[i]).value;
      assert bodies[i..end] == [bodies[i]] + bodies[i + 1..end];
      assert cursors[i..end] == [cursors[i]] + cursors[i + 1..end];
      if i + 1 < |bodies| {
        HonestWalk(answers, next, bodies, cursors, n + 1, i + 1, budget - 1);
        var rest := Walk(answers, next, n + 1, cursors[i + 1], budget - 1);
        assert ([page] + rest.pages)[1..] == rest.pages;
      }
    }
  }

  lemma {:induction false} FlattenSplit<N>(a: seq<seq<N>>, b: seq<seq<N>>)
    ensures Flatten(a + b) == Flatten(a) + Flatten(b)
  {
    if a == [] {
      assert a + b == b;
    } else {
      assert (a + b)[1..] == a[1..] + b;
      FlattenSplit(a[1..], b);
    }
  }

  lemma PrefixIsWhole<N>(a: seq<seq<N>>, b: seq<seq<N>>, all: seq<seq<N>>)
    requires all == a + b
    ensures Flatten(a) == Flatten(all) <==> Flatten(b) == []
  {
    FlattenSplit(a, b);
    var head, tail := Flatten(a), Flatten(b);
    assert |head + tail| == |head| + |tail|;
    assert tail == [] ==> head + tail == head;
  }

  lemma CutAt<T>(s: seq<T>, k: nat)
    requires k <= |s|
    ensures s == s[..k] + s[k..] && s[0..k] == s[..k]
  {
  }

  /** Against a server whose cursors are fresh, a GraphQL walk reads the whole list, each item
      once and in order, exactly when nothing lies past its hundredth page. */
  lemma WholeList<N(!new)>(answers: Answers<seq<N>>, bodies: seq<seq<N>>, cursors: seq<string>, n: nat)
    requires FreshCursors(answers, bodies, cursors)
    ensures var trip := Walk(answers, NextCursor, n, "", MAX_PAGES);
            && trip.failed.None? && |trip.asked| == Least(100, |bodies|)
            && Items(trip.pages) == Flatten(bodies[..Least(MAX_PAGES, |bodies|)])
            && (Items(trip.pages) == Flatten(bodies) <==> Flatten(bodies[Least(MAX_PAGES, |bodies|)..]) == [])
  {
    var end := Least(MAX_PAGES, |bodies|);
    assert Serves(answers, NextCursor, bodies, cursors) by {
      FreshCursorsServe(answers, bodies, cursors);
    }
    HonestWalk(answers, NextCursor, bodies, cursors, n, 0, MAX_PAGES);
    CutAt(bodies, end);
    PrefixIsWhole(bodies[..end], bodies[end..], bodies);
  }

  /** One list of each page's. */
  function Lists<P, N>(bodies: seq<P>, part: P -> seq<N>): (lists: seq<seq<N>>)
    ensures |lists| == |bodies| && forall i | 0 <= i < |bodies| :: lists[i] == part(bodies[i])
  {
    seq(|bodies|, i requires 0 <= i < |bodies| => part(bodies[i]))
  }

  lemma WholeLists<P(!new), N>(answers: Answers<P>, bodies: seq<P>, cursors: seq<string>, n: nat, part: P -> seq<N>)
    requires FreshCursors(answers, bodies, cursors)
    ensures var trip, end := Walk(answers, NextCursor, n, "", MAX_PAGES), Least(MAX_PAGES, |bodies|);
            && trip.failed.None? && Bodies(trip.pages) == bodies[..end]
            && (Flatten(Lists(bodies[..end], part)) == Flatten(Lists(bodies, part))
                <==> Flatten(Lists(bodies[end..], part)) == [])
  {
    var end := Least(MAX_PAGES, |bodies|);
    assert Serves(answers, NextCursor, bodies, cursors) by {
      FreshCursorsServe(answers, bodies, cursors);
    }
    HonestWalk(answers, NextCursor, bodies, cursors, n, 0, MAX_PAGES);
    CutAt(bodies, end);
    assert Lists(bodies, part) == Lists(bodies[..end], part) + Lists(bodies[end..], part);
    PrefixIsWhole(Lists(bodies[..end], part), Lists(bodies[end..], part), Lists(bodies, part));
  }

  function CommentsOf<C>(body: TimelinePage<C>): seq<C>
  {
    body.comments
  }

  function FilesOf<M>(body: PRPage<M>): seq<FileState>
  {
    body.files
  }

  lemma {:induction false} CommentsAreLists<C>(pages: seq<Page<TimelinePage<C>>>)
    ensures Comments(pages) == Flatten(Lists(Bodies(pages), CommentsOf))
  {
    if pages != [] {
      CommentsAreLists(pages[1..]);
      assert Lists(Bodies(pages), CommentsOf)[1..] == Lists(Bodies(pages[1..]), CommentsOf);
    }
  }

  lemma {:induction false} FilesAreLists<M>(pages: seq<Page<PRPage<M>>>)
    ensures FilesSeen(pages) == Flatten(Lists(Bodies(pages), FilesOf))
  {
    if pages != [] {
      FilesAreLists(pages[1..]);
      assert Lists(Bodies(pages), FilesOf)[1..] == Lists(Bodies(pages[1..]), FilesOf);
    }
  }

  /** So the timeline has every comment exactly when none lies past the hundredth page. */
  lemma WholeTimeline<C(!new)>(answers: Answers<TimelinePage<C>>, bodies: seq<TimelinePage<C>>, cursors: seq<string>,
                               n: nat)
    requires FreshCursors(answers, bodies, cursors)
    ensures var trip := Walk(answers, NextCursor, n, "", MAX_PAGES);
            && trip.failed.None? && FirstReviews(trip.pages) == Verdicts(bodies[0].reviews)
            && (Comments(trip.pages) == Flatten(Lists(bodies, CommentsOf))
                <==> Flatten(Lists(bodies[Least(MAX_PAGES, |bodies|)..], CommentsOf)) == [])
  {
    var trip := Walk(answers, NextCursor, n, "", MAX_PAGES);
    WholeLists(answers, bodies, cursors, n, CommentsOf);
    CommentsAreLists(trip.pages);
    assert Bodies(trip.pages)[0] == bodies[0];
  }

  /** And the viewed states of every file are seen exactly when none lies past it. */
  lemma WholeViewed<M(!new)>(answers: Answers<PRPage<M>>, bodies: seq<PRPage<M>>, cursors: seq<string>, n: nat)
    requires FreshCursors(answers, bodies, cursors)
    ensures var trip := Walk(answers, NextCursor, n, "", MAX_PAGES);
            && trip.failed.None?
            && (FilesSeen(trip.pages) == Flatten(Lists(bodies, FilesOf))
                <==> Flatten(Lists(bodies[Least(MAX_PAGES, |bodies|)..], FilesOf)) == [])
  {
    WholeLists(answers, bodies, cursors, n, FilesOf);
    FilesAreLists(Walk(answers, NextCursor, n, "", MAX_PAGES).pages);
  }

  /** A REST walk the same, over pages linked each to the next. */
  lemma WholeLinkedList<N(!new)>(answers: Answers<seq<N>>, bodies: seq<seq<N>>, urls: seq<string>, n: nat)
    requires LinkedPages(answers, bodies, urls)
    ensures var trip := Walk(answers, NextLink, n, urls[0], MAX_PAGES);
            && trip.failed.None? && |trip.asked| == Least(100, |bodies|)
            && Items(trip.pages) == Flatten(bodies[..Least(MAX_PAGES, |bodies|)])
            && (Items(trip.pages) == Flatten(bodies) <==> Flatten(bodies[Least(MAX_PAGES, |bodies|)..]) == [])
  {
    var end := Least(MAX_PAGES, |bodies|);
    HonestWalk(answers, NextLink, bodies, urls, n, 0, MAX_PAGES);
    CutAt(bodies, end);
    PrefixIsWhole(bodies[..end], bodies[end..], bodies);
  }

  /** Each address is answered with its page, linking to the next; the last page links nowhere. */
  ghost predicate LinkedPages<P(!new)>(answers: Answers<P>, bodies: seq<P>, urls: seq<string>)
  {
    && |bodies| == |urls| >= 1 && (forall i | 0 <= i < |urls| :: urls[i] != "")
    && forall n: nat, i | 0 <= i < |bodies| ::
         && answers(n, urls[i]).Ok?
         && answers(n, urls[i]).value.body == bodies[i]
         && answers(n, urls[i]).value.cursor == if i + 1 < |bodies| then urls[i + 1] else ""
  }

  /** The first page has no cursor; each page but the last names the next one, never empty and
      never the one it was asked for. */
  ghost predicate FreshCursors<P(!new)>(answers: Answers<P>, bodies: seq<P>, cursors: seq<string>)
  {
    && |bodies| == |cursors| >= 1 && cursors[0] == ""
    && (forall i, j | 0 <= i && j == i + 1 < |cursors| :: cursors[j] != "" && cursors[j] != cursors[i])
    && forall n: nat, i | 0 <= i < |bodies| ::
         && answers(n, cursors[i]).Ok?
         && answers(n, cursors[i]).value.body == bodies[i]
         && answers(n, cursors[i]).value.hasNext == (i + 1 < |bodies|)
         && (i + 1 < |bodies| ==> answers(n, cursors[i]).value.cursor == cursors[i + 1])
  }

  lemma FreshCursorsServe<P(!new)>(answers: Answers<P>, bodies: seq<P>, cursors: seq<string>)
    requires FreshCursors(answers, bodies, cursors)
    ensures Serves(answers, NextCursor, bodies, cursors)
  {
  }

  // ----- a server whose cursor does not move -----

  /** A GraphQL walk stops at the second page of a server that always names the same cursor. */
  lemma UnmovedCursorStops<P(!new)>(answers: Answers<P>, n: nat, stuck: string)
    requires forall k: nat, c :: answers(k, c).Ok? && answers(k, c).value.hasNext && answers(k, c).value.cursor == stuck
    ensures |Walk(answers, NextCursor, n, "", MAX_PAGES).asked| == if stuck == "" then 1 else 2
  {
    assert Walk(answers, NextCursor, n, "", MAX_PAGES).asked
        == [""] + if stuck == "" then [] else Walk(answers, NextCursor, n + 1, stuck, MAX_PAGES - 1).asked;
  }

  /** A REST walk has no such rule: a server that always links to the same page is asked a
      hundred times. */
  lemma {:induction false} UnmovedLinkRepeats<P(!new)>(answers: Answers<P>, n: nat, url: string, budget: nat)
    requires url != "" && forall k: nat :: answers(k, url).Ok? && answers(k, url).value.cursor == url
    ensures |Walk(answers, NextLink, n, url, budget).pages| == budget
    decreases budget
  {
    if budget > 0 {
      UnmovedLinkRepeats(answers, n + 1, url, budget - 1);
    }
  }
}
