/** Review threads, built from the nodes a paged walk reads. */
module Threads {
  import opened Wrappers
  import opened Walks

  /** A page of a thread's comments holds at most so many. */
  const COMMENTS_PAGE: nat := 100

  datatype CommentNode = CommentNode(id: string, fullDatabaseId: string, author: string, body: string,
                                     createdAt: string, state: string, diffHunk: string)

  datatype Newest = Newest(nodeId: string, body: string)

  /** A thread as GitHub sends it: line numbers are null once its anchor has left the diff. */
  datatype ThreadNode = ThreadNode(id: string, path: string, resolved: bool, outdated: bool,
                                   line: Option<int>, startLine: Option<int>, originalLine: Option<int>,
                                   diffSide: string, startSide: string,
                                   comments: seq<CommentNode>, newest: seq<Newest>)

  datatype Comment = Comment(id: int, nodeId: string, author: string, body: string, createdAt: string, diffHunk: string)

  datatype Thread = Thread(id: int, threadId: string, path: string, side: string, line: int,
                           startSide: string, startLine: int, outdated: bool, originalLine: int, resolved: bool,
                           isPending: bool, comments: seq<Comment>, commentsTruncated: bool, newest: Option<Newest>)

  /** How a database id is read as a number. */
  type ReadId = string -> int

  function Deref(p: Option<int>): int
  {
    if p.Some? then p.value else 0
  }

  predicate Carries(c: Comment, node: CommentNode, parseID: ReadId)
  {
    c == Comment(parseID(node.fullDatabaseId), node.id, node.author, node.body, node.createdAt, node.diffHunk)
  }

  /** The thread's identity and anchor, and its root: a thread takes its number and its draft
      state from the first comment, and has neither without one. */
  predicate Rooted(t: Thread, node: ThreadNode, parseID: ReadId)
  {
    && t.threadId == node.id
    && (node.comments == [] ==> t.id == 0 && !t.isPending)
    && (node.comments != [] ==>
          && t.id == parseID(node.comments[0].fullDatabaseId)
          && (t.isPending <==> node.comments[0].state == "PENDING"))
  }

  predicate Anchored(t: Thread, node: ThreadNode)
  {
    && t.path == node.path && t.side == node.diffSide && t.startSide == node.startSide
    && t.line == Deref(node.line) && t.startLine == Deref(node.startLine) && t.originalLine == Deref(node.originalLine)
    && t.outdated == node.outdated && t.resolved == node.resolved
  }

  /** Its comments in order, said to be cut off when the page of them was full, and the newest
      one apart from them. */
  predicate Commented(t: Thread, node: ThreadNode, parseID: ReadId)
  {
    && |t.comments| == |node.comments|
    && (forall c | 0 <= c < |node.comments| :: Carries(t.comments[c], node.comments[c], parseID))
    && (t.commentsTruncated <==> |node.comments| >= COMMENTS_PAGE)
    && t.newest == if node.newest == [] then None else Some(node.newest[0])
  }

  predicate Builds(t: Thread, node: ThreadNode, parseID: ReadId)
  {
    Rooted(t, node, parseID) && Anchored(t, node) && Commented(t, node, parseID)
  }

  ghost predicate BuildsAll(threads: seq<Thread>, nodes: seq<ThreadNode>, parseID: ReadId)
  {
    |threads| == |nodes| && forall k | 0 <= k < |nodes| :: Builds(threads[k], nodes[k], parseID)
  }

  /** A node makes one thread. */
  lemma BuildsOne(t: Thread, u: Thread, node: ThreadNode, parseID: ReadId)
    requires Builds(t, node, parseID) && Builds(u, node, parseID)
    ensures t == u
  {
    assert forall c | 0 <= c < |node.comments| ::
        Carries(t.comments[c], node.comments[c], parseID) && Carries(u.comments[c], node.comments[c], parseID);
    assert t.comments == u.comments;
  }

  method Build(node: ThreadNode, parseID: ReadId) returns (t: Thread)
    ensures Builds(t, node, parseID)
    ensures t.threadId == node.id && t.path == node.path && t.side == node.diffSide && t.startSide == node.startSide
    ensures t.line == (if node.line.Some? then node.line.value else 0)
    ensures t.startLine == (if node.startLine.Some? then node.startLine.value else 0)
    ensures t.originalLine == (if node.originalLine.Some? then node.originalLine.value else 0)
    ensures t.outdated == node.outdated && t.resolved == node.resolved
    ensures t.id == (if node.comments == [] then 0 else parseID(node.comments[0].fullDatabaseId))
    ensures t.isPending <==> node.comments != [] && node.comments[0].state == "PENDING"
    ensures |t.comments| == |node.comments| && (t.commentsTruncated <==> |node.comments| >= 100)
    ensures forall c | 0 <= c < |node.comments| ::
              && t.comments[c].id == parseID(node.comments[c].fullDatabaseId)
              && t.comments[c].nodeId == node.comments[c].id && t.comments[c].author == node.comments[c].author
              && t.comments[c].body == node.comments[c].body && t.comments[c].createdAt == node.comments[c].createdAt
              && t.comments[c].diffHunk == node.comments[c].diffHunk
    ensures t.newest == if node.newest == [] then None else Some(node.newest[0])
  {
    var comments: seq<Comment> := [];
    for c := 0 to |node.comments|
      invariant |comments| == c
      invariant forall d | 0 <= d < c :: Carries(comments[d], node.comments[d], parseID)
    {
      var n := node.comments[c];
      comments := comments + [Comment(parseID(n.fullDatabaseId), n.id, n.author, n.body, n.createdAt, n.diffHunk)];
    }
    var newest := if |node.newest| > 0 then Some(node.newest[0]) else None;
    var id, pending := 0, false;
    if |node.comments| > 0 {
      id, pending := parseID(node.comments[0].fullDatabaseId), node.comments[0].state == "PENDING";
    }
    t := Thread(id, node.id, node.path, node.diffSide, Deref(node.line), node.startSide, Deref(node.startLine),
                node.outdated, Deref(node.originalLine), node.resolved, pending, comments,
                |node.comments| >= COMMENTS_PAGE, newest);
  }

  /** The threads of a page after those already built. */
  method BuildPage(out: seq<Thread>, ghost seen: seq<ThreadNode>, nodes: seq<ThreadNode>, parseID: ReadId)
    returns (all: seq<Thread>)
    requires BuildsAll(out, seen, parseID)
    ensures BuildsAll(all, seen + nodes, parseID)
  {
    all := out;
    for n := 0 to |nodes|
      invariant BuildsAll(all, seen + nodes[..n], parseID)
    {
      var t := Build(nodes[n], parseID);
      assert nodes[..n + 1] == nodes[..n] + [nodes[n]];
      assert seen + nodes[..n + 1] == (seen + nodes[..n]) + [nodes[n]];
      all := all + [t];
    }
    assert nodes[..|nodes|] == nodes;
  }

  /** A thread for the node at each place on the walk's pages, or the first failure. */
  method GetThreads(server: Server<seq<ThreadNode>>, parseID: ReadId) returns (r: Result<seq<Thread>>)
    modifies server`asked
    ensures var trip := Walk(server.answers, NextCursor, |old(server.asked)|, "", MAX_PAGES);
            && server.asked == old(server.asked) + trip.asked
            && (trip.failed.Some? ==> r == Err(trip.failed.value))
            && (trip.failed.None? ==> r.Ok? && BuildsAll(r.value, Items(trip.pages), parseID))
  {
    var out: seq<Thread> := [];
    var cursor := "";
    ghost var trip := Walk(server.answers, NextCursor, |server.asked|, "", MAX_PAGES);
    ghost var asked: seq<string>, pages: seq<Page<seq<ThreadNode>>> := [], [];
    WalkStarts(server.answers, NextCursor, |server.asked|, "", MAX_PAGES);
    for k := 0 to MAX_PAGES
      invariant server.asked == old(server.asked) + asked && BuildsAll(out, Items(pages), parseID)
      invariant LeadsTo(trip, server.answers, NextCursor, |server.asked|, cursor, MAX_PAGES - k, pages, asked)
    {
      asked := asked + [cursor];
      var answer := server.Ask(cursor);
      if answer.Err? {
        return Err(answer.why);
      }
      var page := answer.value;
      out := BuildPage(out, Items(pages), page.body, parseID);
      ItemsSnoc(pages, page);
      pages := pages + [page];
      var next := NextCursor(cursor, page);
      if next.None? {
        return Ok(out);
      }
      cursor := next.value;
    }
    return Ok(out);
  }
}
