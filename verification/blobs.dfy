/** Blob requests through the cache: their keys, and what concurrent requests are answered. */
module Blobs {
  import opened Split
  import opened Wrappers
  import opened Recency
  import opened BlobCache
  import opened Lru

  /** One file at one commit of one repository. */
  datatype Query = Query(owner: string, repo: string, commit: string, path: string)

  function BlobKey(q: Query): string
  {
    q.owner + "/" + q.repo + "/" + q.commit + "/" + q.path
  }

  /** No slash but in the path. */
  predicate SlashFree(q: Query)
  {
    '/' !in q.owner && '/' !in q.repo && '/' !in q.commit
  }

  lemma CutAtSlash(a: string, rest: string, a': string, rest': string)
    requires '/' !in a && '/' !in a'
    requires a + "/" + rest == a' + "/" + rest'
    ensures a == a' && rest == rest'
  {
    var whole := a + "/" + rest;
    IndexOfPrefix(a, '/', rest);
    IndexOfPrefix(a', '/', rest');
    assert whole[..|a|] == a && whole[|a| + 1..] == rest;
    assert whole[..|a'|] == a' && whole[|a'| + 1..] == rest';
  }

  lemma BlobKeyInjective(q: Query, q': Query)
    requires SlashFree(q) && SlashFree(q') && BlobKey(q) == BlobKey(q')
    ensures q == q'
  {
    var r, r' := q.repo + "/" + (q.commit + "/" + q.path), q'.repo + "/" + (q'.commit + "/" + q'.path);
    assert BlobKey(q) == q.owner + "/" + r && BlobKey(q') == q'.owner + "/" + r';
    CutAtSlash(q.owner, r, q'.owner, r');
    CutAtSlash(q.repo, q.commit + "/" + q.path, q'.repo, q'.commit + "/" + q'.path);
    CutAtSlash(q.commit, q.path, q'.commit, q'.path);
  }

  /** `s` up to its first slash, and what follows, with the slashes left. */
  lemma FirstSlash(s: string) returns (front: string, rest: string)
    requires multiset(s)['/'] > 0
    ensures '/' !in front && s == front + "/" + rest
    ensures multiset(rest)['/'] == multiset(s)['/'] - 1
  {
    assert '/' in s;
    var k := IndexOf(s, '/');
    front, rest := s[..k], s[k + 1..];
    assert s == front + "/" + rest;
    assert multiset(front)['/'] == 0;
  }

  /** Every key is the key of a query with no slash but in its path. */
  lemma SlashFreeTwin(q: Query) returns (twin: Query)
    ensures SlashFree(twin) && BlobKey(twin) == BlobKey(q)
  {
    var key := BlobKey(q);
    assert multiset(key)['/'] >= 3;
    var owner, afterOwner := FirstSlash(key);
    var repo, afterRepo := FirstSlash(afterOwner);
    var commit, path := FirstSlash(afterRepo);
    twin := Query(owner, repo, commit, path);
    KeyParts(twin, key, afterOwner, afterRepo);
  }

  lemma KeyParts(q: Query, key: string, afterOwner: string, afterRepo: string)
    requires key == q.owner + "/" + afterOwner && afterOwner == q.repo + "/" + afterRepo
    requires afterRepo == q.commit + "/" + q.path
    ensures BlobKey(q) == key
  {
  }

  /** A query has its key to itself, among those with no slash but in their paths, if and only if
      it is one of them. */
  lemma KeyTellsExactly(q: Query)
    ensures SlashFree(q) <==> forall q': Query :: SlashFree(q') && BlobKey(q') == BlobKey(q) ==> q' == q
  {
    if SlashFree(q) {
      forall q': Query | SlashFree(q') && BlobKey(q') == BlobKey(q)
        ensures q' == q
      {
        BlobKeyInjective(q', q);
      }
    } else {
      var twin := SlashFreeTwin(q);
    }
  }

  // ----- one request -----

  datatype Fetch = NotFound | Broke(why: string) | Body(content: string)

  function Fetched(f: Fetch): Result<FileBlob>
  {
    match f
    case NotFound => Ok(FileBlob("", true))
    case Broke(why) => Err(why)
    case Body(content) => Ok(FileBlob(content, false))
  }

  class Client {
    const tokenErr: Option<string>
    const cache: Cache

    constructor (tokenErr: Option<string>, cache: Cache)
      ensures this.tokenErr == tokenErr && this.cache == cache
    {
      this.tokenErr, this.cache := tokenErr, cache;
    }

    /** A path's bytes at a commit, from the cache or else from `fetch`; a path missing
        there is a result too, and cached, while a failed fetch leaves the cache alone. */
    method RawBlob(q: Query, fetch: Fetch) returns (r: Result<FileBlob>)
      requires cache.Valid()
      modifies cache, cache.lru, cache.lru.root, cache.lru.nodes
      ensures cache.Valid()
      ensures var es, key := old(cache.Entries()), BlobKey(q);
              if tokenErr.Some? then r == Err(tokenErr.value) && cache.Entries() == es
              else if Lookup(es, key).Some? then
                r == Ok(Lookup(es, key).value) && cache.Entries() == Touch(es, Find(es, key))
              else if fetch.Broke? then r == Err(fetch.why) && cache.Entries() == es
              else r == Fetched(fetch) && cache.Entries() == Put(es, key, r.value, cache.limit)
      ensures tokenErr.None? && Lookup(old(cache.Entries()), BlobKey(q)).None? ==>
                && (fetch.NotFound? ==> r == Ok(FileBlob("", true)))
                && (fetch.Body? ==> r == Ok(FileBlob(fetch.content, false)))
                && (fetch.Broke? ==> r == Err(fetch.why))
      ensures r.Ok? ==> cache.Entries() == Access(old(cache.Entries()), BlobKey(q), r.value, cache.limit)
    {
      if tokenErr.Some? {
        return Err(tokenErr.value);
      }
      var key := BlobKey(q);
      var found := cache.Blob(key);
      if found.Some? {
        return Ok(found.value);
      }
      match fetch {
        case NotFound =>
          var blob := FileBlob("", true);
          cache.PutBlob(key, blob);
          r := Ok(blob);
        case Broke(why) =>
          r := Err(why);
        case Body(content) =>
          var blob := FileBlob(content, false);
          cache.PutBlob(key, blob);
          r := Ok(blob);
      }
    }
  }

  // ----- requests that overlap -----

  /** Where a request stands between its uses of the cache's mutex. */
  datatype Phase = Looking | Fetching | Storing(blob: FileBlob) | Done(result: Result<FileBlob>)

  datatype Pending = Pending(q: Query, phase: Phase)

  datatype State = State(requests: seq<Pending>, entries: seq<Entry>)

  /** A request starts, looks in the cache, fetches (or fails), or stores; or the cache
      is flushed. Each touches the cache at most once, under its mutex. */
  datatype Move = Start(q: Query) | Look(i: nat) | FetchOne(i: nat, fails: bool) | Store(i: nat) | FlushAll

  predicate Can(st: State, move: Move)
  {
    match move
    case Start(_) => true
    case Look(i) => i < |st.requests| && st.requests[i].phase.Looking?
    case FetchOne(i, _) => i < |st.requests| && st.requests[i].phase.Fetching?
    case Store(i) => i < |st.requests| && st.requests[i].phase.Storing?
    case FlushAll => true
  }

  function At(st: State, i: nat, phase: Phase): seq<Pending>
    requires i < |st.requests|
  {
    st.requests[i := st.requests[i].(phase := phase)]
  }

  function After(st: State, move: Move, store: Query -> FileBlob, limit: int): State
    requires Can(st, move)
  {
    match move
    case Start(q) => st.(requests := st.requests + [Pending(q, Looking)])
    case Look(i) =>
      var key := BlobKey(st.requests[i].q);
      var found := Lookup(st.entries, key);
      if found.Some? then State(At(st, i, Done(Ok(found.value))), Touch(st.entries, Find(st.entries, key)))
      else st.(requests := At(st, i, Fetching))
    case FetchOne(i, fails) =>
      st.(requests := At(st, i, if fails then Done(Err("fetch")) else Storing(store(st.requests[i].q))))
    case Store(i) =>
      var blob := st.requests[i].phase.blob;
      State(At(st, i, Done(Ok(blob))), Put(st.entries, BlobKey(st.requests[i].q), blob, limit))
    case FlushAll => st.(entries := [])
  }

  ghost predicate Reaches(st: State, moves: seq<Move>, st': State, store: Query -> FileBlob, limit: int)
    decreases |moves|
  {
    if moves == [] then st == st'
    else Can(st, moves[0]) && Reaches(After(st, moves[0], store, limit), moves[1..], st', store, limit)
  }

  /** The blob is what the store holds for some query asked for, one that has the key. */
  ghost predicate HeldFor(blob: FileBlob, key: string, requests: seq<Pending>, store: Query -> FileBlob)
  {
    exists i :: 0 <= i < |requests| && BlobKey(requests[i].q) == key && blob == store(requests[i].q)
  }

  ghost predicate TrueRequest(r: Pending, requests: seq<Pending>, store: Query -> FileBlob)
  {
    && (r.phase.Storing? ==> r.phase.blob == store(r.q))
    && (r.phase.Done? && r.phase.result.Ok? ==> HeldFor(r.phase.result.value, BlobKey(r.q), requests, store))
  }

  ghost predicate Truthful(st: State, store: Query -> FileBlob)
  {
    && (forall e :: e in st.entries ==> HeldFor(e.blob, e.key, st.requests, store))
    && (forall r :: r in st.requests ==> TrueRequest(r, st.requests, store))
  }

  /** Requests are only added, and keep their queries. */
  predicate Grown(requests: seq<Pending>, requests': seq<Pending>)
  {
    |requests| <= |requests'| && forall i | 0 <= i < |requests| :: requests'[i].q == requests[i].q
  }

  lemma HeldStays(blob: FileBlob, key: string, requests: seq<Pending>, requests': seq<Pending>,
                  store: Query -> FileBlob)
    requires HeldFor(blob, key, requests, store) && Grown(requests, requests')
    ensures HeldFor(blob, key, requests', store)
  {
    var i :| 0 <= i < |requests| && BlobKey(requests[i].q) == key && blob == store(requests[i].q);
    assert BlobKey(requests'[i].q) == key && blob == store(requests'[i].q);
  }

  /** Truth survives a move that only changes request `k`, or adds it, to a true one. */
  lemma TruthStays(st: State, requests': seq<Pending>, entries': seq<Entry>, k: nat, store: Query -> FileBlob)
    requires Truthful(st, store) && Grown(st.requests, requests') && k < |requests'|
    requires forall i | 0 <= i < |requests'| && i != k :: i < |st.requests| && requests'[i] == st.requests[i]
    requires TrueRequest(requests'[k], requests', store)
    requires forall e :: e in entries' ==> e in st.entries || HeldFor(e.blob, e.key, requests', store)
    ensures Truthful(State(requests', entries'), store)
  {
    forall e | e in entries'
      ensures HeldFor(e.blob, e.key, requests', store)
    {
      if e in st.entries {
        HeldStays(e.blob, e.key, st.requests, requests', store);
      }
    }
    forall i | 0 <= i < |requests'|
      ensures TrueRequest(requests'[i], requests', store)
    {
      if i != k {
        var r := requests'[i];
        assert i < |st.requests| && st.requests[i] == r;
        assert r in st.requests;
        if r.phase.Done? && r.phase.result.Ok? {
          HeldStays(r.phase.result.value, BlobKey(r.q), st.requests, requests', store);
        }
      }
    }
  }

  lemma {:induction false} TrimMembers(es: seq<Entry>, limit: int)
    ensures forall e :: e in Trim(es, limit) ==> e in es
  {
    if es != [] && Total(es) > limit {
      TrimMembers(es[..|es| - 1], limit);
    }
  }

  lemma PutMembers(es: seq<Entry>, key: string, blob: FileBlob, limit: int)
    ensures forall e :: e in Put(es, key, blob, limit) ==> e == NewEntry(key, blob) || e in es
  {
    TrimMembers([NewEntry(key, blob)] + Without(es, Find(es, key)), limit);
  }

  lemma HitIsHeld(st: State, i: nat, store: Query -> FileBlob)
    requires Truthful(st, store) && i < |st.requests| && Lookup(st.entries, BlobKey(st.requests[i].q)).Some?
    ensures HeldFor(Lookup(st.entries, BlobKey(st.requests[i].q)).value, BlobKey(st.requests[i].q), st.requests, store)
  {
    var k := Find(st.entries, BlobKey(st.requests[i].q));
    assert st.entries[k] in st.entries;
  }

  lemma OwnIsHeld(requests: seq<Pending>, i: nat, store: Query -> FileBlob)
    requires i < |requests|
    ensures HeldFor(store(requests[i].q), BlobKey(requests[i].q), requests, store)
  {
  }

  lemma MovesStayTruthful(st: State, move: Move, store: Query -> FileBlob, limit: int)
    requires Truthful(st, store) && Can(st, move)
    ensures Truthful(After(st, move, store, limit), store)
  {
    var st' := After(st, move, store, limit);
    match move {
      case Start(_) =>
        TruthStays(st, st'.requests, st'.entries, |st.requests|, store);
      case Look(i) =>
        var key := BlobKey(st.requests[i].q);
        TouchMembers(st.entries, Find(st.entries, key));
        if Lookup(st.entries, key).Some? {
          HitIsHeld(st, i, store);
          HeldStays(Lookup(st.entries, key).value, key, st.requests, st'.requests, store);
        }
        TruthStays(st, st'.requests, st'.entries, i, store);
      case FetchOne(i, _) =>
        TruthStays(st, st'.requests, st'.entries, i, store);
      case Store(i) =>
        assert st.requests[i] in st.requests;
        OwnIsHeld(st'.requests, i, store);
        PutMembers(st.entries, BlobKey(st.requests[i].q), st.requests[i].phase.blob, limit);
        TruthStays(st, st'.requests, st'.entries, i, store);
      case FlushAll =>
    }
  }

  lemma {:induction false} RunsStayTruthful(st: State, moves: seq<Move>, st': State, store: Query -> FileBlob,
                                            limit: int)
    requires Truthful(st, store) && Reaches(st, moves, st', store, limit)
    ensures Truthful(st', store)
    decreases |moves|
  {
    if moves != [] {
      MovesStayTruthful(st, moves[0], store, limit);
      RunsStayTruthful(After(st, moves[0], store, limit), moves[1..], st', store, limit);
    }
  }

  /** No other query asked for has the key of request `i`'s. */
  predicate KeyIsOwn(requests: seq<Pending>, i: nat)
    requires i < |requests|
  {
    forall j | 0 <= j < |requests| ::
        BlobKey(requests[j].q) == BlobKey(requests[i].q) ==> requests[j].q == requests[i].q
  }

  lemma EntryFits(es: seq<Entry>, limit: int, k: nat)
    requires WellKept(es, limit) && k < |es|
    ensures |es[k].key| <= limit
  {
    TotalSplit(es, k);
    TotalNat(es[..k] + es[k + 1..]);
  }

  /** The contents are well kept, and an answer is the request's own blob or one whose key alone
      is within the limit. */
  ghost predicate Served(st: State, store: Query -> FileBlob, limit: int)
  {
    && WellKept(st.entries, limit)
    && forall r | r in st.requests && r.phase.Done? && r.phase.result.Ok? ::
         r.phase.result.value == store(r.q) || |BlobKey(r.q)| <= limit
  }

  lemma MovesStayServed(st: State, move: Move, store: Query -> FileBlob, limit: int)
    requires Truthful(st, store) && Served(st, store, limit) && Can(st, move)
    ensures Served(After(st, move, store, limit), store, limit)
  {
    match move {
      case Start(_) =>
      case Look(i) =>
        var k := Find(st.entries, BlobKey(st.requests[i].q));
        if Lookup(st.entries, BlobKey(st.requests[i].q)).Some? {
          EntryFits(st.entries, limit, k);
          TouchKeeps(st.entries, k, limit);
        }
      case FetchOne(i, _) =>
      case Store(i) =>
        assert st.requests[i] in st.requests;
        PutKeeps(st.entries, BlobKey(st.requests[i].q), st.requests[i].phase.blob, limit);
      case FlushAll =>
    }
  }

  lemma {:induction false} RunsStayServed(st: State, moves: seq<Move>, st': State, store: Query -> FileBlob, limit: int)
    requires Truthful(st, store) && Served(st, store, limit) && Reaches(st, moves, st', store, limit)
    ensures Served(st', store, limit)
    decreases |moves|
  {
    if moves != [] {
      MovesStayTruthful(st, moves[0], store, limit);
      MovesStayServed(st, moves[0], store, limit);
      RunsStayServed(After(st, moves[0], store, limit), moves[1..], st', store, limit);
    }
  }

  /** Under any interleaving of requests and flushes, a request that succeeds gets what the store
      holds for some query asked for that has its key: its own, unless another query with that key
      was asked for and the key is within the limit. */
  lemma Transparent(moves: seq<Move>, st: State, store: Query -> FileBlob, limit: int, i: nat)
    requires Reaches(State([], []), moves, st, store, limit)
    requires i < |st.requests| && st.requests[i].phase.Done? && st.requests[i].phase.result.Ok?
    ensures HeldFor(st.requests[i].phase.result.value, BlobKey(st.requests[i].q), st.requests, store)
    ensures KeyIsOwn(st.requests, i) || |BlobKey(st.requests[i].q)| > limit ==>
              st.requests[i].phase.result.value == store(st.requests[i].q)
  {
    RunsStayTruthful(State([], []), moves, st, store, limit);
    RunsStayServed(State([], []), moves, st, store, limit);
    assert st.requests[i] in st.requests;
  }

  // ----- exactly when the cache is transparent -----

  ghost predicate AllFrom(requests: seq<Pending>, queries: iset<Query>)
  {
    forall i | 0 <= i < |requests| :: requests[i].q in queries
  }

  /** Whatever the store holds and however requests for these queries overlap, each that succeeds
      gets its own blob. */
  ghost predicate TransparentOn(queries: iset<Query>, limit: int)
  {
    forall moves, st, store, i: nat ::
      Reaches(State([], []), moves, st, store, limit) && AllFrom(st.requests, queries)
      && i < |st.requests| && st.requests[i].phase.Done? && st.requests[i].phase.result.Ok? ==>
        st.requests[i].phase.result.value == store(st.requests[i].q)
  }

  /** No two of the queries share a key that the limit has room for. */
  ghost predicate TellsApart(queries: iset<Query>, limit: int)
  {
    forall q, q' | q in queries && q' in queries && BlobKey(q) == BlobKey(q') && |BlobKey(q)| <= limit :: q == q'
  }

  /** Two queries with one key, within the limit: the second is answered with the first's blob. */
  lemma CollisionShows(q: Query, q': Query, limit: int) returns (moves: seq<Move>, st: State, store: Query -> FileBlob)
    requires q != q' && BlobKey(q) == BlobKey(q') && |BlobKey(q)| <= limit
    ensures Reaches(State([], []), moves, st, store, limit) && |st.requests| == 2
    ensures st.requests[0].q == q && st.requests[1].q == q'
    ensures st.requests[1].phase == Done(Ok(store(q))) && store(q) != store(q')
  {
    var blob := FileBlob("", true);
    store := (x: Query) => if x == q then FileBlob("", true) else FileBlob("x", false);
    var e, none: seq<Entry> := NewEntry(BlobKey(q), blob), [];
    var s0 := State([], []);
    var s1 := State([Pending(q, Looking)], []);
    var s2 := State([Pending(q, Fetching)], []);
    var s3 := State([Pending(q, Storing(blob))], []);
    var s4 := State([Pending(q, Done(Ok(blob)))], [e]);
    var s5 := State([Pending(q, Done(Ok(blob))), Pending(q', Looking)], [e]);
    st := State([Pending(q, Done(Ok(blob))), Pending(q', Done(Ok(blob)))], [e]);
    assert [e][..0] == [];
    assert Find(none, BlobKey(q)) == 0 && Without(none, 0) == none;
    assert Total([e]) == e.size;
    assert [e] + none == [e];
    assert Put(none, BlobKey(q), blob, limit) == [e];
    assert Touch([e], 0) == [e];
    MoveTo(st, [], st, store, limit);
    moves := MoveOn(s5, Look(1), st, [], st, store, limit);
    moves := MoveOn(s4, Start(q'), s5, moves, st, store, limit);
    moves := MoveOn(s3, Store(0), s4, moves, st, store, limit);
    moves := MoveOn(s2, FetchOne(0, false), s3, moves, st, store, limit);
    moves := MoveOn(s1, Look(0), s2, moves, st, store, limit);
    moves := MoveOn(s0, Start(q), s1, moves, st, store, limit);
  }

  lemma MoveTo(st: State, moves: seq<Move>, st': State, store: Query -> FileBlob, limit: int)
    requires moves == [] && st == st'
    ensures Reaches(st, moves, st', store, limit)
  {
  }

  lemma MoveOn(st: State, move: Move, next: State, moves: seq<Move>, st': State, store: Query -> FileBlob, limit: int)
    returns (all: seq<Move>)
    requires Can(st, move) && After(st, move, store, limit) == next && Reaches(next, moves, st', store, limit)
    ensures Reaches(st, all, st', store, limit)
  {
    all := [move] + moves;
    assert all[1..] == moves;
  }

  /** At any limit, the cache is transparent on a set of queries if and only if no two of them
      share a key within it. */
  lemma TransparentExactly(queries: iset<Query>, limit: int)
    ensures TransparentOn(queries, limit) <==> TellsApart(queries, limit)
  {
    if TellsApart(queries, limit) {
      forall moves, st, store, i: nat |
          Reaches(State([], []), moves, st, store, limit) && AllFrom(st.requests, queries)
          && i < |st.requests| && st.requests[i].phase.Done? && st.requests[i].phase.result.Ok?
        ensures st.requests[i].phase.result.value == store(st.requests[i].q)
      {
        Transparent(moves, st, store, limit, i);
      }
    } else {
      var q, q' :| q in queries && q' in queries && BlobKey(q) == BlobKey(q') && |BlobKey(q)| <= limit && q != q';
      var moves, st, store := CollisionShows(q, q', limit);
      assert AllFrom(st.requests, queries);
    }
  }

  /** So it is, at every limit, on the queries with no slash but in their paths. */
  lemma TransparentWithoutSlashes(limit: int)
    ensures TransparentOn((iset q: Query | SlashFree(q)), limit)
  {
    var queries := iset q: Query | SlashFree(q);
    forall q, q' | q in queries && q' in queries && BlobKey(q) == BlobKey(q')
      ensures q == q'
    {
      BlobKeyInjective(q, q');
    }
    TransparentExactly(queries, limit);
  }

  datatype Versions = Versions(base: FileBlob, head: FileBlob)

  /** GetFileVersions' answer from its two requests: the base's error comes first. */
  function VersionsOf(base: Result<FileBlob>, head: Result<FileBlob>): Result<Versions>
  {
    if base.Err? then Err(base.why)
    else if head.Err? then Err(head.why)
    else Ok(Versions(base.value, head.value))
  }

  /** The base path falls back to the head's; the two blobs of an answer are the two the
      store holds, however the requests overlap with each other and with anyone else, unless
      someone asks for another query with the key of one of them. */
  lemma VersionsAreTrue(moves: seq<Move>, st: State, store: Query -> FileBlob, limit: int, i: nat, j: nat,
                        owner: string, repo: string, path: string, basePath: string, base: string, head: string)
    requires Reaches(State([], []), moves, st, store, limit)
    requires i < |st.requests| && st.requests[i].phase.Done?
    requires j < |st.requests| && st.requests[j].phase.Done?
    requires st.requests[i].q == Query(owner, repo, base, if basePath == "" then path else basePath)
    requires st.requests[j].q == Query(owner, repo, head, path)
    requires KeyIsOwn(st.requests, i) && KeyIsOwn(st.requests, j)
    ensures var r := VersionsOf(st.requests[i].phase.result, st.requests[j].phase.result);
            && (st.requests[i].phase.result.Err? ==> r == Err(st.requests[i].phase.result.why))
            && (st.requests[i].phase.result.Ok? && st.requests[j].phase.result.Err? ==>
                  r == Err(st.requests[j].phase.result.why))
            && (st.requests[i].phase.result.Ok? && st.requests[j].phase.result.Ok? ==>
                  r == Ok(Versions(store(st.requests[i].q), store(st.requests[j].q))))
  {
    if st.requests[i].phase.result.Ok? && st.requests[j].phase.result.Ok? {
      Transparent(moves, st, store, limit, i);
      Transparent(moves, st, store, limit, j);
    }
  }
}
