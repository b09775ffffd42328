/** What the recency order gives over whole runs of cache accesses: raising the limit
    never loses a hit. */
module Lru {
  import opened Recency

  /** A blob request answered, from the cache or else from a fetch, or a flush. */
  datatype Op = Use(key: string) | Flush

  /** The entries after a request for `key`: touched on a hit, put on a miss. */
  function Access(es: seq<Entry>, key: string, blob: FileBlob, limit: int): seq<Entry>
  {
    var k := Find(es, key);
    if k < |es| then Touch(es, k) else Put(es, key, blob, limit)
  }

  /** The cache's entries after `ops`, latest last, against a store that never changes. */
  function Contents(ops: seq<Op>, store: string -> FileBlob, limit: int): seq<Entry>
  {
    if ops == [] then []
    else
      var es := Contents(ops[..|ops| - 1], store, limit);
      match ops[|ops| - 1]
      case Use(key) => Access(es, key, store(key), limit)
      case Flush => []
  }

  /** Every key used since the last flush, most recent first, whatever its size. */
  function Order(ops: seq<Op>, store: string -> FileBlob): seq<Entry>
  {
    if ops == [] then []
    else
      var order := Order(ops[..|ops| - 1], store);
      match ops[|ops| - 1]
      case Use(key) => [NewEntry(key, store(key))] + Without(order, Find(order, key))
      case Flush => []
  }

  ghost predicate Stored(es: seq<Entry>, store: string -> FileBlob)
  {
    DistinctKeys(es) && forall i :: 0 <= i < |es| ==> es[i] == NewEntry(es[i].key, store(es[i].key))
  }

  lemma StoredUsed(order: seq<Entry>, key: string, store: string -> FileBlob)
    requires Stored(order, store)
    ensures Stored([NewEntry(key, store(key))] + Without(order, Find(order, key)), store)
  {
    UpdatedOrder(order, key, store(key));
  }

  lemma {:induction false} OrderStored(ops: seq<Op>, store: string -> FileBlob)
    ensures Stored(Order(ops, store), store)
  {
    if ops != [] {
      OrderStored(ops[..|ops| - 1], store);
      if ops[|ops| - 1].Use? {
        StoredUsed(Order(ops[..|ops| - 1], store), ops[|ops| - 1].key, store);
      }
    }
  }

  /** When `key` was last used since the last flush, counting from one; zero if it was not. */
  function LastUse(ops: seq<Op>, key: string): nat
  {
    if ops == [] then 0
    else match ops[|ops| - 1]
      case Use(k) => if k == key then |ops| else LastUse(ops[..|ops| - 1], key)
      case Flush => 0
  }

  lemma {:induction false} LastUseWithin(ops: seq<Op>, key: string)
    ensures LastUse(ops, key) <= |ops|
  {
    if ops != [] {
      LastUseWithin(ops[..|ops| - 1], key);
    }
  }

  /** The order is by last use: every key used is there, the later used before the earlier. */
  lemma {:induction false} OrderByLastUse(ops: seq<Op>, store: string -> FileBlob)
    ensures forall key :: LastUse(ops, key) > 0 <==> Find(Order(ops, store), key) < |Order(ops, store)|
    ensures forall i, j | 0 <= i < j < |Order(ops, store)| ::
              LastUse(ops, Order(ops, store)[i].key) > LastUse(ops, Order(ops, store)[j].key)
  {
    if ops != [] && ops[|ops| - 1].Use? {
      var before, key := ops[..|ops| - 1], ops[|ops| - 1].key;
      OrderByLastUse(before, store);
      OrderStored(before, store);
      UsedFirst(ops, before, Order(before, store), Order(ops, store), key, store(key));
    }
  }

  /** Where entry `i > 0` stood before the entry at `at` was used. */
  function Before(at: nat, i: nat): nat
    requires i > 0
  {
    if i <= at then i - 1 else i
  }

  /** And where an entry at `q` stands after it. */
  function Behind(at: nat, q: nat): nat
  {
    if q < at then q + 1 else q
  }

  lemma ShiftAt<T>(s: seq<T>, e: T, at: nat, now: seq<T>)
    requires at <= |s| && now == [e] + Without(s, at)
    ensures now != [] && now[0] == e
    ensures forall i | 0 < i < |now| :: Before(at, i) < |s| && Before(at, i) != at && now[i] == s[Before(at, i)]
    ensures forall q | 0 <= q < |s| && q != at :: 0 < Behind(at, q) < |now| && now[Behind(at, q)] == s[q]
  {
  }

  lemma UsedAt(was: seq<Entry>, now: seq<Entry>, e: Entry)
    requires DistinctKeys(was) && now == [e] + Without(was, Find(was, e.key))
    ensures now != [] && now[0] == e
    ensures forall i | 0 < i < |now| ::
              Before(Find(was, e.key), i) < |was| && now[i] == was[Before(Find(was, e.key), i)]
    ensures forall i | 0 < i < |now| :: now[i].key != e.key
    ensures forall x :: x in was ==> x.key == e.key || x in now
  {
    var at := Find(was, e.key);
    ShiftAt(was, e, at, now);
    forall x | x in was
      ensures x.key == e.key || x in now
    {
      var q :| 0 <= q < |was| && was[q] == x;
      if q != at {
        assert now[Behind(at, q)] in now;
      }
    }
    forall i | 0 < i < |now|
      ensures now[i].key != e.key
    {
      if was[Before(at, i)].key == e.key {
        FindIs(was, e.key, Before(at, i));
      }
    }
  }

  lemma UsedFirst(ops: seq<Op>, before: seq<Op>, was: seq<Entry>, now: seq<Entry>, key: string, blob: FileBlob)
    requires ops != [] && ops[|ops| - 1] == Use(key) && before == ops[..|ops| - 1]
    requires DistinctKeys(was) && now == [NewEntry(key, blob)] + Without(was, Find(was, key))
    requires forall k :: LastUse(before, k) > 0 <==> Find(was, k) < |was|
    requires forall i, j | 0 <= i < j < |was| :: LastUse(before, was[i].key) > LastUse(before, was[j].key)
    ensures forall k :: LastUse(ops, k) > 0 <==> Find(now, k) < |now|
    ensures forall i, j | 0 <= i < j < |now| :: LastUse(ops, now[i].key) > LastUse(ops, now[j].key)
  {
    UsedAt(was, now, NewEntry(key, blob));
    assert forall k | k != key :: LastUse(ops, k) == LastUse(before, k);
    UsedOrder(ops, before, was, now, key);
    UsedKeys(was, now, key);
  }

  lemma UsedOrder(ops: seq<Op>, before: seq<Op>, was: seq<Entry>, now: seq<Entry>, key: string)
    requires ops != [] && LastUse(ops, key) == |before| + 1 && now != [] && now[0].key == key
    requires forall k | k != key :: LastUse(ops, k) == LastUse(before, k)
    requires forall i | 0 < i < |now| :: now[i].key != key
    requires forall i | 0 < i < |now| :: Before(Find(was, key), i) < |was| && now[i] == was[Before(Find(was, key), i)]
    requires forall i, j | 0 <= i < j < |was| :: LastUse(before, was[i].key) > LastUse(before, was[j].key)
    ensures forall i, j | 0 <= i < j < |now| :: LastUse(ops, now[i].key) > LastUse(ops, now[j].key)
  {
    forall i, j | 0 <= i < j < |now|
      ensures LastUse(ops, now[i].key) > LastUse(ops, now[j].key)
    {
      LastUseWithin(before, now[j].key);
      if i > 0 {
        assert Before(Find(was, key), i) < Before(Find(was, key), j);
      }
    }
  }

  lemma UsedKeys(was: seq<Entry>, now: seq<Entry>, key: string)
    requires now != [] && now[0].key == key
    requires forall i | 0 < i < |now| :: Before(Find(was, key), i) < |was| && now[i] == was[Before(Find(was, key), i)]
    requires forall x :: x in was ==> x.key == key || x in now
    ensures forall k | k != key :: Find(now, k) < |now| <==> Find(was, k) < |was|
    ensures Find(now, key) < |now|
  {
    forall k | k != key
      ensures Find(now, k) < |now| <==> Find(was, k) < |was|
    {
      if Find(was, k) < |was| {
        assert was[Find(was, k)] in now;
      }
      if Find(now, k) < |now| {
        assert was[Before(Find(was, key), Find(now, k))].key == k;
      }
    }
    assert now[0].key == key;
  }

  lemma FindIs(es: seq<Entry>, key: string, i: nat)
    requires DistinctKeys(es) && i < |es| && es[i].key == key
    ensures Find(es, key) == i
  {
  }

  lemma FindInPrefix(order: seq<Entry>, m: nat, key: string)
    requires DistinctKeys(order) && m <= |order|
    ensures Find(order[..m], key) == if Find(order, key) < m then Find(order, key) else m
  {
    var es, k := order[..m], Find(order, key);
    if k < m {
      assert es[k].key == key;
      FindIs(es, key, k);
    } else if Find(es, key) < m {
      FindIs(order, key, Find(es, key));
    }
  }

  lemma TouchPrefix(order: seq<Entry>, i: nat, n: nat)
    requires i < n <= |order|
    ensures Touch(order, i)[..n] == Touch(order[..n], i)
  {
  }

  lemma HitFits(order: seq<Entry>, es: seq<Entry>, i: nat, limit: int)
    requires LongestFit(es, order, limit) && i < |es|
    ensures LongestFit(Touch(es, i), Touch(order, i), limit)
  {
    var m := |es|;
    assert es == order[..m];
    forall n | m <= n <= |order|
      ensures Total(Touch(order, i)[..n]) == Total(order[..n])
    {
      TouchPrefix(order, i, n);
      TotalWithout(order[..n], i);
    }
    TouchPrefix(order, i, m);
  }

  /** A hit keeps the contents the longest prefix that fits. */
  lemma HitStep(order: seq<Entry>, key: string, limit: int, store: string -> FileBlob)
    requires Stored(order, store)
    requires Find(Trim(order, limit), key) < |Trim(order, limit)|
    ensures Access(Trim(order, limit), key, store(key), limit)
            == Trim([NewEntry(key, store(key))] + Without(order, Find(order, key)), limit)
  {
    var es, i := Trim(order, limit), Find(order, key);
    TrimIsLongestFit(order, limit);
    assert es == order[..|es|];
    FindInPrefix(order, |es|, key);
    assert Touch(order, i) == [NewEntry(key, store(key))] + Without(order, i);
    TouchCharged(order, i);
    HitFits(order, es, i, limit);
    TrimIsLongestFit(Touch(order, i), limit);
    LongestFitUnique(Touch(es, i), Trim(Touch(order, i), limit), Touch(order, i), limit);
  }

  /** A prefix of the updated order that does not reach the key's old place outweighs the
      old prefix one shorter. */
  lemma PushedShort(order: seq<Entry>, e: Entry, i: nat, n: nat)
    requires e.size >= 0 && 1 <= n <= |order| + 1 && n <= i + 1
    ensures n <= |[e] + Without(order, i)|
    ensures Total(([e] + Without(order, i))[..n]) >= Total(order[..n - 1])
  {
    var front := order[..n - 1];
    var pushed := ([e] + Without(order, i))[..n];
    assert pushed == [e] + front;
    TotalConcat([e], front);
    assert [e][..0] == [];
  }

  /** One that does reach it weighs what the old prefix of the same length did. */
  lemma PushedLong(order: seq<Entry>, i: nat, n: nat)
    requires i < n <= |order|
    ensures Total(([order[i]] + Without(order, i))[..n]) == Total(order[..n])
  {
    TouchPrefix(order, i, n);
    TotalWithout(order[..n], i);
    assert [order[i]] + Without(order, i) == Touch(order, i);
  }

  lemma MissFits(order: seq<Entry>, es: seq<Entry>, e: Entry, i: nat, es': seq<Entry>, limit: int)
    requires LongestFit(es, order, limit) && |es| <= i <= |order| && e.size >= 0
    requires i < |order| ==> order[i] == e
    requires LongestFit(es', [e] + es, limit)
    ensures LongestFit(es', [e] + Without(order, i), limit)
  {
    var order', m := [e] + Without(order, i), |es|;
    assert es == order[..m];
    assert order'[..m + 1] == [e] + es;
    forall n | |es'| < n <= |order'|
      ensures Total(order'[..n]) > limit
    {
      if n <= m + 1 {
        assert order'[..n] == ([e] + es)[..n];
      } else if n <= i + 1 {
        PushedShort(order, e, i, n);
      } else {
        PushedLong(order, i, n);
      }
    }
  }

  /** A miss keeps the contents the longest prefix that fits. */
  lemma MissStep(order: seq<Entry>, key: string, limit: int, store: string -> FileBlob)
    requires Stored(order, store)
    requires Find(Trim(order, limit), key) == |Trim(order, limit)|
    ensures Access(Trim(order, limit), key, store(key), limit)
            == Trim([NewEntry(key, store(key))] + Without(order, Find(order, key)), limit)
  {
    TrimIsLongestFit(order, limit);
    var es, e, i := Trim(order, limit), NewEntry(key, store(key)), Find(order, key);
    assert es == order[..|es|];
    FindInPrefix(order, |es|, key);
    UpdatedOrder(order, key, store(key));
    TrimIsLongestFit([e] + es, limit);
    var order' := [e] + Without(order, i);
    MissFits(order, es, e, i, Trim([e] + es, limit), limit);
    TrimIsLongestFit(order', limit);
    LongestFitUnique(Trim([e] + es, limit), Trim(order', limit), order', limit);
  }

  /** The contents are always the longest prefix of the full recency order that fits. */
  lemma {:induction false} ContentsFitOrder(ops: seq<Op>, store: string -> FileBlob, limit: int)
    ensures Contents(ops, store, limit) == Trim(Order(ops, store), limit)
    ensures LongestFit(Contents(ops, store, limit), Order(ops, store), limit)
  {
    OrderStored(ops, store);
    TrimIsLongestFit(Order(ops, store), limit);
    if ops != [] {
      var before, op := ops[..|ops| - 1], ops[|ops| - 1];
      ContentsFitOrder(before, store, limit);
      OrderStored(before, store);
      var order := Order(before, store);
      if op.Use? {
        if Find(Trim(order, limit), op.key) < |Trim(order, limit)| {
          HitStep(order, op.key, limit, store);
        } else {
          MissStep(order, op.key, limit, store);
        }
      }
    }
  }

  lemma FitsNested(a: seq<Entry>, b: seq<Entry>, order: seq<Entry>, small: int, large: int)
    requires small <= large && LongestFit(a, order, small) && LongestFit(b, order, large)
    ensures a <= b
  {
    assert a == order[..|a|] && b == order[..|b|];
  }

  /** The inclusion property: under a smaller limit the cache holds the front part of
      what it holds under a larger one, after any run of requests and flushes. */
  lemma Inclusion(ops: seq<Op>, store: string -> FileBlob, small: int, large: int)
    requires small <= large
    ensures Contents(ops, store, small) <= Contents(ops, store, large)
  {
    ContentsFitOrder(ops, store, small);
    ContentsFitOrder(ops, store, large);
    FitsNested(Contents(ops, store, small), Contents(ops, store, large), Order(ops, store), small, large);
  }

  lemma FoundStays(a: seq<Entry>, b: seq<Entry>, key: string)
    requires a <= b && Find(a, key) < |a|
    ensures Find(b, key) < |b|
  {
    assert b[Find(a, key)].key == key;
  }

  /** Operation `i` is a request found in the cache. */
  predicate IsHit(ops: seq<Op>, store: string -> FileBlob, limit: int, i: nat)
    requires i < |ops|
  {
    var es := Contents(ops[..i], store, limit);
    ops[i].Use? && Find(es, ops[i].key) < |es|
  }

  /** How many of the first `n` operations are. */
  function Hits(ops: seq<Op>, store: string -> FileBlob, limit: int, n: nat): nat
    requires n <= |ops|
  {
    if n == 0 then 0 else Hits(ops, store, limit, n - 1) + if IsHit(ops, store, limit, n - 1) then 1 else 0
  }

  /** Raising the limit never loses a hit: each one stays. */
  lemma HitStays(ops: seq<Op>, store: string -> FileBlob, small: int, large: int, i: nat)
    requires small <= large && i < |ops| && IsHit(ops, store, small, i)
    ensures IsHit(ops, store, large, i)
  {
    Inclusion(ops[..i], store, small, large);
    FoundStays(Contents(ops[..i], store, small), Contents(ops[..i], store, large), ops[i].key);
  }

  /** So there are never fewer, up to any point of the run. */
  lemma {:induction false} HitsMonotone(ops: seq<Op>, store: string -> FileBlob, small: int, large: int, n: nat)
    requires small <= large && n <= |ops|
    ensures Hits(ops, store, small, n) <= Hits(ops, store, large, n)
  {
    if n > 0 {
      HitsMonotone(ops, store, small, large, n - 1);
      assert IsHit(ops, store, small, n - 1) ==> IsHit(ops, store, large, n - 1) by {
        if IsHit(ops, store, small, n - 1) {
          HitStays(ops, store, small, large, n - 1);
        }
      }
    }
  }
}
