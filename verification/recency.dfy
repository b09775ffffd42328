/** The blob cache as a value: its entries, most recently used first, under a byte limit. */
module Recency {
  import opened Wrappers

  datatype FileBlob = FileBlob(content: string, missing: bool)

  datatype Entry = Entry(key: string, blob: FileBlob, size: int)

  /** The charge counts the key too, so a blob missing at a sha still costs something. */
  function BlobSize(key: string, blob: FileBlob): nat
  {
    |key| + |blob.content|
  }

  function NewEntry(key: string, blob: FileBlob): Entry
  {
    Entry(key, blob, BlobSize(key, blob))
  }

  predicate Charged(es: seq<Entry>)
  {
    forall i :: 0 <= i < |es| ==> es[i].size == BlobSize(es[i].key, es[i].blob)
  }

  predicate DistinctKeys(es: seq<Entry>)
  {
    forall i, j :: 0 <= i < j < |es| ==> es[i].key != es[j].key
  }

  function Total(es: seq<Entry>): int
  {
    if es == [] then 0 else Total(es[..|es| - 1]) + es[|es| - 1].size
  }

  /** The position of `key`, or `|es|`. */
  function Find(es: seq<Entry>, key: string): (k: nat)
    ensures k <= |es|
    ensures k < |es| ==> es[k].key == key
    ensures forall i :: 0 <= i < k ==> es[i].key != key
  {
    if es == [] || es[0].key == key then 0 else 1 + Find(es[1..], key)
  }

  /** `s` less its element `k`. */
  function Without<T>(s: seq<T>, k: nat): seq<T>
  {
    if k < |s| then s[..k] + s[k + 1..] else s
  }

  /** `s` with its element `k`, if any, made the first. */
  function Touch<T>(s: seq<T>, k: nat): seq<T>
  {
    if k < |s| then [s[k]] + Without(s, k) else s
  }

  /** Where element `i` of a sequence touched at `k` stood before. */
  function Origin(k: nat, i: nat): nat
  {
    if i == 0 then k else if i <= k then i - 1 else i
  }

  lemma TouchAt<T>(s: seq<T>, k: nat)
    requires k < |s|
    ensures |Touch(s, k)| == |s|
    ensures forall i :: 0 <= i < |s| ==> Touch(s, k)[i] == s[Origin(k, i)]
  {
  }

  /** Coldest entries dropped until the rest is within the limit. */
  function Trim(es: seq<Entry>, limit: int): seq<Entry>
  {
    if es == [] || Total(es) <= limit then es else Trim(es[..|es| - 1], limit)
  }

  function Lookup(es: seq<Entry>, key: string): Option<FileBlob>
  {
    var k := Find(es, key);
    if k < |es| then Some(es[k].blob) else None
  }

  function Put(es: seq<Entry>, key: string, blob: FileBlob, limit: int): seq<Entry>
  {
    Trim([NewEntry(key, blob)] + Without(es, Find(es, key)), limit)
  }

  // ----- what the operations mean -----

  lemma {:induction false} TotalConcat(a: seq<Entry>, b: seq<Entry>)
    ensures Total(a + b) == Total(a) + Total(b)
  {
    if b == [] {
      assert a + b == a;
    } else {
      assert (a + b)[..|a + b| - 1] == a + b[..|b| - 1];
      TotalConcat(a, b[..|b| - 1]);
    }
  }

  lemma {:induction false} TotalNat(es: seq<Entry>)
    requires Charged(es)
    ensures Total(es) >= 0
  {
    if es != [] {
      TotalNat(es[..|es| - 1]);
    }
  }

  lemma TotalThree(a: seq<Entry>, e: Entry, b: seq<Entry>)
    ensures Total(a + [e] + b) == Total(a) + e.size + Total(b)
    ensures Total([e] + (a + b)) == e.size + Total(a) + Total(b)
    ensures Total(a + b) == Total(a) + Total(b)
  {
    TotalConcat(a + [e], b);
    TotalConcat(a, [e]);
    TotalConcat([e], a + b);
    TotalConcat(a, b);
    assert [e][..0] == [];
  }

  lemma TotalAround(a: seq<Entry>, e: Entry, b: seq<Entry>, all: seq<Entry>)
    requires all == a + [e] + b
    ensures Total(all) == Total(a + b) + e.size
  {
    TotalThree(a, e, b);
  }

  lemma TotalSplit(es: seq<Entry>, k: nat)
    requires k < |es|
    ensures Total(es) == Total(es[..k] + es[k + 1..]) + es[k].size
  {
    TotalAround(es[..k], es[k], es[k + 1..], es);
  }

  lemma TotalWithout(es: seq<Entry>, k: nat)
    requires k < |es|
    ensures Total(es) == Total(Without(es, k)) + es[k].size
    ensures Total(Touch(es, k)) == Total(es)
  {
    TotalThree(es[..k], es[k], es[k + 1..]);
    TotalSplit(es, k);
  }

  lemma TotalReplaced(es: seq<Entry>, k: nat, e: Entry)
    requires k < |es|
    ensures Total(es[k := e]) == Total(es) - es[k].size + e.size
    ensures Without(es[k := e], k) == Without(es, k)
  {
    TotalWithout(es, k);
    TotalWithout(es[k := e], k);
    assert Without(es[k := e], k) == Without(es, k);
  }

  /** `kept` is the longest prefix of `es` that fits the limit. */
  ghost predicate LongestFit(kept: seq<Entry>, es: seq<Entry>, limit: int)
  {
    && kept <= es
    && (kept != [] ==> Total(kept) <= limit)
    && forall n :: |kept| < n <= |es| ==> Total(es[..n]) > limit
  }

  lemma {:induction false} TrimIsLongestFit(es: seq<Entry>, limit: int)
    requires Charged(es)
    ensures LongestFit(Trim(es, limit), es, limit)
  {
    if es != [] && Total(es) > limit {
      var shorter := es[..|es| - 1];
      TrimIsLongestFit(shorter, limit);
      forall n | |Trim(es, limit)| < n <= |es|
        ensures Total(es[..n]) > limit
      {
        if n == |es| {
          assert es[..n] == es;
        } else {
          assert es[..n] == shorter[..n];
        }
      }
    } else {
      assert es[..|es|] == es;
    }
  }

  lemma {:induction false} TrimWithin(es: seq<Entry>, limit: int)
    ensures Trim(es, limit) != [] ==> Total(Trim(es, limit)) <= limit
  {
    if es != [] && Total(es) > limit {
      TrimWithin(es[..|es| - 1], limit);
    }
  }

  lemma PrefixTotal(es: seq<Entry>, m: nat, n: nat)
    requires Charged(es) && m <= n <= |es|
    ensures Total(es[..m]) <= Total(es[..n])
  {
    TotalConcat(es[..m], es[m..n]);
    TotalNat(es[m..n]);
    assert es[..m] + es[m..n] == es[..n];
  }

  /** There is only one longest prefix that fits. */
  lemma LongestFitUnique(a: seq<Entry>, b: seq<Entry>, es: seq<Entry>, limit: int)
    requires LongestFit(a, es, limit) && LongestFit(b, es, limit)
    ensures a == b
  {
    assert a == es[..|a|] && b == es[..|b|];
  }

  predicate WellKept(es: seq<Entry>, limit: int)
  {
    Charged(es) && DistinctKeys(es) && (es != [] ==> Total(es) <= limit)
  }

  /** What a put leaves: the longest prefix within the limit of the updated recency order,
      so a blob that fits is always retained, at the front, and one that does not empties
      the cache. */
  lemma PutKeeps(es: seq<Entry>, key: string, blob: FileBlob, limit: int)
    requires WellKept(es, limit)
    ensures var now := Put(es, key, blob, limit);
            && WellKept(now, limit)
            && LongestFit(now, [NewEntry(key, blob)] + Without(es, Find(es, key)), limit)
            && (BlobSize(key, blob) <= limit ==>
                  now != [] && now[0] == NewEntry(key, blob) && Lookup(now, key) == Some(blob))
            && (BlobSize(key, blob) > limit ==> now == [])
  {
    var order := [NewEntry(key, blob)] + Without(es, Find(es, key));
    var now := Put(es, key, blob, limit);
    UpdatedOrder(es, key, blob);
    TrimIsLongestFit(order, limit);
    assert order[..1] == [NewEntry(key, blob)] && order[..1][..0] == [];
    if now != [] {
      PrefixTotal(order, 1, |now|);
      assert now == order[..|now|];
    }
  }

  /** What the entries take up: their keys and contents. */
  function Bytes(es: seq<Entry>): nat
  {
    if es == [] then 0 else Bytes(es[..|es| - 1]) + |es[|es| - 1].key| + |es[|es| - 1].blob.content|
  }

  lemma {:induction false} ChargedBytes(es: seq<Entry>)
    requires Charged(es)
    ensures Total(es) == Bytes(es)
  {
    if es != [] {
      ChargedBytes(es[..|es| - 1]);
    }
  }

  /** The same in bytes of key and content: the new entry is kept exactly when the limit has room
      for it, and what is kept is as much of the updated order as fits. */
  lemma PutFits(es: seq<Entry>, key: string, blob: FileBlob, limit: int)
    requires WellKept(es, limit)
    ensures var order, now := [NewEntry(key, blob)] + Without(es, Find(es, key)), Put(es, key, blob, limit);
            && Lookup(now, key) == (if |key| + |blob.content| <= limit then Some(blob) else None)
            && now <= order && (now != [] ==> Bytes(now) <= limit)
            && forall n | |now| < n <= |order| :: Bytes(order[..n]) > limit
  {
    var order, now := [NewEntry(key, blob)] + Without(es, Find(es, key)), Put(es, key, blob, limit);
    PutKeeps(es, key, blob, limit);
    UpdatedOrder(es, key, blob);
    ChargedBytes(now);
    forall n | |now| < n <= |order|
      ensures Bytes(order[..n]) > limit
    {
      ChargedBytes(order[..n]);
    }
  }

  lemma UpdatedOrder(es: seq<Entry>, key: string, blob: FileBlob)
    requires Charged(es) && DistinctKeys(es)
    ensures var order := [NewEntry(key, blob)] + Without(es, Find(es, key));
            Charged(order) && DistinctKeys(order)
  {
  }

  lemma TouchDistinct(es: seq<Entry>, k: nat)
    requires DistinctKeys(es)
    ensures DistinctKeys(Touch(es, k))
  {
    var now := Touch(es, k);
    if k < |es| {
      TouchAt(es, k);
      forall i, j | 0 <= i < j < |now|
        ensures now[i].key != now[j].key
      {
        var p, q := Origin(k, i), Origin(k, j);
        if p < q {
          assert es[p].key != es[q].key;
        } else {
          assert es[q].key != es[p].key;
        }
      }
    }
  }

  lemma TouchCharged(es: seq<Entry>, k: nat)
    requires Charged(es) && k < |es|
    ensures Charged(Touch(es, k)) && Total(Touch(es, k)) == Total(es)
  {
    TouchAt(es, k);
    TotalWithout(es, k);
  }

  lemma TouchKeeps(es: seq<Entry>, k: nat, limit: int)
    requires WellKept(es, limit) && k < |es|
    ensures WellKept(Touch(es, k), limit)
  {
    TouchCharged(es, k);
    TouchDistinct(es, k);
  }

  lemma TouchMembers<T>(s: seq<T>, k: nat)
    ensures forall x :: x in Touch(s, k) <==> x in s
  {
    if k < |s| {
      TouchAt(s, k);
      forall i | 0 <= i < |s|
        ensures s[i] in Touch(s, k)
      {
        assert Touch(s, k)[if i == k then 0 else if i < k then i + 1 else i] == s[i];
      }
    }
  }
}
