/** The blob cache in place: a map into a doubly linked recency list closed by a sentinel,
    with a running byte count. */
module BlobCache {
  import opened Wrappers
  import opened Recency

  class Node {
    const key: string
    var blob: FileBlob
    var size: int
    var prev: Node?
    var next: Node?

    constructor (key: string, blob: FileBlob, size: int)
      ensures this.key == key && this.blob == blob && this.size == size
    {
      this.key, this.blob, this.size := key, blob, size;
      prev, next := null, null;
    }
  }

  /** `ring` is linked forwards and backwards. */
  ghost predicate Linked(ring: seq<Node>)
    reads ring`prev, ring`next
  {
    |ring| <= 1 || (ring[0].next == ring[1] && ring[1].prev == ring[0] && Linked(ring[1..]))
  }

  lemma {:induction false} LinkedAt(ring: seq<Node>)
    requires Linked(ring)
    ensures forall i {:trigger ring[i].next} :: 0 <= i < |ring| - 1 ==> ring[i].next == ring[i + 1]
    ensures forall i {:trigger ring[i].prev} :: 0 < i < |ring| ==> ring[i].prev == ring[i - 1]
  {
    if |ring| > 1 {
      var rest := ring[1..];
      LinkedAt(rest);
      forall i {:trigger ring[i].next} | 0 <= i < |ring| - 1
        ensures ring[i].next == ring[i + 1]
      {
        if i > 0 { assert rest[i - 1].next == rest[i]; }
      }
      forall i {:trigger ring[i].prev} | 0 < i < |ring|
        ensures ring[i].prev == ring[i - 1]
      {
        if i > 1 { assert rest[i - 1].prev == rest[i - 2]; }
      }
    }
  }

  lemma {:induction false} LinkedIntro(ring: seq<Node>)
    requires forall i {:trigger ring[i].next} :: 0 <= i < |ring| - 1 ==> ring[i].next == ring[i + 1]
    requires forall i {:trigger ring[i].prev} :: 0 < i < |ring| ==> ring[i].prev == ring[i - 1]
    ensures Linked(ring)
  {
    if |ring| > 1 {
      assert ring[0].next == ring[1] && ring[1].prev == ring[0];
      LinkedIntro(ring[1..]);
    }
  }

  /** `nodes` carry `es`, position by position. */
  ghost predicate Carries(nodes: seq<Node>, es: seq<Entry>)
    reads nodes`blob, nodes`size
  {
    if nodes == [] || es == [] then nodes == [] && es == []
    else
      && nodes[0].key == es[0].key && nodes[0].blob == es[0].blob && nodes[0].size == es[0].size
      && Carries(nodes[1..], es[1..])
  }

  lemma {:induction false} CarriesAt(nodes: seq<Node>, es: seq<Entry>)
    requires Carries(nodes, es)
    ensures |nodes| == |es|
    ensures forall i :: 0 <= i < |nodes| ==>
              nodes[i].key == es[i].key && nodes[i].blob == es[i].blob && nodes[i].size == es[i].size
  {
    if nodes != [] && es != [] {
      CarriesAt(nodes[1..], es[1..]);
    }
  }

  lemma {:induction false} CarriesIntro(nodes: seq<Node>, es: seq<Entry>)
    requires |nodes| == |es|
    requires forall i :: 0 <= i < |nodes| ==>
              nodes[i].key == es[i].key && nodes[i].blob == es[i].blob && nodes[i].size == es[i].size
    ensures Carries(nodes, es)
  {
    if nodes != [] {
      CarriesIntro(nodes[1..], es[1..]);
    }
  }

  ghost predicate Distinct(nodes: seq<Node>)
  {
    forall i, j :: 0 <= i < j < |nodes| ==> nodes[i] != nodes[j]
  }

  /** The recency list: nodes on a ring closed by a sentinel, most recent first. */
  class List {
    const root: Node
    var len: nat
    ghost var nodes: seq<Node>
    ghost var entries: seq<Entry>

    ghost function Ring(): seq<Node>
      reads this
    {
      [root] + nodes + [root]
    }

    ghost predicate Valid()
      reads this, root`prev, root`next, nodes
    {
      len == |nodes| == |entries| && root !in nodes && Linked(Ring()) && Carries(nodes, entries)
    }

    constructor ()
      ensures Valid() && nodes == [] && entries == [] && fresh(root)
    {
      root := new Node("", FileBlob("", false), 0);
      len, nodes, entries := 0, [], [];
      new;
      root.next, root.prev := root, root;
      LinkedIntro(Ring());
    }

    method Init()
      modifies this, root
      ensures Valid() && nodes == [] && entries == []
    {
      root.next, root.prev := root, root;
      len, nodes, entries := 0, [], [];
      LinkedIntro(Ring());
    }

    /** No node stands twice on the ring but the sentinel that closes it: following the
        links from two places with the same node would reach the sentinel early. */
    lemma {:induction false} RingDistinct(p: nat, q: nat)
      requires root !in nodes && Linked(Ring())
      requires p < q < |Ring()| && (p > 0 || q < |Ring()| - 1)
      ensures Ring()[p] != Ring()[q]
      decreases |Ring()| - q
    {
      var ring := Ring();
      if 0 < p && q < |ring| - 1 {
        RingDistinct(p + 1, q + 1);
        LinkedAt(ring);
        assert ring[p].next == ring[p + 1] && ring[q].next == ring[q + 1];
      } else if 0 < p {
        assert ring[p] == nodes[p - 1];
      } else {
        assert ring[q] == nodes[q - 1];
      }
    }

    lemma NodesDistinct()
      requires root !in nodes && Linked(Ring())
      ensures Distinct(nodes)
    {
      forall i, j | 0 <= i < j < |nodes|
        ensures nodes[i] != nodes[j]
      {
        RingDistinct(i + 1, j + 1);
        assert Ring()[i + 1] == nodes[i] && Ring()[j + 1] == nodes[j];
      }
    }

    /** The other nodes are not the one at `k`. */
    lemma NodeUnique(k: nat)
      requires Valid() && k < |nodes|
      ensures forall i :: 0 <= i < |nodes| && i != k ==> nodes[i] != nodes[k]
    {
      NodesDistinct();
    }

    lemma RingUnique(k: nat)
      requires Valid() && k < |Ring()|
      ensures forall j :: 0 < j < |Ring()| - 1 && Ring()[j] == Ring()[k] ==> j == k
      ensures k < |Ring()| - 1 ==> Ring()[0] == Ring()[k] ==> k == 0
      ensures 0 < k ==> Ring()[|Ring()| - 1] == Ring()[k] ==> k == |Ring()| - 1
    {
      forall j | 0 < j < |Ring()| - 1 && Ring()[j] == Ring()[k]
        ensures j == k
      {
        if j < k { RingDistinct(j, k); }
        if k < j { RingDistinct(k, j); }
      }
      if 0 < k < |Ring()| - 1 {
        RingDistinct(0, k);
        RingDistinct(k, |Ring()| - 1);
      }
    }

    method Back() returns (n: Node)
      requires Valid() && len > 0
      ensures n == nodes[len - 1]
    {
      LinkedAt(Ring());
      assert Ring()[len + 1] == root && Ring()[len] == nodes[len - 1];
      n := root.prev;
    }

    /** Takes `n`, at position `i`, out of the list. */
    method Remove(n: Node, ghost i: nat)
      requires Valid() && i < |nodes| && nodes[i] == n
      modifies this, root`prev, root`next, nodes`prev, nodes`next
      ensures Valid() && nodes == Without(old(nodes), i) && entries == Without(old(entries), i)
    {
      ghost var ring := Ring();
      CarriesWithout(i);
      Unlink(n, i + 1);
      len := len - 1;
      nodes, entries := Without(nodes, i), Without(entries, i);
      assert Ring() == ring[..i + 1] + ring[i + 2..];
    }

    method Unlink(n: Node, ghost k: nat)
      requires Valid() && 0 < k < |Ring()| - 1 && Ring()[k] == n
      modifies root`prev, root`next, nodes`prev, nodes`next
      ensures Linked(Ring()[..k] + Ring()[k + 1..])
    {
      ghost var ring := Ring();
      ghost var after := ring[..k] + ring[k + 1..];
      LinkedAt(ring);
      assert ring[k] == n && ring[k - 1].next == n && ring[k].prev == ring[k - 1];
      assert ring[k].next == ring[k + 1];
      assert ring[k] == nodes[k - 1];
      RingUnique(k - 1);
      RingUnique(k + 1);
      n.prev.next := n.next;
      n.next.prev := n.prev;
      forall j {:trigger after[j].next} | 0 <= j < |after| - 1
        ensures after[j].next == after[j + 1]
      {
      }
      forall j {:trigger after[j].prev} | 0 < j < |after|
        ensures after[j].prev == after[j - 1]
      {
        assert after[j] == ring[if j < k then j else j + 1];
      }
      LinkedIntro(after);
    }

    lemma CarriesWithout(i: nat)
      requires Carries(nodes, entries) && i < |nodes|
      ensures Carries(Without(nodes, i), Without(entries, i))
    {
      CarriesAt(nodes, entries);
      CarriesIntro(Without(nodes, i), Without(entries, i));
    }

    method PushFront(n: Node)
      requires Valid() && n !in nodes && n != root
      modifies this, root`prev, root`next, nodes`prev, nodes`next, n`prev, n`next
      ensures Valid() && nodes == [n] + old(nodes)
      ensures entries == [Entry(n.key, n.blob, n.size)] + old(entries)
    {
      ghost var ring := Ring();
      LinkedAt(ring);
      RingUnique(1);
      assert ring[0] == root && ring[0].next == ring[1];
      n.prev := root;
      n.next := root.next;
      n.prev.next := n;
      n.next.prev := n;
      len := len + 1;
      nodes, entries := [n] + nodes, [Entry(n.key, n.blob, n.size)] + entries;
      assert Ring() == [root, n] + ring[1..];
      LinkedIntro(Ring());
    }

    lemma IsFirst(n: Node, i: nat)
      requires Valid() && i < |nodes| && nodes[i] == n
      ensures |entries| == |nodes| && entries[i] == Entry(n.key, n.blob, n.size)
      ensures root.next == n <==> i == 0
      ensures n != root && n !in Without(nodes, i)
    {
      CarriesAt(nodes, entries);
      NodeUnique(i);
      LinkedAt(Ring());
      assert Ring()[0] == root && Ring()[0].next == Ring()[1] == nodes[0];
    }

    /** Makes `n`, at position `i`, the first. */
    method MoveToFront(n: Node, ghost i: nat)
      requires Valid() && i < |nodes| && nodes[i] == n
      modifies this, root`prev, root`next, nodes`prev, nodes`next
      ensures Valid() && nodes == Touch(old(nodes), i) && entries == Touch(old(entries), i)
    {
      IsFirst(n, i);
      if root.next == n {
        assert nodes == Touch(nodes, 0) && entries == Touch(entries, 0);
        return;
      }
      Remove(n, i);
      PushFront(n);
    }

    /** Stores a new blob in `n`, at position `i`, where it stands. */
    method Store(n: Node, blob: FileBlob, size: int, ghost i: nat)
      requires Valid() && i < |nodes| && nodes[i] == n
      modifies this`entries, n`blob, n`size
      ensures Valid() && entries == old(entries)[i := Entry(n.key, blob, size)]
    {
      CarriesAt(nodes, entries);
      NodeUnique(i);
      n.blob, n.size := blob, size;
      entries := entries[i := Entry(n.key, blob, size)];
      CarriesIntro(nodes, entries);
    }

    /** Overwrites a node and makes it the first. */
    method Refresh(n: Node, blob: FileBlob, size: int, ghost i: nat)
      requires Valid() && i < |nodes| && nodes[i] == n
      modifies this, root`prev, root`next, nodes
      ensures Valid() && nodes == Touch(old(nodes), i)
      ensures entries == Touch(old(entries)[i := Entry(n.key, blob, size)], i)
    {
      Store(n, blob, size, i);
      MoveToFront(n, i);
    }
  }

  function Keys(es: seq<Entry>): set<string>
  {
    if es == [] then {} else {es[0].key} + Keys(es[1..])
  }

  lemma {:induction false} KeysAt(es: seq<Entry>, key: string)
    ensures key in Keys(es) <==> Find(es, key) < |es|
    ensures key in Keys(es) <==> exists i :: 0 <= i < |es| && es[i].key == key
  {
    if es != [] {
      KeysAt(es[1..], key);
    }
  }

  /** `blobs` leads from the key of each of `es` to the node at its position, and each is
      charged its size. */
  ghost predicate Held(blobs: map<string, Node>, nodes: seq<Node>, es: seq<Entry>)
  {
    if nodes == [] || es == [] then nodes == [] && es == []
    else
      && es[0].size == BlobSize(es[0].key, es[0].blob)
      && es[0].key in blobs && blobs[es[0].key] == nodes[0]
      && Held(blobs, nodes[1..], es[1..])
  }

  lemma {:induction false} HeldAt(blobs: map<string, Node>, nodes: seq<Node>, es: seq<Entry>)
    requires Held(blobs, nodes, es)
    ensures |nodes| == |es|
    ensures forall i :: 0 <= i < |es| ==>
              es[i].size == BlobSize(es[i].key, es[i].blob) && es[i].key in blobs && blobs[es[i].key] == nodes[i]
  {
    if nodes != [] && es != [] {
      HeldAt(blobs, nodes[1..], es[1..]);
    }
  }

  lemma {:induction false} HeldIntro(blobs: map<string, Node>, nodes: seq<Node>, es: seq<Entry>)
    requires |nodes| == |es|
    requires forall i :: 0 <= i < |es| ==>
               es[i].size == BlobSize(es[i].key, es[i].blob) && es[i].key in blobs && blobs[es[i].key] == nodes[i]
    ensures Held(blobs, nodes, es)
  {
    if nodes != [] {
      HeldIntro(blobs, nodes[1..], es[1..]);
    }
  }

  /** The map holds the entries and no others, and the byte count is the sum of their
      charges. */
  ghost predicate Books(blobs: map<string, Node>, bytes: int, nodes: seq<Node>, es: seq<Entry>)
  {
    Held(blobs, nodes, es) && blobs.Keys == Keys(es) && bytes == Total(es)
  }

  lemma BooksFind(blobs: map<string, Node>, bytes: int, nodes: seq<Node>, es: seq<Entry>, key: string)
    requires Books(blobs, bytes, nodes, es)
    ensures |nodes| == |es|
    ensures key in blobs <==> Find(es, key) < |es|
    ensures key in blobs ==> blobs[key] == nodes[Find(es, key)]
  {
    HeldAt(blobs, nodes, es);
    KeysAt(es, key);
  }

  lemma KeysDistinct(blobs: map<string, Node>, bytes: int, nodes: seq<Node>, es: seq<Entry>)
    requires Books(blobs, bytes, nodes, es) && Distinct(nodes)
    ensures DistinctKeys(es) && Charged(es)
  {
    HeldAt(blobs, nodes, es);
    forall i, j | 0 <= i < j < |es|
      ensures es[i].key != es[j].key
    {
      assert nodes[i] != nodes[j];
    }
  }

  /** Entry lists with the same members have the same keys. */
  lemma SameKeys(es: seq<Entry>, es': seq<Entry>)
    requires forall e :: e in es <==> e in es'
    ensures Keys(es) == Keys(es')
  {
    forall key
      ensures key in Keys(es) <==> key in Keys(es')
    {
      KeysAt(es, key);
      KeysAt(es', key);
      if key in Keys(es) {
        var i :| 0 <= i < |es| && es[i].key == key;
        assert es[i] in es';
      }
      if key in Keys(es') {
        var i :| 0 <= i < |es'| && es'[i].key == key;
        assert es'[i] in es;
      }
    }
  }

  lemma TouchedKeys(es: seq<Entry>, k: nat)
    requires k < |es|
    ensures Keys(Touch(es, k)) == Keys(es) && Total(Touch(es, k)) == Total(es)
  {
    TotalWithout(es, k);
    TouchMembers(es, k);
    SameKeys(Touch(es, k), es);
  }

  lemma TouchedHeld(blobs: map<string, Node>, nodes: seq<Node>, es: seq<Entry>, k: nat, nodes': seq<Node>,
                    es': seq<Entry>)
    requires Held(blobs, nodes, es) && |nodes| == |es| && k < |es| && nodes' == Touch(nodes, k) && es' == Touch(es, k)
    ensures Held(blobs, nodes', es')
  {
    HeldAt(blobs, nodes, es);
    TouchAt(nodes, k);
    TouchAt(es, k);
    HeldIntro(blobs, nodes', es');
  }

  lemma BooksTouched(blobs: map<string, Node>, bytes: int, nodes: seq<Node>, es: seq<Entry>, k: nat)
    requires Books(blobs, bytes, nodes, es) && k < |es|
    ensures Books(blobs, bytes, Touch(nodes, k), Touch(es, k))
  {
    BooksFind(blobs, bytes, nodes, es, "");
    TouchedKeys(es, k);
    TouchedHeld(blobs, nodes, es, k, Touch(nodes, k), Touch(es, k));
  }

  lemma BooksInserted(blobs: map<string, Node>, bytes: int, nodes: seq<Node>, es: seq<Entry>, n: Node, e: Entry)
    requires Books(blobs, bytes, nodes, es) && e.key !in blobs && e.size == BlobSize(e.key, e.blob)
    ensures Books(blobs[e.key := n], bytes + e.size, [n] + nodes, [e] + es)
  {
    HeldAt(blobs, nodes, es);
    TotalConcat([e], es);
    assert [e][..0] == [];
    HeldIntro(blobs[e.key := n], nodes, es);
    assert ([e] + es)[1..] == es && ([n] + nodes)[1..] == nodes;
  }

  lemma BooksDropped(blobs: map<string, Node>, bytes: int, nodes: seq<Node>, es: seq<Entry>)
    requires Books(blobs, bytes, nodes, es) && es != []
    requires forall i :: 0 <= i < |nodes| - 1 ==> nodes[i] != nodes[|nodes| - 1]
    ensures var last := |es| - 1;
            && |nodes| == |es| && Without(nodes, last) == nodes[..last] && Without(es, last) == es[..last]
            && Books(blobs - {es[last].key}, bytes - es[last].size, nodes[..last], es[..last])
  {
    HeldAt(blobs, nodes, es);
    var last := |es| - 1;
    var left := blobs - {es[last].key};
    forall key
      ensures key in Keys(es[..last]) <==> key in left
    {
      KeysAt(es, key);
      KeysAt(es[..last], key);
      if key in left {
        var i :| 0 <= i < |es| && es[i].key == key;
        assert es[..last][i].key == key;
      }
    }
    HeldIntro(left, nodes[..last], es[..last]);
  }

  lemma BooksReplaced(blobs: map<string, Node>, bytes: int, nodes: seq<Node>, es: seq<Entry>, k: nat, e: Entry)
    requires Books(blobs, bytes, nodes, es) && k < |es| && e.key == es[k].key && e.size == BlobSize(e.key, e.blob)
    ensures Books(blobs, bytes + (e.size - es[k].size), nodes, es[k := e])
  {
    HeldAt(blobs, nodes, es);
    TotalReplaced(es, k, e);
    var now := es[k := e];
    forall key
      ensures key in Keys(now) <==> key in Keys(es)
    {
      KeysAt(es, key);
      KeysAt(now, key);
      if key in Keys(es) {
        var i :| 0 <= i < |es| && es[i].key == key;
        assert now[i].key == key;
      }
      if key in Keys(now) {
        var i :| 0 <= i < |es| && now[i].key == key;
        assert es[i].key == key;
      }
    }
    HeldIntro(blobs, nodes, now);
  }

  /** The books after a put over entry `k`. */
  lemma BooksPut(blobs: map<string, Node>, bytes: int, nodes: seq<Node>, es: seq<Entry>, k: nat, blob: FileBlob)
    requires Books(blobs, bytes, nodes, es) && k < |es|
    ensures var e := NewEntry(es[k].key, blob);
            && Touch(es[k := e], k) == [e] + Without(es, k)
            && Books(blobs, bytes + (e.size - es[k].size), Touch(nodes, k), [e] + Without(es, k))
  {
    var e := NewEntry(es[k].key, blob);
    BooksReplaced(blobs, bytes, nodes, es, k, e);
    TotalReplaced(es, k, e);
    BooksTouched(blobs, bytes + (e.size - es[k].size), nodes, es[k := e], k);
  }

  lemma MovedIn(nodes: seq<Node>, k: nat)
    requires k < |nodes|
    ensures forall i :: 0 <= i < |Touch(nodes, k)| ==> Touch(nodes, k)[i] in nodes
  {
    TouchAt(nodes, k);
  }

  class Cache {
    var blobs: map<string, Node>
    const lru: List
    var bytes: int
    const limit: int

    /** The list, the map and the byte count all hold the same entries. */
    ghost predicate Consistent()
      reads this, lru, lru.root, lru.nodes
    {
      lru.Valid() && Books(blobs, bytes, lru.nodes, lru.entries)
    }

    ghost predicate Valid()
      reads this, lru, lru.root, lru.nodes
    {
      Consistent() && (lru.entries != [] ==> bytes <= limit)
    }

    /** The cache's value: its entries, most recently used first. */
    ghost function Entries(): seq<Entry>
      reads this, lru
    {
      lru.entries
    }

    constructor (limit: int)
      ensures Valid() && Entries() == [] && this.limit == limit
      ensures fresh(lru) && fresh(lru.root)
    {
      lru := new List();
      blobs, bytes := map[], 0;
      this.limit := limit;
    }

    lemma WellKeptEntries()
      requires Valid()
      ensures WellKept(Entries(), limit)
      ensures bytes == Bytes(Entries()) && (Entries() != [] ==> Bytes(Entries()) <= limit)
    {
      lru.NodesDistinct();
      KeysDistinct(blobs, bytes, lru.nodes, lru.entries);
      ChargedBytes(lru.entries);
    }

    /** The cached blob, its entry made the most recent. */
    method Blob(key: string) returns (found: Option<FileBlob>)
      requires Valid()
      modifies lru, lru.root`prev, lru.root`next, lru.nodes`prev, lru.nodes`next
      ensures Valid()
      ensures found == Lookup(old(Entries()), key)
      ensures Entries() == Touch(old(Entries()), Find(old(Entries()), key))
      ensures found.None? ==> Entries() == old(Entries()) && lru.nodes == old(lru.nodes)
    {
      ghost var k := Find(lru.entries, key);
      BooksFind(blobs, bytes, lru.nodes, lru.entries, key);
      if key !in blobs {
        return None;
      }
      var el := blobs[key];
      BooksTouched(blobs, bytes, lru.nodes, lru.entries, k);
      CarriesAt(lru.nodes, lru.entries);
      found := Some(el.blob);
      lru.MoveToFront(el, k);
    }

    /** Drops the coldest entry. */
    method EvictOne()
      requires Consistent() && lru.len > 0
      modifies this, lru, lru.root`prev, lru.root`next, lru.nodes`prev, lru.nodes`next
      ensures Consistent() && lru.len == old(lru.len) - 1
      ensures Entries() == old(Entries()[..lru.len - 1])
      ensures lru.nodes == old(lru.nodes[..lru.len - 1])
    {
      var el := lru.Back();
      ghost var last := lru.len - 1;
      lru.NodeUnique(last);
      BooksDropped(blobs, bytes, lru.nodes, lru.entries);
      CarriesAt(lru.nodes, lru.entries);
      blobs := blobs - {el.key};
      bytes := bytes - el.size;
      lru.Remove(el, last);
    }

    /** Drops the coldest entries until the rest is within the limit. */
    method Evict()
      requires Consistent()
      modifies this, lru, lru.root`prev, lru.root`next, lru.nodes`prev, lru.nodes`next
      ensures Consistent()
      ensures Entries() == Trim(old(Entries()), limit)
      ensures lru.nodes <= old(lru.nodes)
    {
      while bytes > limit && lru.len > 0
        invariant Consistent()
        invariant Trim(Entries(), limit) == Trim(old(Entries()), limit)
        invariant lru.nodes <= old(lru.nodes)
        decreases lru.len
      {
        EvictOne();
      }
    }

    /** Caches `blob` over entry `k`. */
    method Replace(key: string, blob: FileBlob, ghost k: nat)
      requires Consistent() && key in blobs
      requires k < |lru.entries| && lru.entries[k].key == key && lru.nodes[k] == blobs[key]
      modifies this, lru, lru.root`prev, lru.root`next, lru.nodes
      ensures Consistent()
      ensures Entries() == [NewEntry(key, blob)] + Without(old(Entries()), k)
      ensures forall i :: 0 <= i < |lru.nodes| ==> lru.nodes[i] in old(lru.nodes)
    {
      ghost var nodes, es := lru.nodes, lru.entries;
      var size := BlobSize(key, blob);
      var e := blobs[key];
      assert e.key == key && e.size == es[k].size by {
        CarriesAt(nodes, es);
      }
      BooksPut(blobs, bytes, nodes, es, k, blob);
      MovedIn(nodes, k);
      bytes := bytes + (size - e.size);
      lru.Refresh(e, blob, size, k);
    }

    method Insert(key: string, blob: FileBlob)
      requires Consistent() && key !in blobs
      modifies this, lru, lru.root`prev, lru.root`next, lru.nodes`prev, lru.nodes`next
      ensures Consistent()
      ensures Entries() == [NewEntry(key, blob)] + old(Entries())
      ensures forall i :: 0 <= i < |lru.nodes| ==> fresh(lru.nodes[i]) || lru.nodes[i] in old(lru.nodes)
    {
      var size := BlobSize(key, blob);
      var e := new Node(key, blob, size);
      BooksInserted(blobs, bytes, lru.nodes, lru.entries, e, NewEntry(key, blob));
      blobs := blobs[key := e];
      bytes := bytes + size;
      lru.PushFront(e);
    }

    /** Caches `blob` under `key`, replacing what was there. */
    method Admit(key: string, blob: FileBlob)
      requires Consistent()
      modifies this, lru, lru.root`prev, lru.root`next, lru.nodes
      ensures Consistent()
      ensures Entries() == [NewEntry(key, blob)] + Without(old(Entries()), Find(old(Entries()), key))
      ensures forall i :: 0 <= i < |lru.nodes| ==> fresh(lru.nodes[i]) || lru.nodes[i] in old(lru.nodes)
    {
      BooksFind(blobs, bytes, lru.nodes, lru.entries, key);
      if key in blobs {
        Replace(key, blob, Find(lru.entries, key));
      } else {
        Insert(key, blob);
      }
    }

    /** Caches `blob` under `key`, replacing what was there, and evicts. */
    method PutBlob(key: string, blob: FileBlob)
      requires Valid()
      modifies this, lru, lru.root, lru.nodes
      ensures Valid()
      ensures Entries() == Put(old(Entries()), key, blob, limit)
      ensures Lookup(Entries(), key) == if |key| + |blob.content| <= limit then Some(blob) else None
    {
      WellKeptEntries();
      PutFits(lru.entries, key, blob, limit);
      Admit(key, blob);
      ghost var es := Entries();
      Evict();
      TrimWithin(es, limit);
    }

    method ClearAll()
      requires Valid()
      modifies this, lru, lru.root
      ensures Valid() && Entries() == []
    {
      blobs := map[];
      lru.Init();
      bytes := 0;
    }
  }
}
