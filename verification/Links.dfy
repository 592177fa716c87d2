/** The shape of a hash table with chaining, free of pointers: for every key the keys
    that its prev and next links lead to, and the key each bucket head leads to. */
module Links {
  import opened Common

  datatype Link = Link(prev: Option<nat>, next: Option<nat>)

  datatype Shape = Shape(heads: seq<Option<nat>>, links: map<nat, Link>)

  function Bucket(key: nat, size: nat): (b: nat)
    requires size > 0
    ensures b < size
  {
    key % size
  }

  // A key below the size is its own bucket, and the size added any number of times changes nothing.
  lemma {:induction false} BucketIs(q: nat, r: nat, size: nat)
    requires r < size
    ensures Bucket(q * size + r, size) == r
  {
    var k := q * size + r;
    Quotient(k / size, Bucket(k, size), q, r, size);
  }

  // A number is a multiple of the size and a rest below it in one way only.
  lemma Quotient(q: nat, r: nat, q': nat, r': nat, size: nat)
    requires r < size && r' < size && q * size + r == q' * size + r'
    ensures q == q' && r == r'
  {
    if q < q' {
      Further(q, q' - q, size);
    } else if q' < q {
      Further(q', q - q', size);
    }
  }

  lemma Further(q: nat, d: nat, size: nat)
    requires d > 0
    ensures (q + d) * size >= q * size + size
  {
    assert (q + d) * size == q * size + size + (d - 1) * size;
  }

  // Links stay in the bucket, ascend strictly, and are mutual inverses.
  ghost predicate LinkOk(s: Shape, k: nat)
    requires s.heads != [] && k in s.links
  {
    var l := s.links[k];
    var b := Bucket(k, |s.heads|);
    && (l.next.Some? ==> InBucket(s, l.next.value, b) && k < l.next.value && s.links[l.next.value].prev == Some(k))
    && (l.prev.Some? ==> InBucket(s, l.prev.value, b) && l.prev.value < k && s.links[l.prev.value].next == Some(k))
    && (l.prev.None? ==> s.heads[b] == Some(k))
  }

  ghost predicate InBucket(s: Shape, k: nat, b: nat)
    requires s.heads != []
  {
    k in s.links && Bucket(k, |s.heads|) == b
  }

  // The link out of j does not jump over the larger key k of its bucket.
  ghost predicate NoGap(s: Shape, j: nat, k: nat)
    requires j in s.links
  {
    s.links[j].next.Some? && s.links[j].next.value <= k
  }

  // The head of k's bucket does not come after k.
  ghost predicate HeadBelow(s: Shape, k: nat)
    requires s.heads != []
  {
    var h := s.heads[Bucket(k, |s.heads|)];
    h.Some? && h.value <= k
  }

  ghost predicate HeadOk(s: Shape, b: nat)
    requires b < |s.heads|
  {
    s.heads[b].Some? ==> InBucket(s, s.heads[b].value, b) && s.links[s.heads[b].value].prev.None?
  }

  ghost predicate WellLinked(s: Shape) {
    && s.heads != []
    && (forall k {:trigger LinkOk(s, k)} | k in s.links :: LinkOk(s, k))
    && (forall k {:trigger HeadBelow(s, k)} | k in s.links :: HeadBelow(s, k))
    && (forall b {:trigger HeadOk(s, b)} | 0 <= b < |s.heads| :: HeadOk(s, b))
    && (forall j, k {:trigger NoGap(s, j, k)} |
          j in s.links && k in s.links && j < k && Bucket(j, |s.heads|) == Bucket(k, |s.heads|) :: NoGap(s, j, k))
  }

  function Empty(size: nat): Shape {
    Shape(seq(size, _ => None), map[])
  }

  lemma EmptyOk(size: nat)
    requires size > 0
    ensures WellLinked(Empty(size))
  {
    hide Bucket;
  }

  // The neighbours a new key will have in its chain.
  ghost predicate Neighbours(s: Shape, key: nat, last: Option<nat>, cur: Option<nat>)
    requires s.heads != []
  {
    var b := Bucket(key, |s.heads|);
    && key !in s.links
    && (last.Some? ==> InBucket(s, last.value, b) && last.value < key && s.links[last.value].next == cur)
    && (last.None? ==> s.heads[b] == cur)
    && (cur.Some? ==> InBucket(s, cur.value, b) && key < cur.value && s.links[cur.value].prev == last)
  }

  function Splice(s: Shape, key: nat, last: Option<nat>, cur: Option<nat>): Shape
    requires s.heads != []
  {
    Shape(if last.None? then s.heads[Bucket(key, |s.heads|) := Some(key)] else s.heads,
          map k | k in s.links.Keys + {key} ::
            if k == key then Link(last, cur)
            else Link(if cur == Some(k) then Some(key) else s.links[k].prev,
                      if last == Some(k) then Some(key) else s.links[k].next))
  }

  lemma SpliceOk(s: Shape, key: nat, last: Option<nat>, cur: Option<nat>)
    requires WellLinked(s) && Neighbours(s, key, last, cur)
    ensures WellLinked(Splice(s, key, last, cur))
  {
    hide Bucket, Neighbours, LinkOk, HeadBelow, HeadOk, NoGap;
    var t := Splice(s, key, last, cur);
    forall k | k in t.links
      ensures LinkOk(t, k) && HeadBelow(t, k)
    {
      SpliceLink(s, key, last, cur, k);
      SpliceBelow(s, key, last, cur, k);
    }
    forall b | 0 <= b < |t.heads|
      ensures HeadOk(t, b)
    {
      SpliceHead(s, key, last, cur, b);
    }
    forall j, k | j in t.links && k in t.links && j < k && Bucket(j, |t.heads|) == Bucket(k, |t.heads|)
      ensures NoGap(t, j, k)
    {
      SpliceNoGap(s, key, last, cur, j, k);
    }
  }

  lemma SpliceLink(s: Shape, key: nat, last: Option<nat>, cur: Option<nat>, k: nat)
    requires WellLinked(s) && Neighbours(s, key, last, cur) && k in Splice(s, key, last, cur).links
    ensures LinkOk(Splice(s, key, last, cur), k)
  {
    hide Bucket;
    assert k != key ==> LinkOk(s, k);
  }

  lemma SpliceBelow(s: Shape, key: nat, last: Option<nat>, cur: Option<nat>, k: nat)
    requires WellLinked(s) && Neighbours(s, key, last, cur) && k in Splice(s, key, last, cur).links
    ensures HeadBelow(Splice(s, key, last, cur), k)
  {
    hide Bucket;
    assert k != key ==> HeadBelow(s, k);
    assert last.Some? ==> HeadBelow(s, last.value);
  }

  lemma SpliceHead(s: Shape, key: nat, last: Option<nat>, cur: Option<nat>, b: nat)
    requires WellLinked(s) && Neighbours(s, key, last, cur) && b < |s.heads|
    ensures HeadOk(Splice(s, key, last, cur), b)
  {
    hide Bucket;
    assert HeadOk(s, b);
  }

  lemma SpliceNoGap(s: Shape, key: nat, last: Option<nat>, cur: Option<nat>, j: nat, k: nat)
    requires WellLinked(s) && Neighbours(s, key, last, cur)
    requires var t := Splice(s, key, last, cur);
      j in t.links && k in t.links && j < k && Bucket(j, |t.heads|) == Bucket(k, |t.heads|)
    ensures NoGap(Splice(s, key, last, cur), j, k)
  {
    hide Bucket;
    if j != key {
      assert HeadBelow(s, j);
    }
    if j == key {
      assert last.None? ==> HeadBelow(s, k);
      assert last.Some? ==> NoGap(s, last.value, k);
    } else if k != key {
      assert NoGap(s, j, k);
    } else if last.Some? {
      assert j < last.value ==> NoGap(s, j, last.value);
      assert last.value < j ==> NoGap(s, last.value, j);
    }
  }

  function Unsplice(s: Shape, key: nat): Shape
    requires s.heads != [] && key in s.links
  {
    var b := Bucket(key, |s.heads|);
    var l := s.links[key];
    Shape(if s.heads[b] == Some(key) then s.heads[b := l.next] else s.heads,
          map k | k in s.links.Keys - {key} ::
            Link(if l.next == Some(k) then l.prev else s.links[k].prev,
                 if l.prev == Some(k) then l.next else s.links[k].next))
  }

  lemma UnspliceOk(s: Shape, key: nat)
    requires WellLinked(s) && key in s.links
    ensures WellLinked(Unsplice(s, key))
  {
    hide Bucket, LinkOk, HeadBelow, HeadOk, NoGap;
    var t := Unsplice(s, key);
    forall k | k in t.links
      ensures LinkOk(t, k) && HeadBelow(t, k)
    {
      UnspliceLink(s, key, k);
      UnspliceBelow(s, key, k);
    }
    forall b | 0 <= b < |t.heads|
      ensures HeadOk(t, b)
    {
      UnspliceHead(s, key, b);
    }
    forall j, k | j in t.links && k in t.links && j < k && Bucket(j, |t.heads|) == Bucket(k, |t.heads|)
      ensures NoGap(t, j, k)
    {
      UnspliceNoGap(s, key, j, k);
    }
  }

  lemma UnspliceLink(s: Shape, key: nat, k: nat)
    requires WellLinked(s) && key in s.links && k in s.links && k != key
    ensures LinkOk(Unsplice(s, key), k)
  {
    hide Bucket;
    assert LinkOk(s, key) && LinkOk(s, k);
  }

  lemma UnspliceBelow(s: Shape, key: nat, k: nat)
    requires WellLinked(s) && key in s.links && k in s.links && k != key
    ensures HeadBelow(Unsplice(s, key), k)
  {
    hide Bucket;
    assert LinkOk(s, key) && HeadBelow(s, k);
    assert key < k && Bucket(k, |s.heads|) == Bucket(key, |s.heads|) ==> NoGap(s, key, k);
  }

  lemma UnspliceHead(s: Shape, key: nat, b: nat)
    requires WellLinked(s) && key in s.links && b < |s.heads|
    ensures HeadOk(Unsplice(s, key), b)
  {
    hide Bucket;
    assert LinkOk(s, key) && HeadOk(s, b);
  }

  lemma UnspliceNoGap(s: Shape, key: nat, j: nat, k: nat)
    requires WellLinked(s) && key in s.links && j in s.links && k in s.links && j != key && k != key
    requires j < k && Bucket(j, |s.heads|) == Bucket(k, |s.heads|)
    ensures NoGap(Unsplice(s, key), j, k)
  {
    hide Bucket;
    assert LinkOk(s, key) && NoGap(s, j, k) && LinkOk(s, j);
    assert s.links[key].prev == Some(j) ==> NoGap(s, key, k);
  }

  // The keys from o on, in any bucket: what a walk from o can still meet.
  ghost function Above(s: Shape, o: Option<nat>): set<nat> {
    if o.None? then {} else set j | j in s.links && o.value <= j
  }

  lemma WalkDescends(s: Shape, k: nat)
    requires WellLinked(s) && k in s.links
    ensures LinkOk(s, k) && Above(s, s.links[k].next) < Above(s, Some(k))
  {
    assert LinkOk(s, k) && k in Above(s, Some(k)) && k !in Above(s, s.links[k].next);
  }

  // The keys met by following next links from o.
  ghost function Walk(s: Shape, o: Option<nat>): (c: seq<nat>)
    requires WellLinked(s) && (o.Some? ==> o.value in s.links)
    decreases Above(s, o)
  {
    if o.None? then [] else
      WalkDescends(s, o.value);
      [o.value] + Walk(s, s.links[o.value].next)
  }

  predicate Ascending(c: seq<nat>) {
    forall i, j | 0 <= i < j < |c| :: c[i] < c[j]
  }

  // A walk is strictly ascending, hence acyclic, and meets every key of the bucket from k on.
  lemma {:induction false} WalkFrom(s: Shape, k: nat)
    requires WellLinked(s) && k in s.links
    ensures Ascending(Walk(s, Some(k)))
    ensures forall j :: j in Walk(s, Some(k)) <==> InBucket(s, j, Bucket(k, |s.heads|)) && k <= j
    decreases Above(s, Some(k))
  {
    hide Bucket;
    WalkDescends(s, k);
    var next := s.links[k].next;
    if next.Some? {
      WalkFrom(s, next.value);
    }
    forall j | InBucket(s, j, Bucket(k, |s.heads|)) && k < j
      ensures next.Some? && next.value <= j
    {
      assert NoGap(s, k, j);
    }
    var rest := Walk(s, next);
    assert Walk(s, Some(k)) == [k] + rest;
    assert forall i | 0 <= i < |rest| :: rest[i] in rest;
  }

  // Every chain lists exactly the keys of its bucket, in strictly ascending order.
  lemma ChainSorted(s: Shape, b: nat)
    requires WellLinked(s) && b < |s.heads|
    ensures HeadOk(s, b)
    ensures Ascending(Walk(s, s.heads[b]))
    ensures forall j :: j in Walk(s, s.heads[b]) <==> InBucket(s, j, b)
  {
    assert HeadOk(s, b);
    if s.heads[b].Some? {
      WalkFrom(s, s.heads[b].value);
    }
    forall j | InBucket(s, j, b)
      ensures HeadBelow(s, j)
    {
    }
  }

  // The order of iteration: bucket number first, key second.
  predicate Before(size: nat, a: nat, b: nat)
    requires size > 0
  {
    Bucket(a, size) < Bucket(b, size) || (Bucket(a, size) == Bucket(b, size) && a < b)
  }

  // Where an iterator stands: on the node of a key, or at the head of a bucket.
  datatype Place = Place(idx: nat, key: Option<nat>)

  ghost predicate PlaceOk(s: Shape, p: Place)
    requires s.heads != []
  {
    if p.key.Some? then InBucket(s, p.key.value, p.idx) else p.idx <= |s.heads|
  }

  // The keys an iterator standing at p has not returned yet.
  ghost function Rest(s: Shape, p: Place): set<nat>
    requires s.heads != []
  {
    set k | k in s.links && if p.key.Some? then Before(|s.heads|, p.key.value, k) else p.idx <= Bucket(k, |s.heads|)
  }

  ghost predicate Least(size: nat, ks: set<nat>, k: nat)
    requires size > 0
  {
    k in ks && forall j | j in ks && j != k :: Before(size, k, j)
  }

  lemma RestAll(s: Shape)
    requires s.heads != []
    ensures PlaceOk(s, Place(0, None)) && Rest(s, Place(0, None)) == s.links.Keys
  {
  }

  lemma RestNone(s: Shape)
    requires s.heads != []
    ensures Rest(s, Place(|s.heads|, None)) == {}
  {
  }

  lemma StepOn(s: Shape, p: Place, k: nat)
    requires WellLinked(s) && PlaceOk(s, p)
    requires if p.key.Some? then s.links[p.key.value].next == Some(k)
             else p.idx < |s.heads| && s.heads[p.idx] == Some(k)
    ensures PlaceOk(s, Place(p.idx, Some(k))) && Least(|s.heads|, Rest(s, p), k)
    ensures Rest(s, Place(p.idx, Some(k))) == Rest(s, p) - {k}
  {
    hide Bucket;
    if p.key.Some? {
      assert LinkOk(s, p.key.value);
    } else {
      assert HeadOk(s, p.idx);
    }
    forall j | j in s.links && Bucket(j, |s.heads|) == p.idx && (p.key.Some? ==> p.key.value < j)
      ensures k <= j
    {
      if p.key.Some? {
        assert NoGap(s, p.key.value, j);
      } else {
        assert HeadBelow(s, j);
      }
    }
  }

  // Past the end of a chain the iterator stands at the next bucket.
  lemma StepOff(s: Shape, p: Place)
    requires WellLinked(s) && PlaceOk(s, p)
    requires if p.key.Some? then s.links[p.key.value].next.None? else p.idx < |s.heads| && s.heads[p.idx].None?
    ensures PlaceOk(s, Place(p.idx + 1, None)) && Rest(s, Place(p.idx + 1, None)) == Rest(s, p)
  {
    hide Bucket;
    assert forall j | j in s.links && Bucket(j, |s.heads|) == p.idx :: HeadBelow(s, j);
    forall j | j in s.links && Bucket(j, |s.heads|) == p.idx
      ensures p.key.Some? && j <= p.key.value
    {
      assert p.key.Some? && p.key.value < j ==> NoGap(s, p.key.value, j);
    }
  }

  ghost predicate Sorted(size: nat, keys: seq<nat>)
    requires size > 0
  {
    forall i, j | 0 <= i < j < |keys| :: Before(size, keys[i], keys[j])
  }

  // Keys below the size of the table are iterated in ascending order.
  lemma SmallKeysAscend(size: nat, keys: seq<nat>)
    requires size > 0 && Sorted(size, keys) && forall i | 0 <= i < |keys| :: keys[i] < size
    ensures Ascending(keys)
  {
    hide Bucket;
    forall i, j | 0 <= i < j < |keys|
      ensures keys[i] < keys[j]
    {
      BucketIs(0, keys[i], size);
      BucketIs(0, keys[j], size);
      assert Before(size, keys[i], keys[j]);
    }
  }

  // Of all keys, those in keys have been returned in order and those in left have not.
  ghost predicate Collected(size: nat, all: set<nat>, keys: seq<nat>, left: set<nat>)
    requires size > 0
  {
    && Sorted(size, keys)
    && (forall k :: k in all <==> k in keys || k in left)
    && (forall i, k | 0 <= i < |keys| && k in left :: Before(size, keys[i], k))
  }

  lemma Begin(size: nat, all: set<nat>)
    requires size > 0
    ensures Collected(size, all, [], all)
  {
  }

  lemma Complete(size: nat, all: set<nat>, keys: seq<nat>)
    requires size > 0 && Collected(size, all, keys, {})
    ensures Sorted(size, keys) && forall k :: k in keys <==> k in all
  {
  }

  lemma Collect(size: nat, all: set<nat>, keys: seq<nat>, left: set<nat>, k: nat)
    requires size > 0 && Collected(size, all, keys, left) && Least(size, left, k)
    ensures Collected(size, all, keys + [k], left - {k}) && left - {k} < left
  {
    hide Bucket;
  }

  function KeySet(keys: seq<nat>): set<nat> {
    set k | k in keys
  }

  lemma SortedDistinct(size: nat, keys: seq<nat>)
    requires size > 0 && Sorted(size, keys)
    ensures |KeySet(keys)| == |keys|
  {
    hide Bucket;
    assert forall i, j | 0 <= i < j < |keys| :: Before(size, keys[i], keys[j]) && keys[i] != keys[j];
    CountDistinct(keys);
  }

  lemma {:induction false} CountDistinct(keys: seq<nat>)
    requires forall i, j | 0 <= i < j < |keys| :: keys[i] != keys[j]
    ensures |KeySet(keys)| == |keys|
  {
    if keys == [] {
      assert KeySet(keys) == {};
    } else {
      var n := |keys| - 1;
      var front := keys[..n];
      CountDistinct(front);
      assert keys == front + [keys[n]];
      assert keys[n] !in KeySet(front) && KeySet(keys) == KeySet(front) + {keys[n]};
    }
  }
}
