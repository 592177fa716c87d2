/** The chained hash table of lib/cmpsc311_hashtable.c: an array of bucket heads and
    doubly linked chains, spliced in place. The ghost shape says which key every
    pointer leads to; module Links proves what the operations do to the shape. */
module HashTable {
  import opened Common
  import opened Links

  /** A node of a chain. The key and the block never change once the node is built. */
  class HtEntry<B> {
    const index: nat
    const block: B
    var prev: HtEntry?<B>
    var next: HtEntry?<B>

    constructor (index: nat, block: B)
      ensures this.index == index && this.block == block
      ensures prev == null && next == null
    {
      this.index, this.block := index, block;
      prev, next := null, null;
    }
  }

  function Pow2(n: nat): nat {
    if n == 0 then 1 else 2 * Pow2(n - 1)
  }

  lemma {:induction false} Pow2Bound(n: nat, m: nat)
    requires n <= m
    ensures 0 < Pow2(n) <= Pow2(m)
  {
    if n < m {
      Pow2Bound(n, m - 1);
    } else if n > 0 {
      Pow2Bound(n - 1, n - 1);
    }
  }

  lemma SmallPow2(n: nat)
    requires n < 16
    ensures 0 < Pow2(n) <= 0x8000
  {
    Pow2Bound(n, 15);
    assert Pow2(15) == 0x8000;
  }

  // The pointer n is what the shape calls o.
  predicate Leads<B>(at: map<nat, HtEntry<B>>, n: HtEntry?<B>, o: Option<nat>) {
    if o.None? then n == null else o.value in at && n == at[o.value]
  }

  function Key<B>(n: HtEntry?<B>): Option<nat> {
    if n == null then None else Some(n.index)
  }

  // The links of the node at[k] are those of the shape.
  ghost predicate NodeOk<B>(at: map<nat, HtEntry<B>>, shape: Shape, k: nat)
    requires k in at && k in shape.links
    reads at[k]
  {
    Leads(at, at[k].prev, shape.links[k].prev) && Leads(at, at[k].next, shape.links[k].next)
  }

  // at gives the node of every key; the pointers in the heap are those of the shape.
  ghost predicate Mirrors<B>(heads: array<HtEntry?<B>>, at: map<nat, HtEntry<B>>, shape: Shape, nodes: set<HtEntry<B>>)
    reads heads, nodes
  {
    && heads.Length == |shape.heads|
    && at.Keys == shape.links.Keys
    && (forall k | k in at :: at[k] in nodes && at[k].index == k)
    && (forall k {:trigger NodeOk(at, shape, k)} | k in at :: NodeOk(at, shape, k))
    && (forall i | 0 <= i < heads.Length :: Leads(at, heads[i], shape.heads[i]))
  }

  // What the nodes of a table store.
  ghost function Values<B>(at: map<nat, HtEntry<B>>): map<nat, B> {
    map k | k in at :: at[k].block
  }

  lemma ValuesMore<B>(at: map<nat, HtEntry<B>>, k: nat, n: HtEntry<B>)
    ensures Values(at[k := n]) == Values(at)[k := n.block]
  {
  }

  lemma ValuesLess<B>(at: map<nat, HtEntry<B>>, k: nat)
    ensures Values(at - {k}) == Values(at) - {k}
    ensures k !in at ==> at - {k} == at
  {
  }

  lemma ValueAt<B>(at: map<nat, HtEntry<B>>, k: nat)
    ensures k in Values(at) <==> k in at
    ensures k in at ==> Values(at)[k] == at[k].block
  {
  }

  class HTable<B> {
    var htTableSize: nat                 // uint16_t
    var elements: nat                    // uint32_t
    var hasHTable: array<HtEntry?<B>>
    ghost var at: map<nat, HtEntry<B>>   // the node of every key in the table
    ghost var shape: Shape
    ghost var nodes: set<HtEntry<B>>     // every node made so far

    // The abstract value of the table.
    ghost function Contents(): map<nat, B>
      reads this
    {
      Values(at)
    }

    ghost predicate Valid()
      reads this, hasHTable, nodes
    {
      && 0 < htTableSize == hasHTable.Length < 0x1_0000
      && Mirrors(hasHTable, at, shape, nodes)
      && WellLinked(shape)
      && Counts(elements, |at|)
    }

    lemma Counted()
      requires Valid()
      ensures 0 < htTableSize && Counts(elements, |at|)
    {
    }

    constructor (bits: nat)
      requires bits < 16
      ensures Valid() && fresh(hasHTable) && nodes == {}
      ensures htTableSize == Pow2(bits) && at == map[] && elements == 0
    {
      hide Bucket, WellLinked, Pow2;
      SmallPow2(bits);
      EmptyOk(Pow2(bits));
      htTableSize := Pow2(bits);
      elements := 0;
      hasHTable := new HtEntry?<B>[Pow2(bits)](_ => null);
      at, nodes, shape := map[], {}, Empty(Pow2(bits));
    }

    method Find(idx: nat) returns (r: Option<B>)
      requires Valid()
      ensures r == if idx in at then Some(Contents()[idx]) else None
      ensures r.Some? ==> r.value == at[idx].block
    {
      hide Bucket, Counts;
      var b := Bucket(idx, htTableSize);
      var cur := hasHTable[b];
      assert HeadOk(shape, b);
      assert idx in at ==> HeadBelow(shape, idx);
      while cur != null && cur.index <= idx
        invariant cur != null ==> InBucket(shape, cur.index, b) && at[cur.index] == cur
        invariant idx in at ==> cur != null && cur.index <= idx
        decreases if cur == null then 0 else idx - cur.index + 1
      {
        if cur.index == idx {
          return Some(cur.block);
        }
        assert NodeOk(at, shape, cur.index) && LinkOk(shape, cur.index);
        assert idx in at ==> NoGap(shape, cur.index, idx);
        cur := cur.next;
      }
      return None;
    }

    // The duplicate assertion of the original is the result ok == false.
    method Insert(idx: nat, blk: B) returns (ok: bool)
      requires Valid()
      modifies this, hasHTable, nodes
      ensures Valid() && hasHTable == old(hasHTable) && htTableSize == old(htTableSize)
      ensures fresh(nodes - old(nodes))
      ensures ok <==> idx !in old(at)
      ensures Contents() == if ok then old(Contents())[idx := blk] else old(Contents())
      ensures ok ==> idx in at && at == old(at)[idx := at[idx]] && at[idx].block == blk
      ensures !ok ==> at == old(at)
      ensures Counts(elements, |at|)
    {
      hide Bucket, WellLinked, Counts, Splice, Mirrors, Neighbours, Values;
      var dup := Find(idx);
      if dup.Some? {
        return false;
      }
      var last, cur := InsertPoint(idx);
      var entry := SpliceIn(hasHTable, at, shape, nodes, idx, blk, last, cur);
      CountsStep(elements, |at|, 1);
      SpliceOk(shape, idx, Key(last), Key(cur));
      elements := Add32(elements, 1);
      shape := Splice(shape, idx, Key(last), Key(cur));
      ValuesMore(at, idx, entry);
      at, nodes := at[idx := entry], nodes + {entry};
      return true;
    }

    // The walk of an insertion: the neighbours a new key will have in its chain.
    method InsertPoint(idx: nat) returns (last: HtEntry?<B>, cur: HtEntry?<B>)
      requires Valid() && idx !in at
      ensures shape.heads != [] && Neighbours(shape, idx, Key(last), Key(cur))
      ensures Leads(at, last, Key(last)) && Leads(at, cur, Key(cur))
    {
      hide Bucket;
      var b := Bucket(idx, htTableSize);
      last, cur := null, hasHTable[b];
      assert HeadOk(shape, b);
      if cur == null || cur.index >= idx {
        return;
      }
      assert NodeOk(at, shape, cur.index) && LinkOk(shape, cur.index);
      last, cur := cur, cur.next;
      while cur != null && cur.index < idx
        invariant last != null && InBucket(shape, last.index, b) && at[last.index] == last && last.index < idx
        invariant shape.links[last.index].next == Key(cur) && Leads(at, cur, Key(cur))
        invariant cur != null ==> LinkOk(shape, last.index)
        decreases idx - last.index
      {
        assert NodeOk(at, shape, cur.index) && LinkOk(shape, cur.index);
        last, cur := cur, cur.next;
      }
    }
  
    method Delete(idx: nat) returns (r: Option<B>)
      requires Valid()
      modifies this, hasHTable, nodes
      ensures Valid() && hasHTable == old(hasHTable) && htTableSize == old(htTableSize)
      ensures nodes <= old(nodes)
      ensures r == old(if idx in at then Some(Contents()[idx]) else None)
      ensures Contents() == old(Contents()) - {idx} && at == old(at) - {idx}
      ensures if r.None? then idx !in old(at) else idx in old(at) && r.value == old(at)[idx].block
      ensures r.None? ==> at == old(at)
      ensures Counts(elements, |at|)
    {
      hide Valid, Values;
      ValuesLess(at, idx);
      ValueAt(at, idx);
      Counted();
      var cur := FindNode(idx);
      if cur == null {
        return None;
      }
      Unhook(idx, cur);
      return Some(cur.block);
    }

    // The node found leaves its chain and is freed.
    method Unhook(idx: nat, cur: HtEntry<B>)
      requires Valid() && idx in at && cur == at[idx] && shape.heads != [] && at.Keys == shape.links.Keys
      modifies this, hasHTable, nodes
      ensures Valid() && hasHTable == old(hasHTable) && htTableSize == old(htTableSize)
      ensures nodes <= old(nodes) && at == old(at) - {idx} && Counts(elements, |at|)
    {
      hide Bucket, WellLinked, Counts, Unsplice, Mirrors;
      SpliceOut(hasHTable, at, shape, nodes, idx, cur);
      CountsStep(elements, |at|, 1);
      UnspliceOk(shape, idx);
      elements := Sub32(elements, 1);
      shape := Unsplice(shape, idx);
      at, nodes := at - {idx}, nodes - {cur};
    }

    // The walk of a deletion, to the end of the chain if need be.
    method FindNode(idx: nat) returns (cur: HtEntry?<B>)
      requires Valid()
      ensures if idx in at then cur == at[idx] else cur == null
      ensures shape.heads != [] && at.Keys == shape.links.Keys && forall k | k in at :: at[k] in nodes
    {
      hide Bucket, Counts;
      var b := Bucket(idx, htTableSize);
      cur := hasHTable[b];
      assert HeadOk(shape, b);
      assert idx in at ==> HeadBelow(shape, idx);
      ghost var left := Above(shape, Key(cur));
      while cur != null && cur.index != idx
        invariant cur != null ==> InBucket(shape, cur.index, b) && at[cur.index] == cur
        invariant idx in at ==> cur != null && cur.index <= idx
        decreases Above(shape, Key(cur))
      {
        assert NodeOk(at, shape, cur.index);
        WalkDescends(shape, cur.index);
        assert idx in at ==> NoGap(shape, cur.index, idx);
        cur := cur.next;
      }
    }
  }

  /** The resumable iterator: initHashTableIterator is the constructor. */
  class HtIterator<B> {
    var table: HTable<B>
    var idx: nat                // uint16_t
    var ptr: HtEntry?<B>

    constructor (ht: HTable<B>)
      requires ht.Valid()
      ensures table == ht && Valid() && Rest() == ht.at.Keys
    {
      table, idx, ptr := ht, 0, null;
      new;
      assert Rest() == ht.at.Keys;
    }

    // The iterator stands somewhere in the table, which has not changed under it.
    ghost predicate Valid()
      reads this, table, table.hasHTable, table.nodes
    {
      && table.Valid()
      && PlaceOk(table.shape, Place(idx, Key(ptr)))
      && Leads(table.at, ptr, Key(ptr))
    }

    // The keys whose blocks are still to be returned.
    ghost function Rest(): set<nat>
      requires Valid()
      reads this, table, table.hasHTable, table.nodes
    {
      Links.Rest(table.shape, Place(idx, Key(ptr)))
    }

    // One call returns the block of the least key not yet returned, or None at the end.
    method Iterate() returns (r: Option<B>, ghost k: nat)
      requires Valid()
      modifies this
      ensures Valid() && table == old(table)
      ensures r.None? <==> old(Rest()) == {}
      ensures r.None? ==> Rest() == {}
      ensures r.Some? ==> Least(table.htTableSize, old(Rest()), k) && Rest() == old(Rest()) - {k}
      ensures r.Some? ==> k in table.at && r.value == table.at[k].block
    {
      hide Valid, Rest, Least;
      if ptr != null {
        r, k := StepInChain();
        if r.Some? {
          return;
        }
      }
      r, k := FirstNonEmpty();
    }

    // On a live chain: its next node, or else the next bucket.
    method StepInChain() returns (r: Option<B>, ghost k: nat)
      requires Valid() && ptr != null
      modifies this
      ensures Valid() && table == old(table)
      ensures r.None? ==> ptr == null && Rest() == old(Rest())
      ensures r.Some? ==> old(Rest()) != {}
      ensures r.Some? ==> Least(table.htTableSize, old(Rest()), k) && Rest() == old(Rest()) - {k}
      ensures r.Some? ==> k in table.at && r.value == table.at[k].block
    {
      hide Bucket, WellLinked, Counts;
      ghost var shape := table.shape;
      assert NodeOk(table.at, shape, ptr.index);
      if ptr.next != null {
        StepOn(shape, Place(idx, Key(ptr)), ptr.next.index);
      } else {
        StepOff(shape, Place(idx, Key(ptr)));
      }
      ptr := ptr.next;
      if ptr != null {
        return Some(ptr.block), ptr.index;
      }
      idx := idx + 1;
      return None, 0;
    }

    // At the head of a bucket: the first list that is not empty.
    method FirstNonEmpty() returns (r: Option<B>, ghost k: nat)
      requires Valid() && ptr == null
      modifies this
      ensures Valid() && table == old(table)
      ensures r.None? <==> old(Rest()) == {}
      ensures r.None? ==> Rest() == {}
      ensures r.Some? ==> Least(table.htTableSize, old(Rest()), k) && Rest() == old(Rest()) - {k}
      ensures r.Some? ==> k in table.at && r.value == table.at[k].block
    {
      hide Bucket, WellLinked, Counts;
      ghost var shape, rest := table.shape, Rest();
      while idx < table.htTableSize
        invariant Valid() && table == old(table) && ptr == null && Rest() == rest
      {
        if table.hasHTable[idx] != null {
          StepOn(shape, Place(idx, None), table.hasHTable[idx].index);
          ptr := table.hasHTable[idx];
          return Some(ptr.block), ptr.index;
        }
        StepOff(shape, Place(idx, None));
        idx := idx + 1;
      }
      return None, 0;
    }
  }

  // keys lists the keys of the table once each, in the order of iteration, with their blocks.
  ghost predicate Enumerates<B>(size: nat, at: map<nat, HtEntry<B>>, keys: seq<nat>, blocks: seq<B>)
    requires size > 0
  {
    && Sorted(size, keys)
    && (forall k :: k in keys <==> k in at)
    && BlocksOf(at, keys, blocks)
  }

  ghost predicate BlocksOf<B>(at: map<nat, HtEntry<B>>, keys: seq<nat>, blocks: seq<B>) {
    |blocks| == |keys| && forall i | 0 <= i < |keys| :: keys[i] in at && blocks[i] == at[keys[i]].block
  }

  lemma NoBlocks<B>(at: map<nat, HtEntry<B>>)
    ensures BlocksOf(at, [], [])
  {
  }

  lemma BlocksOfMore<B>(at: map<nat, HtEntry<B>>, keys: seq<nat>, blocks: seq<B>, k: nat)
    requires k in at
    ensures BlocksOf(at, keys, blocks) ==> BlocksOf(at, keys + [k], blocks + [at[k].block])
  {
  }

  lemma EnumerationSize<B>(size: nat, at: map<nat, HtEntry<B>>, keys: seq<nat>, blocks: seq<B>)
    requires size > 0 && Enumerates(size, at, keys, blocks)
    ensures |blocks| == |at|
  {
    SortedDistinct(size, keys);
    assert KeySet(keys) == at.Keys;
  }

  lemma NothingLeft<B>(size: nat, keys: seq<nat>, blocks: seq<B>)
    requires size > 0 && Enumerates(size, map[], keys, blocks)
    ensures blocks == []
  {
    EnumerationSize(size, map[], keys, blocks);
  }

  // Collecting what an iterator returns until it returns None.
  method IterateAll<B>(ht: HTable<B>) returns (blocks: seq<B>, ghost keys: seq<nat>)
    requires ht.Valid()
    ensures Enumerates(ht.htTableSize, ht.at, keys, blocks) && Counts(ht.elements, |blocks|)
    ensures (forall k :: k in ht.at ==> k < ht.htTableSize) ==> Ascending(keys)
  {
    hide Bucket, WellLinked, Counts, Collected, BlocksOf, Least, Mirrors, PlaceOk, Links.Rest;
    hide HtIterator.Valid, HTable.Valid;
    ht.Counted();
    Begin(ht.htTableSize, ht.at.Keys);
    NoBlocks(ht.at);
    blocks, keys := [], [];
    var it := new HtIterator(ht);
    ghost var left := it.Rest();
    var r, k := it.Iterate();
    while r.Some?
      invariant it.Valid() && fresh(it) && it.table == ht
      invariant if r.None? then left == {} else Least(ht.htTableSize, left, k) && it.Rest() == left - {k}
      invariant r.Some? ==> k in ht.at && r.value == ht.at[k].block
      invariant Collected(ht.htTableSize, ht.at.Keys, keys, left)
      invariant BlocksOf(ht.at, keys, blocks)
      decreases left
    {
      Collect(ht.htTableSize, ht.at.Keys, keys, left, k);
      BlocksOfMore(ht.at, keys, blocks, k);
      blocks, keys, left := blocks + [r.value], keys + [k], it.Rest();
      r, k := it.Iterate();
    }
    Complete(ht.htTableSize, ht.at.Keys, keys);
    EnumerationSize(ht.htTableSize, ht.at, keys, blocks);
    if forall k :: k in ht.at ==> k < ht.htTableSize {
      assert forall i | 0 <= i < |keys| :: keys[i] in keys;
      SmallKeysAscend(ht.htTableSize, keys);
    }
  }

  // Freeing every block and every node: no block is freed twice and none is left behind.
  method Cleanup<B>(ht: HTable<B>) returns (freed: seq<B>, ghost keys: seq<nat>)
    requires ht.Valid()
    modifies ht, ht.hasHTable
    ensures Enumerates(old(ht.htTableSize), old(ht.at), keys, freed)
    ensures ht.at == map[] && ht.nodes == {}
    ensures ht.hasHTable == old(ht.hasHTable) && forall i | 0 <= i < ht.hasHTable.Length :: ht.hasHTable[i] == null
  {
    hide Bucket, WellLinked, Counts, Collected, Before, BlocksOf, PlaceOk, Links.Rest, Least;
    ghost var size, all := ht.htTableSize, ht.at.Keys;
    freed, keys := [], [];
    Begin(size, all);
    NoBlocks(ht.at);
    RestAll(ht.shape);
    for i := 0 to ht.htTableSize
      invariant ht.htTableSize == size && ht.hasHTable == old(ht.hasHTable) && ht.at == old(ht.at)
      invariant ht.shape == old(ht.shape) && ht.nodes == old(ht.nodes)
      invariant forall j | 0 <= j < i :: ht.hasHTable[j] == null
      invariant forall j | i <= j < size :: ht.hasHTable[j] == old(ht.hasHTable[j])
      invariant PlaceOk(ht.shape, Place(i, None)) && Collected(size, all, keys, Links.Rest(ht.shape, Place(i, None)))
      invariant BlocksOf(ht.at, keys, freed)
    {
      freed, keys := FreeChain(ht.at, ht.shape, i, ht.hasHTable[i], freed, keys);
      ht.hasHTable[i] := null;
    }
    RestNone(ht.shape);
    Complete(size, all, keys);
    ht.at, ht.nodes := map[], {};
  }

  // The walk down the chain of bucket b that frees its nodes.
  method FreeChain<B>(ghost at: map<nat, HtEntry<B>>, ghost shape: Shape, b: nat, head: HtEntry?<B>,
                      freed0: seq<B>, ghost keys0: seq<nat>)
    returns (freed: seq<B>, ghost keys: seq<nat>)
    requires WellLinked(shape) && b < |shape.heads| && at.Keys == shape.links.Keys
    requires forall k | k in at :: at[k].index == k
    requires forall k {:trigger NodeOk(at, shape, k)} | k in at :: NodeOk(at, shape, k)
    requires Leads(at, head, shape.heads[b]) && (head != null ==> shape.heads[b] == Some(head.index))
    requires Collected(|shape.heads|, at.Keys, keys0, Links.Rest(shape, Place(b, None))) && BlocksOf(at, keys0, freed0)
    ensures PlaceOk(shape, Place(b + 1, None))
    ensures Collected(|shape.heads|, at.Keys, keys, Links.Rest(shape, Place(b + 1, None))) && BlocksOf(at, keys, freed)
  {
    hide Bucket, WellLinked, Collected, Before, BlocksOf, Links.Rest;
    freed, keys := freed0, keys0;
    var cur := head;
    ghost var p := Place(b, None);
    while cur != null
      invariant p.idx == b && PlaceOk(shape, p)
      invariant if p.key.Some? then p.key.value in at && shape.links[p.key.value].next == Key(cur)
                else shape.heads[b] == Key(cur)
      invariant cur != null ==> cur.index in at && at[cur.index] == cur
      invariant Collected(|shape.heads|, at.Keys, keys, Links.Rest(shape, p)) && BlocksOf(at, keys, freed)
      decreases Links.Rest(shape, p)
    {
      StepOn(shape, p, cur.index);
      Collect(|shape.heads|, at.Keys, keys, Links.Rest(shape, p), cur.index);
      BlocksOfMore(at, keys, freed, cur.index);
      freed, keys, p := freed + [cur.block], keys + [cur.index], Place(b, Some(cur.index));
      assert NodeOk(at, shape, cur.index);
      cur := cur.next;
    }
    StepOff(shape, p);
  }

  // A new node between last and cur.
  method SpliceIn<B>(heads: array<HtEntry?<B>>, ghost at: map<nat, HtEntry<B>>, ghost shape: Shape,
                     ghost nodes: set<HtEntry<B>>, idx: nat, blk: B, last: HtEntry?<B>, cur: HtEntry?<B>)
    returns (entry: HtEntry<B>)
    requires 0 < heads.Length && Mirrors(heads, at, shape, nodes)
    requires Neighbours(shape, idx, Key(last), Key(cur))
    requires Leads(at, last, Key(last)) && Leads(at, cur, Key(cur))
    modifies heads, nodes
    ensures fresh(entry) && entry.block == blk
    ensures Mirrors(heads, at[idx := entry], Splice(shape, idx, Key(last), Key(cur)), nodes + {entry})
  {
    hide Bucket;
    entry := new HtEntry(idx, blk);
    Relink(heads, Bucket(idx, heads.Length), entry, last, cur, nodes);
    ghost var at', shape' := at[idx := entry], Splice(shape, idx, Key(last), Key(cur));
    forall k | k in at'
      ensures NodeOk(at', shape', k)
    {
      if k != idx {
        assert old(NodeOk(at, shape, k));
        NodeSpliced(at, shape, idx, entry, last, cur, k, old(at[k].prev), old(at[k].next));
      }
    }
    forall i | 0 <= i < heads.Length
      ensures Leads(at', heads[i], shape'.heads[i])
    {
    }
  }

  // A node of the table after an insertion; prev and next are its links before it.
  lemma NodeSpliced<B>(at: map<nat, HtEntry<B>>, shape: Shape, idx: nat, entry: HtEntry<B>,
                       last: HtEntry?<B>, cur: HtEntry?<B>, k: nat, prev: HtEntry?<B>, next: HtEntry?<B>)
    requires shape.heads != [] && k in at && k in shape.links && k != idx && at[k].index == k && entry.index == idx
    requires Leads(at, last, Key(last)) && Leads(at, cur, Key(cur)) && idx !in at
    requires Leads(at, prev, shape.links[k].prev) && Leads(at, next, shape.links[k].next)
    requires at[k].prev == if at[k] == cur then entry else prev
    requires at[k].next == if at[k] == last then entry else next
    ensures k in Splice(shape, idx, Key(last), Key(cur)).links
    ensures NodeOk(at[idx := entry], Splice(shape, idx, Key(last), Key(cur)), k)
  {
    hide Bucket;
  }

  // The pointer updates of an insertion.
  method Relink<B>(heads: array<HtEntry?<B>>, b: nat, entry: HtEntry<B>, last: HtEntry?<B>, cur: HtEntry?<B>,
                   ghost nodes: set<HtEntry<B>>)
    requires b < heads.Length && entry !in nodes
    requires (last == null || last in nodes) && (cur == null || cur in nodes)
    modifies heads, entry, last, cur
    ensures entry.prev == last && entry.next == cur
    ensures forall n | n in nodes ::
      n.prev == (if n == cur then entry else old(n.prev)) && n.next == if n == last then entry else old(n.next)
    ensures forall i | 0 <= i < heads.Length :: heads[i] == if last == null && i == b then entry else old(heads[i])
  {
    entry.prev := last;
    entry.next := cur;
    if last == null {
      heads[b] := entry;
    } else {
      last.next := entry;
    }
    if cur != null {
      cur.prev := entry;
    }
  }

  // The node of idx leaves its chain and is freed.
  method SpliceOut<B>(heads: array<HtEntry?<B>>, ghost at: map<nat, HtEntry<B>>, ghost shape: Shape,
                      ghost nodes: set<HtEntry<B>>, idx: nat, cur: HtEntry<B>)
    requires 0 < heads.Length && Mirrors(heads, at, shape, nodes) && WellLinked(shape)
    requires idx in at && cur == at[idx]
    modifies heads, nodes
    ensures Mirrors(heads, at - {idx}, Unsplice(shape, idx), nodes - {cur})
  {
    hide Bucket;
    assert NodeOk(at, shape, idx) && LinkOk(shape, idx);
    Unlink(heads, Bucket(idx, heads.Length), cur, nodes);
    ghost var at', shape' := at - {idx}, Unsplice(shape, idx);
    forall k | k in at'
      ensures NodeOk(at', shape', k)
    {
      assert old(NodeOk(at, shape, k)) && LinkOk(shape, k);
      NodeUnspliced(at, shape, idx, cur, old(cur.prev), old(cur.next), k, old(at[k].prev), old(at[k].next));
    }
    forall i | 0 <= i < heads.Length
      ensures Leads(at', heads[i], shape'.heads[i])
    {
      assert HeadOk(shape, i);
    }
  }

  // A node of the table after a deletion; the pointers named are those before it.
  lemma NodeUnspliced<B>(at: map<nat, HtEntry<B>>, shape: Shape, idx: nat, cur: HtEntry<B>,
                         curPrev: HtEntry?<B>, curNext: HtEntry?<B>, k: nat, prev: HtEntry?<B>, next: HtEntry?<B>)
    requires shape.heads != [] && at.Keys == shape.links.Keys && idx in at && at[idx] == cur && k in at && k != idx
    requires cur.index == idx && at[k].index == k
    requires Leads(at, curPrev, shape.links[idx].prev) && Leads(at, curNext, shape.links[idx].next)
    requires Leads(at, prev, shape.links[k].prev) && Leads(at, next, shape.links[k].next)
    requires curPrev != null ==> curPrev.index == shape.links[idx].prev.value
    requires curNext != null ==> curNext.index == shape.links[idx].next.value
    requires at[k].prev == if at[k] == curNext then curPrev else prev
    requires at[k].next == if at[k] == curPrev then curNext else next
    requires LinkOk(shape, k) && LinkOk(shape, idx)
    ensures k in Unsplice(shape, idx).links && NodeOk(at - {idx}, Unsplice(shape, idx), k)
  {
    hide Bucket;
  }

  // The pointer updates of a deletion.
  method Unlink<B>(heads: array<HtEntry?<B>>, b: nat, cur: HtEntry<B>, ghost nodes: set<HtEntry<B>>)
    requires b < heads.Length && cur in nodes && cur.prev != cur && cur.next != cur
    requires (cur.prev == null || cur.prev in nodes) && (cur.next == null || cur.next in nodes)
    modifies heads, cur.prev, cur.next
    ensures forall n | n in nodes ::
      && n.prev == (if n == old(cur.next) then old(cur.prev) else old(n.prev))
      && n.next == (if n == old(cur.prev) then old(cur.next) else old(n.next))
    ensures forall i | 0 <= i < heads.Length ::
      heads[i] == old(if i == b && heads[b] == cur then cur.next else heads[i])
  {
    if cur == heads[b] {
      heads[b] := cur.next;
    }
    if cur.prev != null {
      cur.prev.next := cur.next;
    }
    if cur.next != null {
      cur.next.prev := cur.prev;
    }
  }
}
