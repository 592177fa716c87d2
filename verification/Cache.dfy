/** The cache of lib/cmpsc311_cache.c over the chained hash table. Every operation is
    proved to do what Step says for the policy the code computes. */
module Cache {
  import opened Common
  import opened Links
  import opened HashTable
  import opened CacheSpec
  import opened CacheRuns

  class CacheEntry {
    const cid: uint32
    const size: uint32
    const buf: Buffer
    var lastUsed: Timeval

    constructor (cid: uint32, size: uint32, buf: Buffer, now: Timeval)
      ensures this.cid == cid && this.size == size && this.buf == buf && lastUsed == now
    {
      this.cid, this.size, this.buf, lastUsed := cid, size, buf, now;
    }
  }

  // The entries stored in the table are those of items.
  ghost predicate Stores(at: map<nat, HtEntry<CacheEntry>>, items: Items, entries: set<CacheEntry>)
    reads entries
  {
    at.Keys == items.Keys && forall k | k in items :: StoresAt(at, items, entries, k)
  }

  ghost predicate StoresAt(at: map<nat, HtEntry<CacheEntry>>, items: Items, entries: set<CacheEntry>, k: nat)
    requires k in at && k in items
    reads entries
  {
    var e := at[k].block;
    e in entries && e.cid == k && items[k] == Rec(e.size, e.buf, e.lastUsed)
  }

  lemma SameKeys(at: map<nat, HtEntry<CacheEntry>>, items: Items, entries: set<CacheEntry>)
    requires Stores(at, items, entries)
    ensures at.Keys == items.Keys
  {
  }

  lemma OwnKey(at: map<nat, HtEntry<CacheEntry>>, items: Items, entries: set<CacheEntry>, k: nat)
    requires Stores(at, items, entries) && k in items
    ensures k in at && StoresAt(at, items, entries, k)
  {
  }

  // The scan of the eject: the entry kept is the first of those the policy prefers.
  method Scan(ht: HTable<CacheEntry>, ghost items: Items, ghost entries: set<CacheEntry>)
    returns (entry: CacheEntry?)
    requires ht.Valid() && ht.htTableSize == TABLE_SIZE && Stores(ht.at, items, entries)
    ensures entry == null <==> items == map[]
    ensures entry != null ==> entry.cid in items && ht.at[entry.cid].block == entry
    ensures entry != null ==> entry.cid == Victim(AS_WRITTEN, items)
  {
    hide Bucket, WellLinked, Counts, Scanned, Least, CompareTimes, Stores;
    hide HtIterator.Valid, HTable.Valid, HashTable.Mirrors, PlaceOk, Links.Rest;
    entry := null;
    ghost var kept: Option<nat> := None;
    var it := new HtIterator(ht);
    ghost var left := it.Rest();
    SameKeys(ht.at, items, entries);
    NothingScanned(items);
    var ref: Option<CacheEntry>;
    ghost var k: nat;
    ref, k := it.Iterate();
    while ref.Some?
      invariant it.Valid() && fresh(it) && it.table == ht
      invariant ref.Some? ==> Least(TABLE_SIZE, left, k) && it.Rest() == left - {k}
      invariant ref.Some? ==> k in items && ref.value == ht.at[k].block
      invariant ref.None? ==> left == {}
      invariant if kept.None? then entry == null else kept.value in items && entry == ht.at[kept.value].block
      invariant Scanned(items, left, kept)
      decreases left
    {
      ScanOne(items, left, k, kept);
      var newer := Supersedes(ht.at, items, entries, ref.value, entry, k, kept);
      if newer {
        entry, kept := ref.value, Some(k);
      }
      left := it.Rest();
      ref, k := it.Iterate();
    }
    AllScanned(items, kept);
    if kept.Some? {
      OwnKey(ht.at, items, entries, kept.value);
    }
  }

  // What a fresh iterator returns first.
  method FirstEntry(ht: HTable<CacheEntry>, ghost items: Items, ghost entries: set<CacheEntry>)
    returns (ref: Option<CacheEntry>)
    requires ht.Valid() && Stores(ht.at, items, entries)
    ensures ref.None? <==> items == map[]
    ensures ref.Some? ==> ref.value.cid in items && ht.at[ref.value.cid].block == ref.value
  {
    hide Bucket, WellLinked, Counts, Least, Stores;
    hide HtIterator.Valid, HTable.Valid, HashTable.Mirrors, PlaceOk, Links.Rest;
    SameKeys(ht.at, items, entries);
    var it := new HtIterator(ht);
    ghost var k;
    ref, k := it.Iterate();
    if ref.Some? {
      OwnKey(ht.at, items, entries, k);
    }
  }

  // The test of the scan, on the entries and on what they stand for.
  method Supersedes(ghost at: map<nat, HtEntry<CacheEntry>>, ghost items: Items, ghost entries: set<CacheEntry>,
                    ref: CacheEntry, entry: CacheEntry?, ghost k: nat, ghost kept: Option<nat>)
    returns (newer: bool)
    requires Stores(at, items, entries) && k in items && ref == at[k].block
    requires if kept.None? then entry == null else kept.value in items && entry == at[kept.value].block
    ensures newer <==> kept.None? || CompareTimes(items[k].lastUsed, items[kept.value].lastUsed) < 0
  {
    assert StoresAt(at, items, entries, k);
    assert kept.Some? ==> StoresAt(at, items, entries, kept.value);
    newer := entry == null || CompareTimes(ref.lastUsed, entry.lastUsed) < 0;
  }

  // All items but those of left have been met, in order, and v is the one kept so far.
  ghost predicate Scanned(items: Items, left: set<nat>, v: Option<nat>) {
    && left <= items.Keys
    && (forall a, b | a in items && a !in left && b in left :: Before(TABLE_SIZE, a, b))
    && (if v.None? then left == items.Keys else v.value in items && v.value !in left)
    && (v.Some? && v.value in items ==>
          forall c | c in items && c !in left && c != v.value :: Beats(AS_WRITTEN, items, v.value, c))
  }

  lemma NothingScanned(items: Items)
    ensures Scanned(items, items.Keys, None)
  {
  }

  lemma ScanOne(items: Items, left: set<nat>, k: nat, v: Option<nat>)
    requires Scanned(items, left, v) && Least(TABLE_SIZE, left, k)
    ensures k in items && left - {k} < left
    ensures Scanned(items, left - {k},
                    if v.None? || CompareTimes(items[k].lastUsed, items[v.value].lastUsed) < 0 then Some(k) else v)
  {
    hide Bucket;
  }

  lemma AllScanned(items: Items, v: Option<nat>)
    requires Scanned(items, {}, v)
    ensures v.None? <==> items == map[]
    ensures v.Some? ==> v.value == Victim(AS_WRITTEN, items)
  {
    if v.Some? {
      VictimUnique(AS_WRITTEN, items, v.value);
    }
  }

  // The totals kept beside the table.
  ghost predicate Totals(items: Items, currentItems: int, currentSize: int) {
    currentItems == |items| && Counts(currentSize, Size(items))
  }

  // One entry for each item, and none of them freed.
  ghost predicate Accounted(items: Items, entries: set<CacheEntry>, released: set<CacheEntry>) {
    |entries| == |items| && entries !! released
  }

  lemma AccountedLess(items: Items, entries: set<CacheEntry>, released: set<CacheEntry>, k: nat, e: CacheEntry)
    requires Accounted(items, entries, released) && k in items && e in entries
    ensures e !in released && Accounted(items - {k}, entries - {e}, released + {e})
  {
    assert items.Keys - {k} == (items - {k}).Keys;
  }

  lemma AccountedMore(items: Items, entries: set<CacheEntry>, released: set<CacheEntry>, k: nat, r: Rec, e: CacheEntry)
    requires Accounted(items, entries, released) && e !in entries && e !in released
    ensures k !in items ==> Accounted(items[k := r], entries + {e}, released)
  {
    assert (items[k := r]).Keys == items.Keys + {k};
  }

  lemma AccountedTouched(items: Items, entries: set<CacheEntry>, released: set<CacheEntry>, k: nat, r: Rec)
    requires Accounted(items, entries, released) && k in items
    ensures Accounted(items[k := r], entries, released)
  {
    assert (items[k := r]).Keys == items.Keys;
  }

  // The table, the counters and the ghost state beside them.
  ghost predicate Agrees(at: map<nat, HtEntry<CacheEntry>>, items: Items, entries: set<CacheEntry>,
                         released: set<CacheEntry>, currentItems: int, currentSize: int)
    reads entries
  {
    && Stores(at, items, entries)
    && Totals(items, currentItems, currentSize)
    && Accounted(items, entries, released)
  }

  lemma Parts(at: map<nat, HtEntry<CacheEntry>>, items: Items, entries: set<CacheEntry>,
              released: set<CacheEntry>, currentItems: int, currentSize: int)
    requires Agrees(at, items, entries, released, currentItems, currentSize)
    ensures Stores(at, items, entries) && Totals(items, currentItems, currentSize) && at.Keys == items.Keys
  {
  }

  lemma OwnEntry(at: map<nat, HtEntry<CacheEntry>>, items: Items, entries: set<CacheEntry>,
                 released: set<CacheEntry>, currentItems: int, currentSize: int, k: nat)
    requires Agrees(at, items, entries, released, currentItems, currentSize) && k in at
    ensures at[k].block in entries
  {
    OwnKey(at, items, entries, k);
  }

  class Cache {
    var initialized: bool
    var maxItems: uint32
    var maxSize: uint32
    var currentItems: uint32
    var currentSize: uint32
    var htable: HTable?<CacheEntry>
    ghost var items: Items
    ghost var entries: set<CacheEntry>
    ghost var freed: multiset<Buffer>  // every buffer passed to free
    ghost var released: set<CacheEntry>  // every entry passed to free
    ghost var repr: set<object>

    ghost predicate Valid()
      reads this, repr
    {
      && this in repr && entries <= repr
      && (initialized ==>
          && htable != null && htable in repr && htable.hasHTable in repr && htable.nodes <= repr
          && htable.Valid() && htable.htTableSize == TABLE_SIZE
          && Agrees(htable.at, items, entries, released, currentItems, currentSize)
          && 0 < maxItems && 0 < maxSize && currentItems <= maxItems)
    }

    ghost function Abs(): State
      reads this
    {
      if initialized then Open(maxItems, maxSize, items) else Closed
    }

    constructor ()
      ensures Valid() && Abs() == Closed && freed == multiset{} && fresh(repr)
    {
      initialized, maxItems, maxSize, currentItems, currentSize := false, 0, 0, 0, 0;
      htable, items, entries, freed, released, repr := null, map[], {}, multiset{}, {}, {this};
    }

    method Init(maxItems: uint32, maxSize: uint32) returns (r: Reply)
      requires Valid()
      modifies this
      ensures Valid() && fresh(repr - old(repr))
      ensures Outcome(Abs(), r, freed) == Effect(old(Abs()), CacheRuns.Init(maxItems, maxSize), old(freed))
    {
      hide Bucket, WellLinked, HashTable.Mirrors, Counts, HTable.Contents, HTable.Valid;
      hide Stores, StoresAt, Totals, Accounted, Agrees, Effect;
      InitEffect(Abs(), maxItems, maxSize, freed);
      if initialized || maxItems == 0 || maxSize == 0 {
        return Status(-1);
      }
      Start(maxItems, maxSize);
      return Status(0);
    }

    method Start(maxItems: uint32, maxSize: uint32)
      requires Valid() && 0 < maxItems && 0 < maxSize
      modifies this
      ensures Valid() && fresh(repr - old(repr)) && freed == old(freed)
      ensures SameLimits(true, maxItems, maxSize) && items == map[]
    {
      hide HTable.Valid, Agrees, Valid;
      OwnObject();
      Reset(maxItems, maxSize);
      var ht := NewTable();
      Attach(ht);
    }

    lemma OwnObject()
      requires Valid()
      ensures this in repr
    {
    }

    // The limits and the counters of a cache with nothing in it.
    method Reset(maxItems: uint32, maxSize: uint32)
      modifies this
      ensures this.maxItems == maxItems && this.maxSize == maxSize && currentItems == 0 && currentSize == 0
      ensures items == map[] && entries == {}
      ensures repr == old(repr) && freed == old(freed) && released == old(released)
    {
      this.maxItems, this.maxSize, currentItems, currentSize := maxItems, maxSize, 0, 0;
      items, entries := map[], {};
    }

    // Its new table.
    method Attach(ht: HTable<CacheEntry>)
      requires ht.Valid() && ht.htTableSize == TABLE_SIZE && ht.nodes == {} && ht.at == map[]
      requires 0 < maxItems && 0 < maxSize && currentItems == 0 && currentSize == 0 && items == map[] && entries == {}
      modifies `htable, `repr, `initialized
      ensures Valid() && repr == {this, ht, ht.hasHTable} && initialized
    {
      hide Bucket, WellLinked, HashTable.Mirrors, Counts, HTable.Contents, HTable.Valid;
      hide Stores, StoresAt, Totals, Accounted, Agrees;
      NothingAgrees(released);
      htable, repr, initialized := ht, {this, ht, ht.hasHTable}, true;
    }

    method Get(cid: uint32, now: Timeval) returns (r: Reply)
      requires Valid()
      modifies repr
      ensures Valid() && repr == old(repr)
      ensures Outcome(Abs(), r, freed) == Effect(old(Abs()), CacheRuns.Get(cid, now), old(freed))
      ensures initialized && cid in old(items) ==> cid in items && items[cid].lastUsed == now
    {
      hide Bucket, WellLinked, HashTable.Mirrors, Counts, HTable.Contents, HTable.Valid;
      hide Stores, StoresAt, Totals, Accounted, Agrees, PutStep, InitStep, DeleteStep, CloseStep;
      if !initialized {
        return Handle(NULL);
      }
      Parts(htable.at, items, entries, released, currentItems, currentSize);
      var ref := htable.Find(cid);
      if ref.None? {
        return Handle(NULL);
      }
      OwnEntry(htable.at, items, entries, released, currentItems, currentSize, cid);
      Touch(htable.at, items, entries, released, currentItems, currentSize, ref.value, cid, now);
      items := items[cid := items[cid].(lastUsed := now)];
      return Handle(ref.value.buf);
    }

    method Delete(cid: uint32) returns (r: Reply)
      requires Valid()
      modifies repr
      ensures Valid() && repr == old(repr)
      ensures Outcome(Abs(), r, freed) == Effect(old(Abs()), CacheRuns.Delete(cid), old(freed))
    {
      hide Bucket, WellLinked, HashTable.Mirrors, Counts, HTable.Contents, HTable.Valid;
      hide Stores, StoresAt, Totals, Accounted, Agrees, Effect;
      DeleteEffect(Abs(), cid, freed);
      if !initialized {
        return Handle(NULL);
      }
      var ref := TakeOut(cid);
      return Handle(if ref == null then NULL else ref.buf);
    }

    // What delete, eject and close all begin with: the entry leaves the table and the counters
    // and is freed. The buffer is left to the caller.
    method TakeOut(cid: uint32) returns (entry: CacheEntry?)
      requires Valid() && initialized
      modifies repr
      ensures Valid() && repr == old(repr) && SameLimits(true, old(maxItems), old(maxSize))
      ensures htable == old(htable) && freed == old(freed)
      ensures entry == null <==> cid !in old(items)
      ensures entry != null ==> entry == old(htable.at[cid].block)
      ensures entry == null ==> items == old(items) && currentItems == old(currentItems)
      ensures entry == null ==> entries == old(entries) && released == old(released)
      ensures entry != null ==> entry.buf == old(items)[cid].buf && items == old(items) - {cid}
      ensures entry != null ==> currentItems == old(currentItems) - 1 && entry in old(entries)
      ensures entry != null ==> entries == old(entries) - {entry} && released == old(released) + {entry}
    {
      hide Bucket, WellLinked, HashTable.Mirrors, Counts, HTable.Contents, HTable.Valid;
      hide Stores, StoresAt, Totals, Accounted, Agrees;
      Parts(htable.at, items, entries, released, currentItems, currentSize);
      if cid in items {
        AgreesLess(htable.at, items, entries, released, currentItems, currentSize, cid);
      }
      var ref := htable.Delete(cid);
      if ref.None? {
        return null;
      }
      Forget(ref.value);
      return ref.value;
    }

    // Eject one entry; the loops of put and close never meet its error exits.
    method Eject() returns (rc: int)
      requires Valid()
      modifies repr
      ensures Valid() && repr == old(repr) && SameLimits(old(initialized), old(maxItems), old(maxSize))
      ensures rc == if initialized && old(items) != map[] then 0 else -1
      ensures rc == -1 ==> items == old(items) && freed == old(freed)
      ensures rc == 0 ==> var v := Victim(AS_WRITTEN, old(items));
        items == old(items) - {v} && freed == old(freed) + multiset{old(items)[v].buf}
        && currentItems < old(currentItems)
    {
      hide Bucket, WellLinked, HashTable.Mirrors, Counts, HTable.Contents, HTable.Valid;
      hide Stores, StoresAt, Totals, Accounted, Agrees, IsVictim;
      if !initialized {
        return -1;
      }
      Parts(htable.at, items, entries, released, currentItems, currentSize);
      var entry := Scan(htable, items, entries);
      if entry == null {
        return -1;
      }
      var chk := TakeOut(entry.cid);
      freed := freed + multiset{chk.buf};
      return 0;
    }

    ghost predicate SameLimits(initialized: bool, maxItems: uint32, maxSize: uint32)
      reads this
    {
      this.initialized == initialized && this.maxItems == maxItems && this.maxSize == maxSize
    }

    // The eject loop of put.
    method MakeRoom(len: uint32)
      requires Valid() && initialized && 0 < len <= maxSize
      modifies repr
      ensures Valid() && repr == old(repr) && SameLimits(true, old(maxItems), old(maxSize))
      ensures items == EjectUntilFits(AS_WRITTEN, maxItems, maxSize, old(items), len)
      ensures currentItems < maxItems
      ensures freed == old(freed) + (Bufs(old(items)) - Bufs(items))
    {
      hide Bucket, WellLinked, HashTable.Mirrors, Counts, HTable.Contents, HTable.Valid;
      hide Stores, StoresAt, Totals, Accounted, Agrees, IsVictim, Size, Bufs, Add32, EjectUntilFits;
      ghost var items0 := items;
      while currentItems >= maxItems || Add32(currentSize, len) > maxSize
        invariant Valid() && repr == old(repr) && SameLimits(true, old(maxItems), old(maxSize))
        invariant EjectUntilFits(AS_WRITTEN, maxItems, maxSize, items, len)
               == EjectUntilFits(AS_WRITTEN, maxItems, maxSize, items0, len)
        invariant freed + Bufs(items) == old(freed) + Bufs(items0)
        decreases currentItems
      {
        Parts(htable.at, items, entries, released, currentItems, currentSize);
        Crowded(items, currentItems, currentSize, maxItems, maxSize, len);
        var rc := Eject();
        assert rc == 0;
      }
      Parts(htable.at, items, entries, released, currentItems, currentSize);
      Roomy(items, currentItems, currentSize, maxItems, maxSize, len);
      EjectShrinks(AS_WRITTEN, maxItems, maxSize, items0, len);
      Difference(freed, Bufs(items), old(freed), Bufs(items0));
    }

    // Died is the assertion failure inside the insertion: the cid is still present.
    method Put(cid: uint32, buf: Buffer, len: uint32, now: Timeval) returns (r: Reply)
      requires Valid()
      modifies repr
      ensures r == Effect(old(Abs()), CacheRuns.Put(cid, buf, len, now), old(freed)).reply
      ensures !r.Died? ==> Valid() && fresh(repr - old(repr))
      ensures !r.Died? ==> Outcome(Abs(), r, freed) == Effect(old(Abs()), CacheRuns.Put(cid, buf, len, now), old(freed))
    {
      hide Bucket, WellLinked, HashTable.Mirrors, Counts, HTable.Contents, HTable.Valid;
      hide Stores, StoresAt, Totals, Accounted, Agrees, Effect, EjectUntilFits, Bufs;
      PutEffect(Abs(), cid, buf, len, now, freed);
      if !initialized || len == 0 || buf == NULL || len > maxSize {
        return Status(-1);
      }
      MakeRoom(len);
      var ok := Store(cid, buf, len, now);
      return if ok then Status(0) else Died;
    }

    // A new cache line.
    method Store(cid: uint32, buf: Buffer, len: uint32, now: Timeval) returns (ok: bool)
      requires Valid() && initialized && currentItems < maxItems
      modifies repr
      ensures ok <==> cid !in old(items)
      ensures ok ==> Valid() && fresh(repr - old(repr))
      ensures ok ==> SameLimits(true, old(maxItems), old(maxSize)) && freed == old(freed)
      ensures ok ==> items == old(items)[cid := Rec(len, buf, now)]
    {
      hide HTable.Valid, Agrees;
      var ref := new CacheEntry(cid, len, buf, now);
      ok := InsertEntry(ref);
    }

    // Its insertion, counters first.
    method InsertEntry(ref: CacheEntry) returns (ok: bool)
      requires Valid() && initialized && currentItems < maxItems
      requires ref !in repr && ref !in entries && ref !in released
      modifies repr
      ensures ok <==> ref.cid !in old(items)
      ensures ok ==> Valid() && fresh(repr - old(repr) - {ref})
      ensures ok ==> SameLimits(true, old(maxItems), old(maxSize)) && freed == old(freed)
      ensures ok ==> items == old(items)[ref.cid := Rec(ref.size, ref.buf, ref.lastUsed)]
    {
      hide Bucket, WellLinked, HashTable.Mirrors, Counts, HTable.Contents, HTable.Valid;
      hide Stores, StoresAt, Totals, Accounted, Agrees, Add32;
      Parts(htable.at, items, entries, released, currentItems, currentSize);
      Remember(ref);
      ok := htable.Insert(ref.cid, ref);
      if ok {
        repr := repr + htable.nodes;
        AgreesMore(old(htable.at), old(items), old(entries), old(released), old(currentItems), old(currentSize),
                   htable.at, ref);
      }
    }

    // again is what cleanupHashTable frees, after the loop has freed every entry once.
    method Close() returns (r: Reply, again: seq<CacheEntry>)
      requires Valid()
      modifies repr
      ensures Valid() && repr == old(repr)
      ensures again == [] && released == old(if initialized then entries + released else released)
      ensures Outcome(Abs(), r, freed) == Effect(old(Abs()), CacheRuns.Close, old(freed))
    {
      hide Bucket, WellLinked, HashTable.Mirrors, Counts, HTable.Contents, HTable.Valid;
      hide Stores, StoresAt, Totals, Accounted, Agrees, Effect, Bufs;
      CloseEffect(Abs(), freed);
      again := [];
      if !initialized {
        return Status(-1), again;
      }
      ghost var rounds := Drain();
      htable.Counted();
      ghost var size, keys := htable.htTableSize, [];
      again, keys := Cleanup(htable);
      NothingLeft(size, keys, again);
      htable := null;
      maxItems, maxSize, currentItems, currentSize := 0, 0, 0, 0;
      initialized := false;
      return Status(0), again;
    }

    // The loop of close: one round for every item, the iterator never fails, and the
    // entry deleted is the one it returned.
    method Drain() returns (ghost rounds: nat)
      requires Valid() && initialized
      modifies repr
      ensures Valid() && repr == old(repr) && SameLimits(true, old(maxItems), old(maxSize))
      ensures items == map[] && currentItems == 0 && currentSize == 0 && htable == old(htable) && htable.at == map[]
      ensures rounds == old(currentItems) && freed == old(freed) + Bufs(old(items))
      ensures entries == {} && released == old(entries) + old(released)
    {
      hide Bucket, WellLinked, HashTable.Mirrors, Counts, HTable.Contents, HTable.Valid;
      hide Stores, StoresAt, Totals, Accounted, Agrees, Bufs;
      rounds := 0;
      while currentItems > 0
        invariant Valid() && repr == old(repr) && SameLimits(true, old(maxItems), old(maxSize)) && htable == old(htable)
        invariant rounds + currentItems == old(currentItems)
        invariant freed + Bufs(items) == old(freed) + Bufs(old(items))
        invariant entries + released == old(entries) + old(released)
        decreases currentItems
      {
        Parts(htable.at, items, entries, released, currentItems, currentSize);
        NotDrained(items, currentItems, currentSize);
        DrainOne();
        rounds := rounds + 1;
      }
      Drained(htable.at, items, entries, released, currentItems, currentSize);
    }

    method DrainOne()
      requires Valid() && initialized && items != map[]
      modifies repr
      ensures Valid() && repr == old(repr) && SameLimits(true, old(maxItems), old(maxSize)) && htable == old(htable)
      ensures currentItems == old(currentItems) - 1
      ensures freed + Bufs(items) == old(freed) + Bufs(old(items))
      ensures entries + released == old(entries) + old(released)
    {
      hide Bucket, WellLinked, HashTable.Mirrors, Counts, HTable.Contents, HTable.Valid;
      hide Stores, StoresAt, Totals, Accounted, Agrees, Bufs;
      Parts(htable.at, items, entries, released, currentItems, currentSize);
      var ref := FirstEntry(htable, items, entries);
      BufsWithout(items, ref.value.cid);
      var chk := TakeOut(ref.value.cid);
      assert chk == ref.value;
      freed := freed + multiset{chk.buf};
    }

    method Remember(e: CacheEntry)
      modifies this
      ensures currentItems == Add32(old(currentItems), 1) && currentSize == Add32(old(currentSize), e.size)
      ensures items == old(items)[e.cid := Rec(e.size, e.buf, e.lastUsed)] && entries == old(entries) + {e}
      ensures initialized == old(initialized) && maxItems == old(maxItems) && maxSize == old(maxSize)
      ensures htable == old(htable) && freed == old(freed) && repr == old(repr) + {e} && released == old(released)
    {
      currentItems := Add32(currentItems, 1);
      currentSize := Add32(currentSize, e.size);
      items, entries, repr := items[e.cid := Rec(e.size, e.buf, e.lastUsed)], entries + {e}, repr + {e};
    }

    // The bookkeeping of a removed entry, which is freed.
    method Forget(e: CacheEntry)
      requires e !in released
      modifies this
      ensures released == old(released) + {e}
      ensures currentItems == Sub32(old(currentItems), 1) && currentSize == Sub32(old(currentSize), e.size)
      ensures items == old(items) - {e.cid} && entries == old(entries) - {e}
      ensures initialized == old(initialized) && maxItems == old(maxItems) && maxSize == old(maxSize)
      ensures htable == old(htable) && freed == old(freed) && repr == old(repr)
    {
      currentItems := Sub32(currentItems, 1);
      currentSize := Sub32(currentSize, e.size);
      items, entries, released := items - {e.cid}, entries - {e}, released + {e};
    }
  }

  // The new state, the reply, and all buffers freed so far.
  ghost function Effect(s: State, op: Op, freed: multiset<Buffer>): Outcome {
    var o := Step(AS_WRITTEN, s, op);
    Outcome(o.state, o.reply, freed + o.freed)
  }

  method NewTable() returns (ht: HTable<CacheEntry>)
    ensures ht.Valid() && ht.htTableSize == TABLE_SIZE && fresh(ht) && fresh(ht.hasHTable) && ht.nodes == {}
    ensures ht.at == map[]
  {
    assert Pow2(8) == TABLE_SIZE;
    ht := new HTable(8);
  }

  lemma InitEffect(s: State, maxItems: uint32, maxSize: uint32, f: multiset<Buffer>)
    requires !s.Aborted?
    ensures Effect(s, CacheRuns.Init(maxItems, maxSize), f) ==
      if s.Open? || maxItems == 0 || maxSize == 0 then Outcome(s, Status(-1), f)
      else Outcome(Open(maxItems, maxSize, map[]), Status(0), f)
  {
  }

  lemma DeleteEffect(s: State, cid: uint32, f: multiset<Buffer>)
    requires !s.Aborted?
    ensures Effect(s, CacheRuns.Delete(cid), f) ==
      if s.Open? && cid in s.items then Outcome(s.(items := s.items - {cid}), Handle(s.items[cid].buf), f)
      else Outcome(s, Handle(NULL), f)
  {
  }

  lemma PutEffect(s: State, cid: uint32, buf: Buffer, len: uint32, now: Timeval, f: multiset<Buffer>)
    requires !s.Aborted?
    ensures Effect(s, CacheRuns.Put(cid, buf, len, now), f) ==
      if !s.Open? || len == 0 || buf == NULL || len > s.maxSize then Outcome(s, Status(-1), f) else
        var kept := EjectUntilFits(AS_WRITTEN, s.maxItems, s.maxSize, s.items, len);
        if cid in kept then Outcome(Aborted, Died, f)
        else Outcome(s.(items := kept[cid := Rec(len, buf, now)]), Status(0), f + (Bufs(s.items) - Bufs(kept)))
  {
  }

  lemma CloseEffect(s: State, f: multiset<Buffer>)
    requires !s.Aborted?
    ensures Effect(s, CacheRuns.Close, f) ==
      if s.Open? then Outcome(Closed, Status(0), f + Bufs(s.items)) else Outcome(s, Status(-1), f)
  {
  }

  // The stores with the new entry in them.
  lemma Added(at: map<nat, HtEntry<CacheEntry>>, items: Items, entries: set<CacheEntry>,
              at': map<nat, HtEntry<CacheEntry>>, e: CacheEntry)
    requires Stores(at, items, entries) && e.cid in at' && at' == at[e.cid := at'[e.cid]] && at'[e.cid].block == e
    ensures Stores(at', items[e.cid := Rec(e.size, e.buf, e.lastUsed)], entries + {e})
  {
    forall k | k in items && k != e.cid
      ensures StoresAt(at', items[e.cid := Rec(e.size, e.buf, e.lastUsed)], entries + {e}, k)
    {
      assert StoresAt(at, items, entries, k);
    }
  }

  lemma NotDrained(items: Items, currentItems: uint32, currentSize: uint32)
    requires Totals(items, currentItems, currentSize) && currentItems > 0
    ensures items != map[]
  {
  }

  lemma Drained(at: map<nat, HtEntry<CacheEntry>>, items: Items, entries: set<CacheEntry>,
                released: set<CacheEntry>, currentItems: uint32, currentSize: uint32)
    requires Agrees(at, items, entries, released, currentItems, currentSize) && currentItems == 0
    ensures at == map[] && items == map[] && entries == {} && Bufs(items) == multiset{} && currentSize == 0
  {
    assert |items| == 0;
  }

  lemma NothingAgrees(released: set<CacheEntry>)
    ensures Agrees(map[], map[], {}, released, 0, 0)
  {
  }

  lemma AgreesLess(at: map<nat, HtEntry<CacheEntry>>, items: Items, entries: set<CacheEntry>,
                   released: set<CacheEntry>, currentItems: uint32, currentSize: uint32, k: nat)
    requires Agrees(at, items, entries, released, currentItems, currentSize) && k in items
    ensures k in at && StoresAt(at, items, entries, k) && at[k].block !in released
    ensures var e := at[k].block;
      && e in entries && e.cid == k && items[k] == Rec(e.size, e.buf, e.lastUsed)
      && Agrees(at - {k}, items - {k}, entries - {e}, released + {e},
                Sub32(currentItems, 1), Sub32(currentSize, e.size))
    ensures Sub32(currentItems, 1) == currentItems - 1
  {
    hide Stores, Totals, Accounted, Sub32;
    Removed(at, items, entries, k);
    TotalsLess(items, currentItems, currentSize, k);
    AccountedLess(items, entries, released, k, at[k].block);
  }

  lemma AgreesMore(at: map<nat, HtEntry<CacheEntry>>, items: Items, entries: set<CacheEntry>,
                   released: set<CacheEntry>, currentItems: uint32, currentSize: uint32,
                   at': map<nat, HtEntry<CacheEntry>>, e: CacheEntry)
    requires Agrees(at, items, entries, released, currentItems, currentSize)
    requires e.cid !in items && e !in entries && e !in released && currentItems + 1 < U32
    requires e.cid in at' && at' == at[e.cid := at'[e.cid]] && at'[e.cid].block == e
    ensures Agrees(at', items[e.cid := Rec(e.size, e.buf, e.lastUsed)], entries + {e}, released,
                   Add32(currentItems, 1), Add32(currentSize, e.size))
    ensures Add32(currentItems, 1) == currentItems + 1
  {
    hide Stores, Totals, Accounted, Add32;
    var r := Rec(e.size, e.buf, e.lastUsed);
    Added(at, items, entries, at', e);
    TotalsMore(items, currentItems, currentSize, e.cid, r);
    AccountedMore(items, entries, released, e.cid, r, e);
  }

  lemma TotalsMore(items: Items, currentItems: uint32, currentSize: uint32, k: nat, r: Rec)
    requires Totals(items, currentItems, currentSize) && k !in items && currentItems + 1 < U32
    ensures Totals(items[k := r], Add32(currentItems, 1), Add32(currentSize, r.size))
    ensures Add32(currentItems, 1) == currentItems + 1
  {
    hide Counts, Size, Add32, Sub32;
    NoWrap32(currentItems, 1);
    SumsWith(items, k, r);
    CountsStep(currentSize, Size(items), r.size);
    assert |items[k := r]| == |items| + 1;
  }

  // What is left once the entry of k is gone.
  lemma Removed(at: map<nat, HtEntry<CacheEntry>>, items: Items, entries: set<CacheEntry>, k: nat)
    requires Stores(at, items, entries) && k in items
    ensures k in at && StoresAt(at, items, entries, k)
    ensures Stores(at - {k}, items - {k}, entries - {at[k].block})
  {
    assert StoresAt(at, items, entries, k);
    forall j | j in items - {k}
      ensures StoresAt(at - {k}, items - {k}, entries - {at[k].block}, j)
    {
      assert StoresAt(at, items, entries, j);
    }
  }

  lemma TotalsLess(items: Items, currentItems: uint32, currentSize: uint32, k: nat)
    requires Totals(items, currentItems, currentSize) && k in items
    ensures Totals(items - {k}, Sub32(currentItems, 1), Sub32(currentSize, items[k].size))
    ensures Sub32(currentItems, 1) == currentItems - 1
  {
    hide Counts, Size, Sub32;
    NoBorrow32(currentItems);
    SizeWithout(items, k);
    CountsStep(currentSize, Size(items), items[k].size);
    assert items - {k} + map[k := items[k]] == items;
    assert |items - {k}| == |items| - 1;
  }

  // The guard of the eject loop holds: the item does not fit, and there is a victim.
  lemma Crowded(items: Items, currentItems: uint32, currentSize: uint32, maxItems: uint32, maxSize: uint32, len: uint32)
    requires Totals(items, currentItems, currentSize) && 0 < maxItems && len <= maxSize
    requires currentItems >= maxItems || Add32(currentSize, len) > maxSize
    ensures items != map[] && !Fits(maxItems, maxSize, items, len)
    ensures var v := Victim(AS_WRITTEN, items);
      v in items && Bufs(items) == multiset{items[v].buf} + Bufs(items - {v})
    ensures EjectUntilFits(AS_WRITTEN, maxItems, maxSize, items, len)
         == EjectUntilFits(AS_WRITTEN, maxItems, maxSize, items - {Victim(AS_WRITTEN, items)}, len)
  {
    NoWrap32(0, len);
    assert items == map[] ==> |items| == 0 && Size(items) == 0;
    BufsWithout(items, Victim(AS_WRITTEN, items));
  }

  lemma Roomy(items: Items, currentItems: uint32, currentSize: uint32, maxItems: uint32, maxSize: uint32, len: uint32)
    requires Totals(items, currentItems, currentSize)
    requires currentItems < maxItems && Add32(currentSize, len) <= maxSize
    ensures EjectUntilFits(AS_WRITTEN, maxItems, maxSize, items, len) == items
  {
    assert Fits(maxItems, maxSize, items, len);
  }

  lemma Difference(f: multiset<Buffer>, b: multiset<Buffer>, f0: multiset<Buffer>, b0: multiset<Buffer>)
    requires f + b == f0 + b0 && b <= b0
    ensures f == f0 + (b0 - b)
  {
    forall x
      ensures f[x] == (f0 + (b0 - b))[x]
    {
      assert (f + b)[x] == (f0 + b0)[x] && b[x] <= b0[x];
    }
  }

  lemma TotalsTouched(items: Items, currentItems: int, currentSize: int, k: nat, now: Timeval)
    requires Totals(items, currentItems, currentSize) && k in items
    ensures Totals(items[k := items[k].(lastUsed := now)], currentItems, currentSize)
  {
    SumsTouched(items, k, now);
  }

  // A new stamp on an entry of the table.
  method Touch(ghost at: map<nat, HtEntry<CacheEntry>>, ghost items: Items, ghost entries: set<CacheEntry>,
               ghost released: set<CacheEntry>, ghost currentItems: uint32, ghost currentSize: uint32,
               e: CacheEntry, cid: uint32, now: Timeval)
    requires Agrees(at, items, entries, released, currentItems, currentSize)
    requires cid in at && at[cid].block == e
    modifies e
    ensures cid in items && e.buf == items[cid].buf
    ensures Agrees(at, items[cid := items[cid].(lastUsed := now)], entries, released, currentItems, currentSize)
  {
    hide Totals, Accounted;
    TotalsTouched(items, currentItems, currentSize, cid, now);
    AccountedTouched(items, entries, released, cid, items[cid].(lastUsed := now));
    OwnKey(at, items, entries, cid);
    ghost var touched := items[cid := items[cid].(lastUsed := now)];
    e.lastUsed := now;
    forall k | k in items
      ensures StoresAt(at, touched, entries, k)
    {
      assert old(StoresAt(at, items, entries, k));
    }
  }
}
