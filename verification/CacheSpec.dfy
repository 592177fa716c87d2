/** What the cache of lib/cmpsc311_cache.c does, as functions on the map it holds, and
    what follows over all its runs. */
module CacheSpec {
  import opened Common
  import opened Links

  type Buffer = nat
  const NULL: Buffer := 0

  const TABLE_SIZE := 256  // 2^CMPSC311_CACHE_TABLE_BIT_WIDTH

  datatype Timeval = Timeval(sec: int, usec: int)

  function Micros(t: Timeval): int {
    t.sec * 1000000 + t.usec
  }

  // Documented as negative when tm1 is the earlier time; it is the other way round.
  function CompareTimes(tm1: Timeval, tm2: Timeval): (r: int)
    ensures r == Micros(tm2) - Micros(tm1)
  {
    if tm2.usec < tm1.usec then
      (tm2.sec - tm1.sec - 1) * 1000000 + (tm2.usec + 1000000 - tm1.usec)
    else
      (tm2.sec - tm1.sec) * 1000000 + (tm2.usec - tm1.usec)
  }

  // A second is a million microseconds.
  lemma CompareTimesIs(s: int, u: int, s': int, u': int)
    ensures CompareTimes(Timeval(s, u), Timeval(s', u')) == 1000000 * (s' - s) + (u' - u)
  {
  }

  datatype Rec = Rec(size: nat, buf: Buffer, lastUsed: Timeval)

  type Items = map<nat, Rec>

  // ---- Sums over the items ----

  ghost function Pick(items: Items): (k: nat)
    requires items != map[]
    ensures k in items
  {
    var k :| k in items; k
  }

  ghost function Size(items: Items): nat {
    if items == map[] then 0 else items[Pick(items)].size + Size(items - {Pick(items)})
  }

  ghost function Bufs(items: Items): multiset<Buffer> {
    if items == map[] then multiset{} else multiset{items[Pick(items)].buf} + Bufs(items - {Pick(items)})
  }

  lemma {:induction false} SizeWithout(items: Items, k: nat)
    requires k in items
    ensures Size(items) == items[k].size + Size(items - {k})
    decreases |items|
  {
    var j := Pick(items);
    if j != k {
      SizeWithout(items - {j}, k);
      SizeWithout(items - {k}, j);
      assert items - {j} - {k} == items - {k} - {j};
    }
  }

  lemma {:induction false} BufsWithout(items: Items, k: nat)
    requires k in items
    ensures Bufs(items) == multiset{items[k].buf} + Bufs(items - {k})
    decreases |items|
  {
    var j := Pick(items);
    if j != k {
      var a, b, rest := multiset{items[j].buf}, multiset{items[k].buf}, items - {j} - {k};
      assert rest == items - {k} - {j};
      assert Bufs(items - {j}) == b + Bufs(rest) by {
        BufsWithout(items - {j}, k);
      }
      assert Bufs(items - {k}) == a + Bufs(rest) by {
        BufsWithout(items - {k}, j);
      }
    }
  }

  lemma SumsWith(items: Items, k: nat, r: Rec)
    requires k !in items
    ensures Size(items[k := r]) == r.size + Size(items)
    ensures Bufs(items[k := r]) == multiset{r.buf} + Bufs(items)
  {
    var more := items[k := r];
    assert more - {k} == items;
    SizeWithout(more, k);
    BufsWithout(more, k);
  }

  // A new stamp changes neither sum.
  lemma SumsTouched(items: Items, k: nat, now: Timeval)
    requires k in items
    ensures Size(items[k := items[k].(lastUsed := now)]) == Size(items)
    ensures Bufs(items[k := items[k].(lastUsed := now)]) == Bufs(items)
  {
    var touched := items[k := items[k].(lastUsed := now)];
    assert touched - {k} == items - {k};
    SizeWithout(items, k);
    SizeWithout(touched, k);
    BufsWithout(items, k);
    BufsWithout(touched, k);
  }

  // ---- The choice of a victim ----

  // The documented policy ejects the entry with the oldest stamp. The sign that
  // CompareTimes computes makes the code eject the one with the newest.
  datatype Policy = Oldest | Newest
  const AS_WRITTEN := Newest

  function Rank(p: Policy, r: Rec): int {
    if p.Oldest? then Micros(r.lastUsed) else -Micros(r.lastUsed)
  }

  // The scan keeps a until it meets b: a ranks lower, or as low and comes first.
  ghost predicate Beats(p: Policy, items: Items, a: nat, b: nat)
    requires a in items && b in items
  {
    || Rank(p, items[a]) < Rank(p, items[b])
    || (Rank(p, items[a]) == Rank(p, items[b]) && Before(TABLE_SIZE, a, b))
  }

  ghost predicate IsVictim(p: Policy, items: Items, v: nat) {
    v in items && forall c | c in items && c != v :: Beats(p, items, v, c)
  }

  lemma {:induction false} VictimExists(p: Policy, items: Items)
    requires items != map[]
    ensures exists v :: IsVictim(p, items, v)
    decreases |items|
  {
    hide Bucket;
    var j := Pick(items);
    var rest := items - {j};
    assert forall c | c in items && c != j :: c in rest;
    if rest == map[] {
      assert IsVictim(p, items, j);
    } else {
      VictimExists(p, rest);
      var v :| IsVictim(p, rest, v);
      BeatsTotal(p, items, j, v);
      forall c | c in rest && c != v
        ensures Beats(p, items, v, c)
      {
        assert Beats(p, rest, v, c);
      }
      assert IsVictim(p, items, if Beats(p, items, j, v) then j else v);
    }
  }

  lemma BeatsTotal(p: Policy, items: Items, a: nat, b: nat)
    requires a in items && b in items && a != b
    ensures Beats(p, items, a, b) || Beats(p, items, b, a)
    ensures !(Beats(p, items, a, b) && Beats(p, items, b, a))
  {
  }

  ghost function Victim(p: Policy, items: Items): (v: nat)
    requires items != map[]
    ensures IsVictim(p, items, v)
  {
    VictimExists(p, items);
    var v :| IsVictim(p, items, v); v
  }

  lemma VictimUnique(p: Policy, items: Items, v: nat)
    requires items != map[] && IsVictim(p, items, v)
    ensures v == Victim(p, items)
  {
    if v != Victim(p, items) {
      BeatsTotal(p, items, v, Victim(p, items));
    }
  }

  // The policy of the documentation and the one computed agree exactly when every
  // entry carries the same stamp.
  lemma EjectsLeastRecent(items: Items)
    requires items != map[]
    ensures (forall c | c in items :: Micros(items[Victim(AS_WRITTEN, items)].lastUsed) <= Micros(items[c].lastUsed))
       <==> (forall b, c | b in items && c in items :: Micros(items[b].lastUsed) == Micros(items[c].lastUsed))
  {
    var v := Victim(AS_WRITTEN, items);
    assert forall c | c in items && c != v :: Beats(AS_WRITTEN, items, v, c);
  }

  // The entry touched after all others is the one ejected.
  lemma EjectsMostRecent(items: Items, cid: nat)
    requires cid in items
    requires forall c | c in items && c != cid :: Micros(items[c].lastUsed) < Micros(items[cid].lastUsed)
    ensures Victim(AS_WRITTEN, items) == cid
  {
    assert IsVictim(AS_WRITTEN, items, cid);
    VictimUnique(AS_WRITTEN, items, cid);
  }

  // ---- Making room ----

  // The guard of the eject loop in put, on the 32-bit counters.
  ghost predicate Fits(maxItems: uint32, maxSize: uint32, items: Items, len: uint32) {
    |items| < maxItems && Add32(Size(items) % U32, len) <= maxSize
  }

  ghost function Ejected(p: Policy, items: Items, n: nat): (r: Items)
    requires n <= |items|
    ensures |r| == |items| - n
  {
    if n == 0 then items else Ejected(p, items - {Victim(p, items)}, n - 1)
  }

  ghost function EjectUntilFits(p: Policy, maxItems: uint32, maxSize: uint32, items: Items, len: uint32): (r: Items)
    decreases |items|
  {
    if Fits(maxItems, maxSize, items, len) || items == map[] then items
    else EjectUntilFits(p, maxItems, maxSize, items - {Victim(p, items)}, len)
  }

  lemma EmptyFits(maxItems: uint32, maxSize: uint32, len: uint32)
    requires 0 < maxItems && len <= maxSize
    ensures Fits(maxItems, maxSize, map[], len)
  {
    NoWrap32(0, len);
  }

  // The items after one ejection.
  ghost function Without(p: Policy, items: Items): (rest: Items)
    requires items != map[]
    ensures |rest| == |items| - 1
  {
    var v := Victim(p, items);
    assert (items - {v}).Keys + {v} == items.Keys;
    items - {v}
  }

  // The loop ends with room for the item, after the shortest run of ejections that makes it.
  lemma {:induction false} RoomIsMade(p: Policy, maxItems: uint32, maxSize: uint32, items: Items, len: uint32)
    returns (n: nat)
    requires 0 < maxItems && len <= maxSize
    ensures n <= |items| && EjectUntilFits(p, maxItems, maxSize, items, len) == Ejected(p, items, n)
    ensures Fits(maxItems, maxSize, Ejected(p, items, n), len)
    ensures forall m | 0 <= m < n :: !Fits(maxItems, maxSize, Ejected(p, items, m), len)
    decreases |items|
  {
    hide Without, Fits, Ejected, EjectUntilFits;
    EmptyFits(maxItems, maxSize, len);
    EjectStep(p, maxItems, maxSize, items, len);
    EjectedNone(p, items);
    if Fits(maxItems, maxSize, items, len) || items == map[] {
      n := 0;
    } else {
      var rest := Without(p, items);
      n := RoomIsMade(p, maxItems, maxSize, rest, len);
      n := n + 1;
      EjectedNext(p, items, n);
      forall m | 0 <= m < n
        ensures !Fits(maxItems, maxSize, Ejected(p, items, m), len)
      {
        if m > 0 {
          EjectedNext(p, items, m);
        }
      }
    }
  }

  lemma EjectStep(p: Policy, maxItems: uint32, maxSize: uint32, items: Items, len: uint32)
    ensures EjectUntilFits(p, maxItems, maxSize, items, len) ==
      if Fits(maxItems, maxSize, items, len) || items == map[] then items
      else EjectUntilFits(p, maxItems, maxSize, Without(p, items), len)
  {
  }

  lemma EjectedNone(p: Policy, items: Items)
    ensures Ejected(p, items, 0) == items
  {
  }

  lemma EjectedNext(p: Policy, items: Items, m: nat)
    requires 0 < m <= |items|
    ensures items != map[] && Ejected(p, items, m) == Ejected(p, Without(p, items), m - 1)
  {
  }

  ghost predicate SubMap(a: Items, b: Items) {
    forall k | k in a :: k in b && a[k] == b[k]
  }

  lemma {:induction false} EjectShrinks(p: Policy, maxItems: uint32, maxSize: uint32, items: Items, len: uint32)
    ensures var r := EjectUntilFits(p, maxItems, maxSize, items, len);
      SubMap(r, items) && |r| <= |items| && Size(r) <= Size(items) && Bufs(r) <= Bufs(items)
    decreases |items|
  {
    if !Fits(maxItems, maxSize, items, len) && items != map[] {
      var v := Victim(p, items);
      SizeWithout(items, v);
      BufsWithout(items, v);
      EjectShrinks(p, maxItems, maxSize, items - {v}, len);
    }
  }
}
