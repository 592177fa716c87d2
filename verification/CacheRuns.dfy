/** All runs of the cache interface: what every call keeps, and when the byte limit holds. */
module CacheRuns {
  import opened Common
  import opened CacheSpec

  // Aborted is the end of the process at the duplicate assertion of the hash table.
  datatype State = Closed | Open(maxItems: uint32, maxSize: uint32, items: Items) | Aborted

  datatype Op =
    | Init(maxItems: uint32, maxSize: uint32)
    | Put(cid: uint32, buf: Buffer, len: uint32, now: Timeval)
    | Get(cid: uint32, now: Timeval)
    | Delete(cid: uint32)
    | Close

  datatype Reply = Status(rc: int) | Handle(buf: Buffer) | Died

  // The new state, the reply, and the buffers passed to free.
  datatype Outcome = Outcome(state: State, reply: Reply, freed: multiset<Buffer>)

  function Unchanged(s: State, r: Reply): Outcome {
    Outcome(s, r, multiset{})
  }

  function InitStep(s: State, maxItems: uint32, maxSize: uint32): Outcome {
    if s.Open? || maxItems == 0 || maxSize == 0 then Unchanged(s, Status(-1))
    else Unchanged(Open(maxItems, maxSize, map[]), Status(0))
  }

  ghost function PutStep(p: Policy, s: State, cid: uint32, buf: Buffer, len: uint32, now: Timeval): Outcome {
    if !s.Open? || len == 0 || buf == NULL || len > s.maxSize then Unchanged(s, Status(-1))
    else
      var kept := EjectUntilFits(p, s.maxItems, s.maxSize, s.items, len);
      if cid in kept then Unchanged(Aborted, Died)
      else Outcome(s.(items := kept[cid := Rec(len, buf, now)]), Status(0), Bufs(s.items) - Bufs(kept))
  }

  function GetStep(s: State, cid: uint32, now: Timeval): Outcome {
    if !s.Open? || cid !in s.items then Unchanged(s, Handle(NULL))
    else Unchanged(s.(items := s.items[cid := s.items[cid].(lastUsed := now)]), Handle(s.items[cid].buf))
  }

  function DeleteStep(s: State, cid: uint32): Outcome {
    if !s.Open? || cid !in s.items then Unchanged(s, Handle(NULL))
    else Unchanged(s.(items := s.items - {cid}), Handle(s.items[cid].buf))
  }

  ghost function CloseStep(s: State): Outcome {
    if !s.Open? then Unchanged(s, Status(-1)) else Outcome(Closed, Status(0), Bufs(s.items))
  }

  ghost function Step(p: Policy, s: State, op: Op): Outcome {
    if s.Aborted? then Unchanged(s, Died) else
    match op
    case Init(maxItems, maxSize) => InitStep(s, maxItems, maxSize)
    case Put(cid, buf, len, now) => PutStep(p, s, cid, buf, len, now)
    case Get(cid, now) => GetStep(s, cid, now)
    case Delete(cid) => DeleteStep(s, cid)
    case Close => CloseStep(s)
  }

  // A run with its bookkeeping: latest is the unbounded reference map, given the buffers
  // handed over by successful puts, taken those handed back by delete, freed those freed; used
  // is the clock reading of the latest successful put or get of each cid.
  datatype History = History(state: State, latest: map<nat, Buffer>, used: map<nat, Timeval>,
                             given: multiset<Buffer>, taken: multiset<Buffer>, freed: multiset<Buffer>)

  ghost function Record(p: Policy, h: History, op: Op): History {
    var o := Step(p, h.state, op);
    History(o.state,
            if op.Put? && o.reply == Status(0) then h.latest[op.cid := op.buf]
            else if op.Delete? then h.latest - {op.cid}
            else if op.Close? then map[] else h.latest,
            if op.Get? || (op.Put? && o.reply == Status(0)) then h.used[op.cid := op.now] else h.used,
            if op.Put? && o.reply == Status(0) then h.given + multiset{op.buf} else h.given,
            if op.Delete? && o.reply.Handle? && o.reply.buf != NULL then h.taken + multiset{o.reply.buf} else h.taken,
            h.freed + o.freed)
  }

  ghost function Run(p: Policy, ops: seq<Op>): History {
    if ops == [] then History(Closed, map[], map[], multiset{}, multiset{}, multiset{})
    else Record(p, Run(p, ops[..|ops| - 1]), ops[|ops| - 1])
  }

  ghost function Held(s: State): multiset<Buffer> {
    if s.Open? then Bufs(s.items) else multiset{}
  }

  // The cache is a sub-map of the reference, within its item limit, and no buffer is lost.
  ghost predicate Good(h: History) {
    && (h.state.Open? ==> GoodItems(h.state, h.latest, h.used))
    && (!h.state.Aborted? ==> h.given == Held(h.state) + h.taken + h.freed)
  }

  ghost predicate GoodItems(s: State, latest: map<nat, Buffer>, used: map<nat, Timeval>)
    requires s.Open?
  {
    && 0 < s.maxItems && 0 < s.maxSize && |s.items| <= s.maxItems
    && forall k | k in s.items :: k in latest && k in used && GoodRec(s.maxSize, s.items[k], latest[k], used[k])
  }

  predicate GoodRec(maxSize: uint32, r: Rec, buf: Buffer, used: Timeval) {
    r.buf == buf != NULL && 0 < r.size <= maxSize && r.lastUsed == used
  }

  lemma Balance(given: multiset<Buffer>, a: multiset<Buffer>, b: multiset<Buffer>,
                taken: multiset<Buffer>, freed: multiset<Buffer>, x: multiset<Buffer>)
    requires given == a + taken + freed && b <= a
    ensures given + x == x + b + taken + (freed + (a - b))
  {
  }

  // The entries left by the eject loop, with the new one.
  lemma PutItems(p: Policy, s: State, latest: map<nat, Buffer>, used: map<nat, Timeval>, cid: nat, r: Rec)
    requires s.Open? && GoodItems(s, latest, used) && 0 < r.size <= s.maxSize && r.buf != NULL
    ensures var kept := EjectUntilFits(p, s.maxItems, s.maxSize, s.items, r.size);
      && GoodItems(s.(items := kept[cid := r]), latest[cid := r.buf], used[cid := r.lastUsed])
      && Bufs(kept) <= Bufs(s.items)
      && (cid !in kept ==> Bufs(kept[cid := r]) == multiset{r.buf} + Bufs(kept))
  {
    hide EjectUntilFits, Ejected, Size, Bufs;
    var kept := EjectUntilFits(p, s.maxItems, s.maxSize, s.items, r.size);
    EjectShrinks(p, s.maxItems, s.maxSize, s.items, r.size);
    var n := RoomIsMade(p, s.maxItems, s.maxSize, s.items, r.size);
    assert |kept| < s.maxItems;
    ItemsMore(s, latest, used, kept, cid, r);
    if cid !in kept {
      SumsWith(kept, cid, r);
    }
  }

  lemma ItemsMore(s: State, latest: map<nat, Buffer>, used: map<nat, Timeval>, kept: Items, cid: nat, r: Rec)
    requires s.Open? && GoodItems(s, latest, used) && SubMap(kept, s.items) && |kept| < s.maxItems
    requires 0 < r.size <= s.maxSize && r.buf != NULL
    ensures GoodItems(s.(items := kept[cid := r]), latest[cid := r.buf], used[cid := r.lastUsed])
  {
    assert (kept[cid := r]).Keys == kept.Keys + {cid};
  }

  lemma PutGood(p: Policy, h: History, op: Op)
    requires Good(h) && op.Put?
    ensures Good(Record(p, h, op))
  {
    hide GoodItems, Bufs, EjectUntilFits, GetStep, DeleteStep, CloseStep, InitStep;
    var s := h.state;
    if s.Open? && 0 < op.len <= s.maxSize && op.buf != NULL {
      PutItems(p, s, h.latest, h.used, op.cid, Rec(op.len, op.buf, op.now));
      var kept := EjectUntilFits(p, s.maxItems, s.maxSize, s.items, op.len);
      Balance(h.given, Bufs(s.items), Bufs(kept), h.taken, h.freed, multiset{op.buf});
      StoredOrDied(p, h, op, kept);
    } else {
      assert h.freed + multiset{} == h.freed;
    }
  }

  // What a put that passes its checks leaves behind.
  lemma StoredOrDied(p: Policy, h: History, op: Op, kept: Items)
    requires op.Put? && h.state.Open? && 0 < op.len <= h.state.maxSize && op.buf != NULL
    requires kept == EjectUntilFits(p, h.state.maxItems, h.state.maxSize, h.state.items, op.len)
    ensures op.cid in kept ==> Record(p, h, op).state.Aborted?
    ensures op.cid !in kept ==>
      var r := Record(p, h, op);
      && r.state == h.state.(items := kept[op.cid := Rec(op.len, op.buf, op.now)])
      && r.latest == h.latest[op.cid := op.buf] && r.used == h.used[op.cid := op.now]
      && r.given == h.given + multiset{op.buf} && r.taken == h.taken
      && r.freed == h.freed + (Bufs(h.state.items) - Bufs(kept))
  {
    hide EjectUntilFits, Bufs, GetStep, DeleteStep, CloseStep, InitStep;
  }

  lemma GetGood(p: Policy, h: History, op: Op)
    requires Good(h) && op.Get?
    ensures Good(Record(p, h, op))
  {
    hide Bufs, PutStep, DeleteStep, CloseStep, InitStep;
    if h.state.Open? && op.cid in h.state.items {
      SumsTouched(h.state.items, op.cid, op.now);
    }
  }

  lemma HandBack(given: multiset<Buffer>, a: multiset<Buffer>, b: multiset<Buffer>,
                 taken: multiset<Buffer>, freed: multiset<Buffer>, x: multiset<Buffer>)
    requires given == a + taken + freed && a == x + b
    ensures given == b + (taken + x) + (freed + multiset{})
  {
  }

  lemma GoodLess(s: State, latest: map<nat, Buffer>, used: map<nat, Timeval>, cid: nat)
    requires s.Open? && GoodItems(s, latest, used)
    ensures GoodItems(s.(items := s.items - {cid}), latest - {cid}, used)
    ensures cid in s.items ==> s.items[cid].buf != NULL
    ensures cid !in s.items ==> s.items - {cid} == s.items
  {
    assert |s.items - {cid}| <= |s.items| by {
      if cid in s.items {
        assert (s.items - {cid}).Keys + {cid} == s.items.Keys;
      }
    }
  }

  lemma DeleteGood(p: Policy, h: History, op: Op)
    requires Good(h) && op.Delete?
    ensures Good(Record(p, h, op))
  {
    hide GoodItems, Bufs, PutStep, GetStep, CloseStep, InitStep;
    var s := h.state;
    assert h.freed + multiset{} == h.freed;
    if s.Open? {
      GoodLess(s, h.latest, h.used, op.cid);
    }
    if s.Open? && op.cid in s.items {
      BufsWithout(s.items, op.cid);
      HandBack(h.given, Bufs(s.items), Bufs(s.items - {op.cid}), h.taken, h.freed, multiset{s.items[op.cid].buf});
    }
  }

  lemma StepGood(p: Policy, h: History, op: Op)
    requires Good(h)
    ensures Good(Record(p, h, op))
  {
    match op
    case Init(_, _) =>
    case Put(_, _, _, _) => PutGood(p, h, op);
    case Get(_, _) => GetGood(p, h, op);
    case Delete(_) => DeleteGood(p, h, op);
    case Close =>
  }

  lemma {:induction false} RunGood(p: Policy, ops: seq<Op>)
    ensures Good(Run(p, ops))
  {
    if ops != [] {
      RunGood(p, ops[..|ops| - 1]);
      StepGood(p, Run(p, ops[..|ops| - 1]), ops[|ops| - 1]);
    }
  }

  // A hit gives back the buffer of the latest put of that cid not since deleted.
  lemma HitIsLatest(p: Policy, ops: seq<Op>, cid: uint32, now: Timeval)
    ensures var h := Run(p, ops);
      var got, removed := Step(p, h.state, Get(cid, now)).reply, Step(p, h.state, Delete(cid)).reply;
      && (got.Handle? && got.buf != NULL ==> cid in h.latest && got.buf == h.latest[cid])
      && (got.Handle? && got.buf != NULL <==> h.state.Open? && cid in h.state.items)
      && removed == got
  {
    hide Run, PutStep, InitStep, CloseStep;
    RunGood(p, ops);
    var h := Run(p, ops);
    assert h.state.Open? && cid in h.state.items ==>
      GoodRec(h.state.maxSize, h.state.items[cid], h.latest[cid], h.used[cid]);
  }

  // Every item carries the clock reading of the latest put or get of its cid.
  lemma StampIsLatest(p: Policy, ops: seq<Op>, cid: nat)
    requires var s := Run(p, ops).state; s.Open? && cid in s.items
    ensures var h := Run(p, ops); cid in h.used && h.state.items[cid].lastUsed == h.used[cid]
  {
    hide Run;
    RunGood(p, ops);
    var h := Run(p, ops);
    assert GoodRec(h.state.maxSize, h.state.items[cid], h.latest[cid], h.used[cid]);
  }

  // If no buffer is handed over twice, none is freed twice, none is freed while the cache
  // holds it, and none that delete handed back is freed.
  lemma NoDoubleFree(p: Policy, ops: seq<Op>, b: Buffer)
    requires var h := Run(p, ops); !h.state.Aborted? && h.given[b] <= 1
    ensures var h := Run(p, ops);
      h.freed[b] <= 1 && (h.freed[b] == 1 ==> Held(h.state)[b] == 0 && h.taken[b] == 0)
  {
    hide Run;
    RunGood(p, ops);
    var h := Run(p, ops);
    assert h.given == Held(h.state) + h.taken + h.freed;
    assert h.given[b] == Held(h.state)[b] + h.taken[b] + h.freed[b];
  }

  // A hit at the latest time yet saves an entry from the next ejection under the documented
  // policy, unless it is alone; under the one computed it makes it the next victim.
  lemma JustUsedIsEjected(p: Policy, s: State, cid: uint32, now: Timeval)
    requires s.Open? && cid in s.items
    requires forall c | c in s.items && c != cid :: Micros(s.items[c].lastUsed) < Micros(now)
    ensures var t := Step(p, s, Get(cid, now)).state;
      t.Open? && cid in t.items && (Victim(p, t.items) == cid <==> p.Newest? || t.items.Keys == {cid})
  {
    var t := Step(p, s, Get(cid, now)).state;
    assert cid in t.items;
    if p.Newest? {
      EjectsMostRecent(t.items, cid);
    } else {
      var v := Victim(p, t.items);
      assert forall c | c in t.items && c != v :: Beats(p, t.items, v, c);
    }
  }

  // An entry vanishes only by its delete, by close, or as the victim of an ejection that
  // was needed to make room.
  lemma VanishesOnlyBy(p: Policy, s: State, op: Op, k: nat)
    requires s.Open? && k in s.items
    requires var t := Step(p, s, op).state; t.Closed? || (t.Open? && k !in t.items)
    ensures op.Close? || (op.Delete? && op.cid == k) || (op.Put? && EjectedFor(p, s, op.len, k))
  {
    if op.Put? && op.len <= s.maxSize {
      VanishedWasVictim(p, s.maxItems, s.maxSize, s.items, op.len, k);
    }
  }

  ghost predicate EjectedFor(p: Policy, s: State, len: uint32, k: nat)
    requires s.Open?
  {
    exists m :: 0 <= m < |s.items| && VictimAt(p, s, len, k, m)
  }

  // k is the victim of ejection m, at which point the item still did not fit.
  ghost predicate VictimAt(p: Policy, s: State, len: uint32, k: nat, m: nat)
    requires s.Open? && m < |s.items|
  {
    var left := Ejected(p, s.items, m);
    left != map[] && !Fits(s.maxItems, s.maxSize, left, len) && k == Victim(p, left)
  }

  lemma {:induction false} VanishedWasVictim(p: Policy, maxItems: uint32, maxSize: uint32, items: Items,
                                             len: uint32, k: nat)
    requires k in items && k !in EjectUntilFits(p, maxItems, maxSize, items, len)
    ensures EjectedFor(p, Open(maxItems, maxSize, items), len, k)
    decreases |items|
  {
    var s, v := Open(maxItems, maxSize, items), Victim(p, items);
    if k == v {
      assert VictimAt(p, s, len, k, 0);
    } else {
      var rest := Open(maxItems, maxSize, items - {v});
      VanishedWasVictim(p, maxItems, maxSize, rest.items, len, k);
      var m :| 0 <= m < |rest.items| && VictimAt(p, rest, len, k, m);
      assert Ejected(p, items, m + 1) == Ejected(p, rest.items, m);
      assert VictimAt(p, s, len, k, m + 1);
    }
  }

  // ---- The byte limit ----

  ghost predicate NoWrap(maxItems: uint32, maxSize: uint32) {
    maxSize < 0x8000_0000 || maxItems == 1
  }

  ghost predicate WithinSize(s: State) {
    s.Open? && NoWrap(s.maxItems, s.maxSize) ==> Size(s.items) <= s.maxSize
  }

  lemma StepWithinSize(p: Policy, h: History, op: Op)
    requires Good(h) && WithinSize(h.state)
    ensures WithinSize(Step(p, h.state, op).state)
  {
    var s := h.state;
    if s.Open? && NoWrap(s.maxItems, s.maxSize) {
      match op
      case Put(cid, buf, len, now) =>
        if 0 < len <= s.maxSize {
          PutWithinSize(p, s, cid, Rec(len, buf, now));
        }
      case Get(cid, now) =>
        if cid in s.items {
          SumsTouched(s.items, cid, now);
        }
      case Delete(cid) =>
        if cid in s.items {
          SizeWithout(s.items, cid);
        }
      case _ =>
    }
  }

  lemma PutWithinSize(p: Policy, s: State, cid: nat, r: Rec)
    requires s.Open? && NoWrap(s.maxItems, s.maxSize) && 0 < s.maxItems
    requires Size(s.items) <= s.maxSize && 0 < r.size <= s.maxSize
    ensures var kept := EjectUntilFits(p, s.maxItems, s.maxSize, s.items, r.size);
      cid !in kept ==> Size(kept[cid := r]) <= s.maxSize
  {
    var kept := EjectUntilFits(p, s.maxItems, s.maxSize, s.items, r.size);
    EjectShrinks(p, s.maxItems, s.maxSize, s.items, r.size);
    var n := RoomIsMade(p, s.maxItems, s.maxSize, s.items, r.size);
    if cid !in kept {
      hide Add32;
      SumsWith(kept, cid, r);
      assert s.maxItems == 1 ==> |kept| == 0 && Size(kept) == 0;
      NoWrap32(Size(kept), r.size);
    }
  }

  lemma {:induction false} RunWithinSize(p: Policy, ops: seq<Op>)
    ensures WithinSize(Run(p, ops).state)
  {
    if ops != [] {
      RunGood(p, ops[..|ops| - 1]);
      RunWithinSize(p, ops[..|ops| - 1]);
      StepWithinSize(p, Run(p, ops[..|ops| - 1]), ops[|ops| - 1]);
    }
  }

  // The run that overfills a cache with a large byte limit: the 32-bit sum of the two
  // lengths wraps to zero, so the second item seems to fit.
  function Overfill(maxItems: uint32, maxSize: uint32): seq<Op> {
    var t := Timeval(0, 0);
    [Init(maxItems, maxSize), Put(1, 1, 0x8000_0000, t), Put(2, 2, 0x8000_0000, t)]
  }

  // The items of a cache never exceed its byte limit in any run, exactly when the limit is
  // below 2^31 or the cache holds one item at most.
  lemma SizeLimit(p: Policy, maxItems: uint32, maxSize: uint32)
    requires 0 < maxItems && 0 < maxSize
    ensures (forall ops :: var s := Run(p, ops).state;
               s.Open? && s.maxItems == maxItems && s.maxSize == maxSize ==> Size(s.items) <= maxSize)
       <==> NoWrap(maxItems, maxSize)
  {
    if NoWrap(maxItems, maxSize) {
      forall ops
        ensures WithinSize(Run(p, ops).state)
      {
        RunWithinSize(p, ops);
      }
    } else {
      OverfillExceeds(p, maxItems, maxSize);
    }
  }

  lemma RunMore(p: Policy, ops: seq<Op>, op: Op)
    ensures Run(p, ops + [op]) == Record(p, Run(p, ops), op)
  {
    assert (ops + [op])[..|ops|] == ops;
  }

  // A put that fits at once, of a cid not present, only adds its entry.
  lemma PutThatFits(p: Policy, s: State, cid: uint32, buf: Buffer, len: uint32, now: Timeval)
    requires s.Open? && cid !in s.items && 0 < len <= s.maxSize && buf != NULL
    requires Fits(s.maxItems, s.maxSize, s.items, len)
    ensures Step(p, s, Put(cid, buf, len, now)).state == s.(items := s.items[cid := Rec(len, buf, now)])
  {
  }

  // A put that fits after one ejection, of a cid not present.
  lemma PutThatEjects(p: Policy, s: State, cid: uint32, buf: Buffer, len: uint32, now: Timeval)
    requires s.Open? && s.items != map[] && cid !in s.items && 0 < len <= s.maxSize && buf != NULL
    requires !Fits(s.maxItems, s.maxSize, s.items, len)
    requires Fits(s.maxItems, s.maxSize, s.items - {Victim(p, s.items)}, len)
    ensures Step(p, s, Put(cid, buf, len, now)).state
         == s.(items := (s.items - {Victim(p, s.items)})[cid := Rec(len, buf, now)])
  {
    hide Fits, Victim;
    var rest := s.items - {Victim(p, s.items)};
    assert EjectUntilFits(p, s.maxItems, s.maxSize, rest, len) == rest;
  }

  // A put of an absent cid succeeds for every buffer no longer than the cache, and for no other.
  lemma PutAnswers(p: Policy, s: State, cid: uint32, buf: Buffer, len: uint32, now: Timeval)
    requires s.Open? && cid !in s.items
    ensures var o := Step(p, s, Put(cid, buf, len, now));
      && (o.reply == Status(0) <==> buf != NULL && 1 <= len <= s.maxSize)
      && (o.reply == Status(0) ==> o.state.Open? && cid in o.state.items && o.state.items[cid] == Rec(len, buf, now))
      && (o.reply != Status(0) ==> o.state == s && o.reply == Status(-1))
  {
    hide EjectUntilFits, Bufs, Size;
    EjectShrinks(p, s.maxItems, s.maxSize, s.items, len);
  }

  // Three puts, each later than the one before, into a cache for two items.
  predicate Rising(a: Op, b: Op, c: Op, maxSize: uint32) {
    && a.Put? && b.Put? && c.Put? && a.cid != b.cid && a.cid != c.cid && b.cid != c.cid
    && a.buf != NULL && b.buf != NULL && c.buf != NULL
    && 0 < a.len && 0 < b.len && 0 < c.len && a.len + b.len + c.len <= maxSize
    && Micros(a.now) < Micros(b.now) < Micros(c.now)
  }

  function Entry(op: Op): Rec
    requires op.Put?
  {
    Rec(op.len, op.buf, op.now)
  }

  // The documented policy gives up the first of them. The one computed keeps the first, and
  // gives up the second, which was used last.
  lemma ThirdPutEjects(p: Policy, a: Op, b: Op, c: Op, maxSize: uint32)
    requires Rising(a, b, c, maxSize)
    ensures Run(p, [Init(2, maxSize), a, b, c]).state ==
      Open(2, maxSize, (if p.Newest? then map[a.cid := Entry(a)] else map[b.cid := Entry(b)])[c.cid := Entry(c)])
  {
    hide Fits, EjectUntilFits, Victim, PutStep, GetStep, DeleteStep, CloseStep, Bufs, Size, Run;
    TwoPuts(p, a, b, c, maxSize);
    var two: Items := map[][a.cid := Entry(a)][b.cid := Entry(b)];
    assert [Init(2, maxSize), a, b] + [c] == [Init(2, maxSize), a, b, c];
    RunMore(p, [Init(2, maxSize), a, b], c);
    RoomForTwo(a, b, c, maxSize);
    VictimOfTwo(p, a, b, c, maxSize);
    PutThatEjects(p, Open(2, maxSize, two), c.cid, c.buf, c.len, c.now);
  }

  // The first two of them fit.
  lemma TwoPuts(p: Policy, a: Op, b: Op, c: Op, maxSize: uint32)
    requires Rising(a, b, c, maxSize)
    ensures Run(p, [Init(2, maxSize), a, b]).state ==
      Open(2, maxSize, map[][a.cid := Entry(a)][b.cid := Entry(b)])
  {
    hide Fits, EjectUntilFits, Victim, PutStep, GetStep, DeleteStep, CloseStep, Bufs, Size;
    var ops := [Init(2, maxSize), a, b];
    assert ops == [] + [ops[0]] + [a] + [b];
    RunMore(p, [], ops[0]);
    RunMore(p, [] + [ops[0]], a);
    RunMore(p, [] + [ops[0]] + [a], b);
    RoomForTwo(a, b, c, maxSize);
    PutThatFits(p, Open(2, maxSize, map[]), a.cid, a.buf, a.len, a.now);
    PutThatFits(p, Open(2, maxSize, map[][a.cid := Entry(a)]), b.cid, b.buf, b.len, b.now);
  }

  lemma RoomForTwo(a: Op, b: Op, c: Op, maxSize: uint32)
    requires Rising(a, b, c, maxSize)
    ensures var one: Items := map[][a.cid := Entry(a)];
      && Fits(2, maxSize, map[], a.len) && Fits(2, maxSize, one, b.len)
      && !Fits(2, maxSize, one[b.cid := Entry(b)], c.len)
    ensures Fits(2, maxSize, map[a.cid := Entry(a)], c.len) && Fits(2, maxSize, map[b.cid := Entry(b)], c.len)
  {
    hide Fits;
    OneItemFits(maxSize, a, b.len);
    OneItemFits(maxSize, a, c.len);
    OneItemFits(maxSize, b, c.len);
    var one: Items := map[][a.cid := Entry(a)];
    TwoItemsFull(maxSize, one[b.cid := Entry(b)], c.len);
  }

  lemma OneItemFits(maxSize: uint32, a: Op, len: uint32)
    requires a.Put? && a.len + len <= maxSize
    ensures Fits(2, maxSize, map[], a.len) && Fits(2, maxSize, map[a.cid := Entry(a)], len)
  {
    var none: Items := map[];
    SumsWith(none, a.cid, Entry(a));
    NoWrap32(a.len, len);
  }

  lemma TwoItemsFull(maxSize: uint32, items: Items, len: uint32)
    requires |items| == 2
    ensures !Fits(2, maxSize, items, len)
  {
  }

  lemma VictimOfTwo(p: Policy, a: Op, b: Op, c: Op, maxSize: uint32)
    requires Rising(a, b, c, maxSize)
    ensures var two: Items := map[][a.cid := Entry(a)][b.cid := Entry(b)];
      && a.cid in two && Victim(p, two) == (if p.Newest? then b.cid else a.cid)
      && two - {Victim(p, two)} == if p.Newest? then map[a.cid := Entry(a)] else map[b.cid := Entry(b)]
  {
    var two: Items := map[][a.cid := Entry(a)][b.cid := Entry(b)];
    assert IsVictim(p, two, if p.Newest? then b.cid else a.cid);
    VictimUnique(p, two, if p.Newest? then b.cid else a.cid);
  }

  lemma OverfillExceeds(p: Policy, maxItems: uint32, maxSize: uint32)
    requires maxItems > 1 && maxSize >= 0x8000_0000
    ensures var s := Run(p, Overfill(maxItems, maxSize)).state;
      s.Open? && s.maxItems == maxItems && s.maxSize == maxSize && Size(s.items) == U32
  {
    hide Fits, Size, EjectUntilFits;
    var ops, t := Overfill(maxItems, maxSize), Timeval(0, 0);
    assert ops == [] + [ops[0]] + [ops[1]] + [ops[2]];
    RunMore(p, [], ops[0]);
    RunMore(p, [] + [ops[0]], ops[1]);
    RunMore(p, [] + [ops[0]] + [ops[1]], ops[2]);
    TwoHalvesFit(maxItems, maxSize, t);
    PutThatFits(p, Open(maxItems, maxSize, map[]), 1, 1, 0x8000_0000, t);
    PutThatFits(p, Open(maxItems, maxSize, map[][1 := Half(1, t)]), 2, 2, 0x8000_0000, t);
  }

  function Half(buf: Buffer, t: Timeval): Rec {
    Rec(0x8000_0000, buf, t)
  }

  lemma TwoHalvesFit(maxItems: uint32, maxSize: uint32, t: Timeval)
    requires maxItems > 1 && maxSize >= 0x8000_0000
    ensures Fits(maxItems, maxSize, map[], 0x8000_0000)
    ensures Fits(maxItems, maxSize, map[][1 := Half(1, t)], 0x8000_0000)
    ensures Size(map[][1 := Half(1, t)][2 := Half(2, t)]) == U32
  {
    SumsWith(map[], 1, Half(1, t));
    SumsWith(map[][1 := Half(1, t)], 2, Half(2, t));
  }
}
