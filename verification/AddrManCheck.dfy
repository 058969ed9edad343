/**
 Check_ (src/addrman.cpp), the manager's own consistency check: what it accepts, and that
 this is the consistency condition, except for two things it does not look at.
 */
module AddrManCheck {
  import opened AddrManState
  import opened AddrManStream
  import opened AddressManager

  /** mapAddr[info]: an ip that is not recorded reads as 0. */
  function AddrOf(addr: map<NetAddr, int>, ip: NetAddr): int {
    if ip in addr then addr[ip] else 0
  }

  /** Looking up an ip that is not recorded inserts it, with 0. */
  ghost predicate LooksSame(addr: map<NetAddr, int>, addr': map<NetAddr, int>) {
    && (forall ip: NetAddr :: ip in addr ==> ip in addr' && addr'[ip] == addr[ip])
    && (forall ip: NetAddr :: ip in addr' && ip !in addr ==> addr'[ip] == 0)
  }

  /** What the first loop asks of an entry. */
  predicate EntryPasses(info: AddrInfo, n: int, addr: map<NetAddr, int>, random: seq<int>) {
    && (if info.inTried then info.stats.lastSuccess != 0 && info.refCount == 0
        else 0 < info.refCount <= NEW_BUCKETS_PER_ADDRESS)
    && AddrOf(addr, info.service.ip) == n
    && 0 <= info.randomPos < |random| && random[info.randomPos] == n
    && info.stats.lastTry >= 0 && info.stats.lastSuccess >= 0
  }

  ghost predicate EntriesPass(s: State) {
    forall n :: n in s.info ==> EntryPasses(s.info[n], n, s.addr, s.random)
  }

  ghost predicate SizesPass(s: State) {
    && |s.random| == s.nTried + s.nNew
    && |TriedIds(s.info)| == s.nTried && |s.info| - |TriedIds(s.info)| == s.nNew
  }

  /** Reference counts of the entries that are not tried. */
  ghost predicate CountsPass(info: map<int, AddrInfo>, table: map<Slot, int>) {
    forall n :: n in info && !info[n].inTried ==> info[n].refCount == |Refs(table, n)|
  }

  /** What Check_ accepts. */
  ghost predicate Passes(h: Hasher, s: State) {
    && s.key != 0 && SizesPass(s) && EntriesPass(s)
    && TriedOk(h, s.key, s.info, s.tried)
    && NewOk(h, s.key, s.info, s.new_) && CountsPass(s.info, s.new_)
  }

  /** What it does not look at: addresses recorded for nobody, and ids beyond the counter. */
  ghost predicate Unchecked(s: State) {
    && AddrOk(s.info, s.addr)
    && 0 <= s.idCount && forall n :: n in s.info ==> 0 <= n < s.idCount
  }

  // ---------------------------------------------------------------------------
  // Passing is being consistent.

  lemma TriedHaveNoRefs(h: Hasher, s: State, n: int)
    requires NewOk(h, s.key, s.info, s.new_) && n in s.info && s.info[n].inTried
    ensures Refs(s.new_, n) == {}
  {
  }

  /** An address recorded for nobody passes. */
  lemma StrayAddressPasses(h: Hasher, key: nat, a: NetAddr)
    requires key != 0
    ensures Passes(h, Empty(key).(addr := map[a := 5])) && !Inv(h, Empty(key).(addr := map[a := 5]))
  {
    var s := Empty(key).(addr := map[a := 5]);
    assert a in s.addr && s.addr[a] !in s.info;
    assert !Holds(h, s, {}, AddressMap);
  }

  lemma InvPasses(h: Hasher, s: State)
    requires Inv(h, s)
    ensures Passes(h, s) && Unchecked(s)
  {
    CoreParts(h, s, {});
  }

  /** The positions of the first n ids in the random vector. */
  ghost function Positions(info: map<int, AddrInfo>, ids: seq<int>, n: nat): set<nat>
    requires n <= |ids| && AllIn(ids, info) && forall k :: k in info ==> info[k].randomPos >= 0
  {
    if n == 0 then {} else Positions(info, ids, n - 1) + {info[ids[n - 1]].randomPos}
  }

  /** No two ids have the same position. */
  lemma {:induction false} PositionIsNew(info: map<int, AddrInfo>, ids: seq<int>, n: nat, m: nat, random: seq<int>)
    requires n <= m < |ids| && AllIn(ids, info) && Distinct(ids)
    requires forall k :: k in info ==> 0 <= info[k].randomPos < |random| && random[info[k].randomPos] == k
    ensures info[ids[m]].randomPos !in Positions(info, ids, n)
  {
    if n > 0 {
      PositionIsNew(info, ids, n - 1, m, random);
      assert ids[n - 1] != ids[m];
    }
  }

  lemma {:induction false} PositionsAre(info: map<int, AddrInfo>, ids: seq<int>, n: nat, random: seq<int>)
    requires n <= |ids| && AllIn(ids, info) && Distinct(ids)
    requires forall k :: k in info ==> 0 <= info[k].randomPos < |random| && random[info[k].randomPos] == k
    ensures |Positions(info, ids, n)| == n && forall p :: p in Positions(info, ids, n) ==> p < |random|
  {
    if n > 0 {
      PositionsAre(info, ids, n - 1, random);
      PositionIsNew(info, ids, n - 1, n - 1, random);
    }
  }

  lemma {:induction false} PositionOf(info: map<int, AddrInfo>, ids: seq<int>, n: nat, p: nat) returns (i: nat)
    requires n <= |ids| && AllIn(ids, info) && forall k :: k in info ==> info[k].randomPos >= 0
    requires p in Positions(info, ids, n)
    ensures i < n && info[ids[i]].randomPos == p
  {
    if info[ids[n - 1]].randomPos == p {
      i := n - 1;
    } else {
      i := PositionOf(info, ids, n - 1, p);
    }
  }

  function Below(n: nat): set<nat> {
    if n == 0 then {} else Below(n - 1) + {n - 1}
  }

  lemma {:induction false} BelowIs(n: nat)
    ensures |Below(n)| == n && forall i: nat :: i in Below(n) <==> i < n
  {
    if n > 0 {
      BelowIs(n - 1);
    }
  }

  lemma FullSubset(a: set<nat>, b: set<nat>)
    requires a <= b && |a| == |b|
    ensures a == b
  {
    assert b == a + (b - a);
  }

  /** As many places as ids, and every id in its own: every place is taken. */
  lemma RandomIsFull(info: map<int, AddrInfo>, ids: seq<int>, random: seq<int>)
    requires Enumerates(ids, info) && |random| == |info|
    requires forall k :: k in info ==> 0 <= info[k].randomPos < |random| && random[info[k].randomPos] == k
    ensures RandomOk(info, random)
  {
    EnumerationCounts(info, ids);
    PositionsAre(info, ids, |ids|, random);
    BelowIs(|random|);
    FullSubset(Positions(info, ids, |ids|), Below(|random|));
    forall i | 0 <= i < |random| ensures random[i] in info && info[random[i]].randomPos == i {
      var k := PositionOf(info, ids, |ids|, i);
    }
  }

  lemma PassesMeansInv(h: Hasher, s: State, ids: seq<int>)
    requires Passes(h, s) && Unchecked(s) && Enumerates(ids, s.info)
    ensures Inv(h, s)
  {
    assert forall n :: n in s.info ==> EntryPasses(s.info[n], n, s.addr, s.random);
    RandomIsFull(s.info, ids, s.random);
    assert RefsOk(s.info, s.new_, {}) by {
      forall n | n in s.info && s.info[n].inTried ensures Refs(s.new_, n) == {} {
        TriedHaveNoRefs(h, s, n);
      }
    }
    assert EntriesOk(s.info, s.idCount);
  }

  // ---------------------------------------------------------------------------
  // The sets the check collects.

  /** An id as an element of the check's sets. */
  datatype Id = Id(id: int)

  /** setTried and mapNew after the first n ids. */
  ghost predicate CollectedIds(info: map<int, AddrInfo>, ids: seq<int>, n: nat, setTried: set<Id>, mapNew: map<Id, int>)
    requires n <= |ids| && AllIn(ids, info)
  {
    && (forall k :: k in setTried <==> exists i :: 0 <= i < n && ids[i] == k.id && info[ids[i]].inTried)
    && (forall k :: k in mapNew <==> exists i :: 0 <= i < n && ids[i] == k.id && !info[ids[i]].inTried)
    && (forall i :: 0 <= i < n && !info[ids[i]].inTried ==> mapNew[Id(ids[i])] == info[ids[i]].refCount)
  }

  /** The two sides of what is collected, named, so that a proof can use one without the other. */
  datatype Side = Members | Cardinalities

  ghost predicate CollectedIn(info: map<int, AddrInfo>, ids: seq<int>, n: nat, setTried: set<Id>, mapNew: map<Id, int>, a: Side)
    requires n <= |ids| && AllIn(ids, info)
  {
    match a
    case Members => CollectedIds(info, ids, n, setTried, mapNew)
    case Cardinalities => |setTried| == |TriedAmong(info, ids, n)| && |setTried| + |mapNew| == n
  }

  ghost predicate Collected(info: map<int, AddrInfo>, ids: seq<int>, n: nat, setTried: set<Id>, mapNew: map<Id, int>)
    requires n <= |ids| && AllIn(ids, info)
  {
    forall a :: CollectedIn(info, ids, n, setTried, mapNew, a)
  }

  lemma CollectOneId(info: map<int, AddrInfo>, ids: seq<int>, n: nat, setTried: set<Id>, mapNew: map<Id, int>)
    requires n < |ids| && AllIn(ids, info) && Distinct(ids) && CollectedIds(info, ids, n, setTried, mapNew)
    ensures Id(ids[n]) !in setTried && Id(ids[n]) !in mapNew
    ensures info[ids[n]].inTried ==> CollectedIds(info, ids, n + 1, setTried + {Id(ids[n])}, mapNew)
    ensures !info[ids[n]].inTried ==> CollectedIds(info, ids, n + 1, setTried, mapNew[Id(ids[n]) := info[ids[n]].refCount])
  {
  }

  lemma OneMoreKey(mapNew: map<Id, int>, k: Id, x: int)
    requires k !in mapNew
    ensures |mapNew[k := x]| == |mapNew| + 1
  {
    assert mapNew[k := x].Keys == mapNew.Keys + {k};
    assert |mapNew[k := x].Keys| == |mapNew[k := x]| && |mapNew.Keys| == |mapNew|;
  }

  lemma CollectOne(info: map<int, AddrInfo>, ids: seq<int>, n: nat, setTried: set<Id>, mapNew: map<Id, int>)
    requires n < |ids| && AllIn(ids, info) && Distinct(ids) && Collected(info, ids, n, setTried, mapNew)
    ensures info[ids[n]].inTried ==> Collected(info, ids, n + 1, setTried + {Id(ids[n])}, mapNew)
    ensures !info[ids[n]].inTried ==> Collected(info, ids, n + 1, setTried, mapNew[Id(ids[n]) := info[ids[n]].refCount])
  {
    assert CollectedIn(info, ids, n, setTried, mapNew, Members) && CollectedIn(info, ids, n, setTried, mapNew, Cardinalities);
    CollectOneId(info, ids, n, setTried, mapNew);
    OneMoreKey(mapNew, Id(ids[n]), info[ids[n]].refCount);
  }

  /** Once all ids are collected. */
  ghost predicate AllCollected(info: map<int, AddrInfo>, setTried: set<Id>, mapNew: map<Id, int>) {
    && (forall k :: k in setTried <==> k.id in info && info[k.id].inTried)
    && (forall k :: k in mapNew <==> k.id in info && !info[k.id].inTried)
    && (forall k :: k in mapNew ==> mapNew[k] == info[k.id].refCount)
    && |setTried| == |TriedIds(info)| && |setTried| + |mapNew| == |info|
  }

  lemma CollectedAll(info: map<int, AddrInfo>, ids: seq<int>, setTried: set<Id>, mapNew: map<Id, int>)
    requires Enumerates(ids, info) && Collected(info, ids, |ids|, setTried, mapNew)
    ensures AllCollected(info, setTried, mapNew)
  {
    assert CollectedIn(info, ids, |ids|, setTried, mapNew, Members) && CollectedIn(info, ids, |ids|, setTried, mapNew, Cardinalities);
    EnumerationCounts(info, ids);
    forall n: int ensures n in info <==> exists i :: 0 <= i < |ids| && ids[i] == n {
      IdSetMembers(ids, |ids|, n);
    }
  }

  // ---------------------------------------------------------------------------
  // Walking the tried table.

  /** The slots before (b, p) hold tried ids where they belong, and setTried lacks exactly those. */
  ghost predicate TriedSoFar(h: Hasher, s: State, b: nat, p: nat, setTried: set<Id>) {
    && (forall sl :: sl in s.tried && Before(sl, b, p) ==>
          s.tried[sl] in s.info && s.info[s.tried[sl]].inTried && sl == h.TriedSlot(s.key, s.info[s.tried[sl]].service))
    && (forall k :: k in setTried <==>
          k.id in s.info && s.info[k.id].inTried &&
          !(var at := h.TriedSlot(s.key, s.info[k.id].service); Before(at, b, p) && at in s.tried && s.tried[at] == k.id))
  }

  lemma BeforeNext(sl: Slot, b: nat, p: nat)
    ensures Before(sl, b, p + 1) <==> Before(sl, b, p) || sl == Slot(b, p)
  {
    assert sl == Slot(sl.bucket, sl.pos);
  }

  /** What the check asks of an occupied slot. */
  predicate TriedSlotPasses(h: Hasher, s: State, sl: Slot, setTried: set<Id>)
    requires sl in s.tried
  {
    Id(s.tried[sl]) in setTried && s.tried[sl] in s.info && sl == h.TriedSlot(s.key, s.info[s.tried[sl]].service)
  }

  lemma VisitTried(h: Hasher, s: State, b: nat, p: nat, setTried: set<Id>)
    requires TriedSoFar(h, s, b, p, setTried)
    ensures Slot(b, p) !in s.tried ==> TriedSoFar(h, s, b, p + 1, setTried)
    ensures Slot(b, p) in s.tried && TriedSlotPasses(h, s, Slot(b, p), setTried) ==>
              TriedSoFar(h, s, b, p + 1, setTried - {Id(s.tried[Slot(b, p)])})
    ensures Slot(b, p) in s.tried && !TriedSlotPasses(h, s, Slot(b, p), setTried) ==> !TriedOk(h, s.key, s.info, s.tried)
  {
    forall sl: Slot ensures Before(sl, b, p + 1) <==> Before(sl, b, p) || sl == Slot(b, p) {
      BeforeNext(sl, b, p);
    }
  }

  lemma TriedDone(h: Hasher, s: State, setTried: set<Id>)
    requires TriedSoFar(h, s, TRIED_BUCKET_COUNT, 0, setTried)
    requires forall sl :: sl in s.tried ==> sl.bucket < TRIED_BUCKET_COUNT
    ensures setTried == {} <==> TriedOk(h, s.key, s.info, s.tried)
  {
    if TriedOk(h, s.key, s.info, s.tried) {
      forall k ensures k !in setTried {
        if k in setTried {
          TriedAt(h, s.key, s.info, s.tried, k.id);
        }
      }
    } else if setTried == {} {
      forall n | n in s.info && s.info[n].inTried
        ensures h.TriedSlot(s.key, s.info[n].service) in s.tried && s.tried[h.TriedSlot(s.key, s.info[n].service)] == n
      {
        assert Id(n) !in setTried;
      }
    }
  }

  lemma NextTriedBucket(h: Hasher, s: State, b: nat, setTried: set<Id>)
    requires TriedSoFar(h, s, b, BUCKET_SIZE, setTried) && forall sl :: sl in s.tried ==> sl.pos < BUCKET_SIZE
    ensures TriedSoFar(h, s, b + 1, 0, setTried)
  {
  }

  // ---------------------------------------------------------------------------
  // Walking the new table.

  /** The slots of an id before (b, p). */
  ghost function Seen(table: map<Slot, int>, n: int, b: nat, p: nat): set<Slot> {
    set sl | sl in table && table[sl] == n && Before(sl, b, p)
  }

  /** The slots before (b, p) hold new ids where they belong, and mapNew has the references still missing. */
  ghost predicate NewSoFar(h: Hasher, s: State, b: nat, p: nat, mapNew: map<Id, int>) {
    && (forall sl :: sl in s.new_ && Before(sl, b, p) ==> NewSlotFits(h, s, sl))
    && (forall n :: n in s.info && !s.info[n].inTried ==> |Seen(s.new_, n, b, p)| <= s.info[n].refCount)
    && (forall k :: k in mapNew <==> k.id in s.info && !s.info[k.id].inTried && |Seen(s.new_, k.id, b, p)| < s.info[k.id].refCount)
    && (forall k :: k in mapNew ==> mapNew[k] == s.info[k.id].refCount - |Seen(s.new_, k.id, b, p)|)
  }

  predicate NewSlotFits(h: Hasher, s: State, sl: Slot)
    requires sl in s.new_
  {
    s.new_[sl] in s.info && !s.info[s.new_[sl]].inTried && sl.bucket < NEW_BUCKET_COUNT &&
    sl == h.NewSlotIn(s.key, sl.bucket, s.info[s.new_[sl]].service)
  }

  lemma SeenNext(table: map<Slot, int>, n: int, b: nat, p: nat)
    ensures Slot(b, p) in table && table[Slot(b, p)] == n ==>
              |Seen(table, n, b, p + 1)| == |Seen(table, n, b, p)| + 1 && |Seen(table, n, b, p)| < |Refs(table, n)|
    ensures !(Slot(b, p) in table && table[Slot(b, p)] == n) ==> Seen(table, n, b, p + 1) == Seen(table, n, b, p)
  {
    var sl, later := Slot(b, p), Seen(table, n, b, p + 1);
    forall x: Slot ensures Before(x, b, p + 1) <==> Before(x, b, p) || x == sl {
      BeforeNext(x, b, p);
    }
    if sl in table && table[sl] == n {
      assert later == Seen(table, n, b, p) + {sl};
      SubsetSize(later, Refs(table, n));
    } else {
      assert later == Seen(table, n, b, p);
    }
  }

  predicate NewSlotPasses(h: Hasher, s: State, sl: Slot, mapNew: map<Id, int>)
    requires sl in s.new_
  {
    Id(s.new_[sl]) in mapNew && NewSlotFits(h, s, sl)
  }

  /** One reference less is missing; with the last the id is dropped. */
  function CountDown(mapNew: map<Id, int>, k: Id): map<Id, int>
    requires k in mapNew
  {
    if mapNew[k] - 1 == 0 then mapNew - {k} else mapNew[k := mapNew[k] - 1]
  }

  lemma SkipNew(h: Hasher, s: State, b: nat, p: nat, mapNew: map<Id, int>)
    requires NewSoFar(h, s, b, p, mapNew) && Slot(b, p) !in s.new_
    ensures NewSoFar(h, s, b, p + 1, mapNew)
  {
    forall x | x in s.new_ ensures Before(x, b, p + 1) <==> Before(x, b, p) {
      BeforeNext(x, b, p);
    }
    forall n: int ensures Seen(s.new_, n, b, p + 1) == Seen(s.new_, n, b, p) {
      SeenNext(s.new_, n, b, p);
    }
  }

  lemma VisitNew(h: Hasher, s: State, b: nat, p: nat, mapNew: map<Id, int>)
    requires NewSoFar(h, s, b, p, mapNew) && Slot(b, p) in s.new_ && NewSlotPasses(h, s, Slot(b, p), mapNew)
    ensures NewSoFar(h, s, b, p + 1, CountDown(mapNew, Id(s.new_[Slot(b, p)])))
  {
    var sl, id := Slot(b, p), s.new_[Slot(b, p)];
    forall x | x in s.new_ && Before(x, b, p + 1) ensures NewSlotFits(h, s, x) {
      BeforeNext(x, b, p);
    }
    SeenNext(s.new_, id, b, p);
    forall n: int | n != id ensures Seen(s.new_, n, b, p + 1) == Seen(s.new_, n, b, p) {
      SeenNext(s.new_, n, b, p);
    }
  }

  lemma RejectNew(h: Hasher, s: State, b: nat, p: nat, mapNew: map<Id, int>)
    requires NewSoFar(h, s, b, p, mapNew) && Slot(b, p) in s.new_ && !NewSlotPasses(h, s, Slot(b, p), mapNew)
    ensures !(NewOk(h, s.key, s.info, s.new_) && CountsPass(s.info, s.new_))
  {
    SeenNext(s.new_, s.new_[Slot(b, p)], b, p);
  }

  lemma SeenAll(h: Hasher, s: State, n: int)
    requires forall sl :: sl in s.new_ ==> sl.bucket < NEW_BUCKET_COUNT
    ensures Seen(s.new_, n, NEW_BUCKET_COUNT, 0) == Refs(s.new_, n)
  {
  }

  lemma NewDone(h: Hasher, s: State, mapNew: map<Id, int>)
    requires NewSoFar(h, s, NEW_BUCKET_COUNT, 0, mapNew)
    requires forall sl :: sl in s.new_ ==> sl.bucket < NEW_BUCKET_COUNT
    ensures mapNew == map[] <==> NewOk(h, s.key, s.info, s.new_) && CountsPass(s.info, s.new_)
  {
    forall n: int ensures Seen(s.new_, n, NEW_BUCKET_COUNT, 0) == Refs(s.new_, n) {
      SeenAll(h, s, n);
    }
    assert NewOk(h, s.key, s.info, s.new_) by {
      assert forall sl :: sl in s.new_ ==> NewSlotFits(h, s, sl);
    }
    if CountsPass(s.info, s.new_) {
      forall k ensures k !in mapNew {
      }
    } else if mapNew == map[] {
      forall n | n in s.info && !s.info[n].inTried ensures s.info[n].refCount == |Refs(s.new_, n)| {
        assert Id(n) !in mapNew;
      }
    }
  }

  lemma NextNewBucket(h: Hasher, s: State, b: nat, mapNew: map<Id, int>)
    requires NewSoFar(h, s, b, BUCKET_SIZE, mapNew) && forall sl :: sl in s.new_ ==> sl.pos < BUCKET_SIZE
    ensures NewSoFar(h, s, b + 1, 0, mapNew)
  {
    forall n: int ensures Seen(s.new_, n, b + 1, 0) == Seen(s.new_, n, b, BUCKET_SIZE) {
    }
  }

  // ---------------------------------------------------------------------------
  // The check.

  lemma TableInRange(a: array2<int>)
    ensures forall sl :: sl in Table(a) ==> sl.bucket < a.Length0 && sl.pos < a.Length1
  {
  }

  lemma StartTried(h: Hasher, s: State, setTried: set<Id>, mapNew: map<Id, int>)
    requires AllCollected(s.info, setTried, mapNew)
    ensures TriedSoFar(h, s, 0, 0, setTried)
  {
  }

  lemma StartNew(h: Hasher, s: State, setTried: set<Id>, mapNew: map<Id, int>)
    requires AllCollected(s.info, setTried, mapNew) && EntriesPass(s)
    ensures NewSoFar(h, s, 0, 0, mapNew)
  {
    forall n: int ensures Seen(s.new_, n, 0, 0) == {} {
    }
    forall n | n in s.info && !s.info[n].inTried ensures 0 < s.info[n].refCount {
      assert EntryPasses(s.info[n], n, s.addr, s.random);
    }
  }

  /** One entry, with the codes of the source. */
  method CheckEntry(m: AddrMan, n: int) returns (r: int)
    requires n in m.mapInfo
    modifies m`mapAddr
    ensures r == 0 <==> EntryPasses(m.mapInfo[n], n, old(m.mapAddr), m.vRandom)
    ensures LooksSame(old(m.mapAddr), m.mapAddr) && (r == 0 ==> Recorded(m, n))
  {
    var info := m.mapInfo[n];
    if info.inTried {
      if info.stats.lastSuccess == 0 {
        return -1;
      }
      if info.refCount != 0 {
        return -2;
      }
    } else {
      if info.refCount < 0 || info.refCount > NEW_BUCKETS_PER_ADDRESS {
        return -3;
      }
      if info.refCount == 0 {
        return -4;
      }
    }
    if info.service.ip !in m.mapAddr {
      m.mapAddr := m.mapAddr[info.service.ip := 0];
    }
    if m.mapAddr[info.service.ip] != n {
      return -5;
    }
    if info.randomPos < 0 || info.randomPos >= |m.vRandom| || m.vRandom[info.randomPos] != n {
      return -14;
    }
    if info.stats.lastTry < 0 {
      return -6;
    }
    if info.stats.lastSuccess < 0 {
      return -8;
    }
    r := 0;
  }

  method Collect(m: AddrMan, ids: seq<int>) returns (setTried: set<Id>, mapNew: map<Id, int>)
    requires Enumerates(ids, m.mapInfo)
    ensures AllCollected(m.mapInfo, setTried, mapNew)
  {
    setTried, mapNew := {}, map[];
    for i := 0 to |ids|
      invariant Collected(m.mapInfo, ids, i, setTried, mapNew)
    {
      CollectOne(m.mapInfo, ids, i, setTried, mapNew);
      if m.mapInfo[ids[i]].inTried {
        setTried := setTried + {Id(ids[i])};
      } else {
        mapNew := mapNew[Id(ids[i]) := m.mapInfo[ids[i]].refCount];
      }
    }
    CollectedAll(m.mapInfo, ids, setTried, mapNew);
  }

  /** The address of the entry leads to it. */
  ghost predicate Recorded(m: AddrMan, n: int)
    requires n in m.mapInfo
    reads m
  {
    m.mapInfo[n].service.ip in m.mapAddr && m.mapAddr[m.mapInfo[n].service.ip] == n
  }

  lemma AllEntriesPass(m: AddrMan, ids: seq<int>, addr: map<NetAddr, int>)
    requires Enumerates(ids, m.mapInfo)
    requires forall j :: 0 <= j < |ids| ==> EntryPasses(m.mapInfo[ids[j]], ids[j], addr, m.vRandom) && Recorded(m, ids[j])
    ensures EntriesPass(m.Snapshot().(addr := addr)) && forall n :: n in m.mapInfo ==> Recorded(m, n)
  {
    forall n | n in m.mapInfo ensures EntryPasses(m.mapInfo[n], n, addr, m.vRandom) && Recorded(m, n) {
      IdSetMembers(ids, |ids|, n);
    }
  }

  lemma LooksComposes(a: map<NetAddr, int>, b: map<NetAddr, int>, c: map<NetAddr, int>)
    requires LooksSame(a, b) && LooksSame(b, c)
    ensures LooksSame(a, c) && forall ip: NetAddr :: AddrOf(a, ip) == AddrOf(b, ip) == AddrOf(c, ip)
  {
  }

  /** The loop over the entries: they are examined and collected in one go in the source. */
  method CheckEntries(m: AddrMan, ids: seq<int>) returns (r: int, setTried: set<Id>, mapNew: map<Id, int>)
    requires Enumerates(ids, m.mapInfo)
    modifies m`mapAddr
    ensures r == 0 <==> EntriesPass(old(m.Snapshot()))
    ensures LooksSame(old(m.mapAddr), m.mapAddr) && (r == 0 ==> forall n :: n in m.mapInfo ==> Recorded(m, n))
    ensures r == 0 ==> AllCollected(m.mapInfo, setTried, mapNew)
  {
    setTried, mapNew := {}, map[];
    ghost var addr := m.mapAddr;
    for i := 0 to |ids|
      invariant LooksSame(addr, m.mapAddr)
      invariant forall j :: 0 <= j < i ==> EntryPasses(m.mapInfo[ids[j]], ids[j], addr, m.vRandom) && Recorded(m, ids[j])
    {
      ghost var before := m.mapAddr;
      r := CheckEntry(m, ids[i]);
      LooksComposes(addr, before, m.mapAddr);
      if r != 0 {
        assert ids[i] in old(m.Snapshot()).info;
        return;
      }
    }
    AllEntriesPass(m, ids, addr);
    setTried, mapNew := Collect(m, ids);
    r := 0;
  }

  /** One slot of the tried table. */
  method CheckTriedSlot(m: AddrMan, b: nat, p: nat, setTried: set<Id>) returns (r: int, setTried': set<Id>)
    requires m.Shape() && b < TRIED_BUCKET_COUNT && p < BUCKET_SIZE
    requires TriedSoFar(m.h, m.Snapshot(), b, p, setTried)
    ensures r == 0 ==> TriedSoFar(m.h, m.Snapshot(), b, p + 1, setTried')
    ensures r != 0 ==> !TriedOk(m.h, m.nKey, m.mapInfo, Table(m.vvTried))
  {
    VisitTried(m.h, m.Snapshot(), b, p, setTried);
    var id := m.vvTried[b, p];
    ghost var sl := Slot(b, p);
    assert sl in Table(m.vvTried) <==> id != -1;
    setTried' := setTried;
    if id != -1 {
      assert Table(m.vvTried)[sl] == id;
      if Id(id) !in setTried {
        return -11, setTried;
      }
      assert id in m.mapInfo;
      if m.h.triedBucket(m.nKey, m.mapInfo[id].service) != b {
        return -17, setTried;
      }
      if m.h.position(m.nKey, false, b, m.mapInfo[id].service) != p {
        return -18, setTried;
      }
      setTried' := setTried - {Id(id)};
    }
    r := 0;
  }

  method CheckTried(m: AddrMan, start: set<Id>) returns (r: int, setTried: set<Id>)
    requires m.Shape() && TriedSoFar(m.h, m.Snapshot(), 0, 0, start)
    ensures r == 0 && setTried == {} <==> TriedOk(m.h, m.nKey, m.mapInfo, Table(m.vvTried))
  {
    setTried := start;
    TableInRange(m.vvTried);
    for b := 0 to TRIED_BUCKET_COUNT
      invariant TriedSoFar(m.h, m.Snapshot(), b, 0, setTried)
    {
      for p := 0 to BUCKET_SIZE
        invariant TriedSoFar(m.h, m.Snapshot(), b, p, setTried)
      {
        r, setTried := CheckTriedSlot(m, b, p, setTried);
        if r != 0 {
          return;
        }
      }
      NextTriedBucket(m.h, m.Snapshot(), b, setTried);
    }
    TriedDone(m.h, m.Snapshot(), setTried);
    r := 0;
  }

  /** One slot of the new table. */
  method CheckNewSlot(m: AddrMan, b: nat, p: nat, mapNew: map<Id, int>) returns (r: int, mapNew': map<Id, int>)
    requires m.Shape() && b < NEW_BUCKET_COUNT && p < BUCKET_SIZE
    requires NewSoFar(m.h, m.Snapshot(), b, p, mapNew)
    ensures r == 0 ==> NewSoFar(m.h, m.Snapshot(), b, p + 1, mapNew')
    ensures r != 0 ==> !(NewOk(m.h, m.nKey, m.mapInfo, Table(m.vvNew)) && CountsPass(m.mapInfo, Table(m.vvNew)))
  {
    var id := m.vvNew[b, p];
    ghost var sl := Slot(b, p);
    ghost var s := m.Snapshot();
    assert sl in s.new_ <==> id != -1;
    mapNew' := mapNew;
    r := 0;
    if id == -1 {
      SkipNew(m.h, s, b, p, mapNew);
      return;
    }
    assert s.new_[sl] == id;
    if Id(id) !in mapNew {
      RejectNew(m.h, s, b, p, mapNew);
      return -12, mapNew;
    }
    assert id in m.mapInfo && !m.mapInfo[id].inTried;
    if m.h.position(m.nKey, true, b, m.mapInfo[id].service) != p {
      RejectNew(m.h, s, b, p, mapNew);
      return -19, mapNew;
    }
    VisitNew(m.h, s, b, p, mapNew);
    mapNew' := CountDown(mapNew, Id(id));
  }

  method CheckNewBucket(m: AddrMan, b: nat, start: map<Id, int>) returns (r: int, mapNew: map<Id, int>)
    requires m.Shape() && b < NEW_BUCKET_COUNT && NewSoFar(m.h, m.Snapshot(), b, 0, start)
    ensures r == 0 ==> NewSoFar(m.h, m.Snapshot(), b + 1, 0, mapNew)
    ensures r != 0 ==> !(NewOk(m.h, m.nKey, m.mapInfo, Table(m.vvNew)) && CountsPass(m.mapInfo, Table(m.vvNew)))
  {
    mapNew := start;
    for p := 0 to BUCKET_SIZE
      invariant NewSoFar(m.h, m.Snapshot(), b, p, mapNew)
    {
      r, mapNew := CheckNewSlot(m, b, p, mapNew);
      if r != 0 {
        return;
      }
    }
    TableInRange(m.vvNew);
    NextNewBucket(m.h, m.Snapshot(), b, mapNew);
    r := 0;
  }

  method CheckNew(m: AddrMan, start: map<Id, int>) returns (r: int, mapNew: map<Id, int>)
    requires m.Shape() && NewSoFar(m.h, m.Snapshot(), 0, 0, start)
    ensures r == 0 && mapNew == map[] <==>
              NewOk(m.h, m.nKey, m.mapInfo, Table(m.vvNew)) && CountsPass(m.mapInfo, Table(m.vvNew))
  {
    mapNew := start;
    for b := 0 to NEW_BUCKET_COUNT
      invariant NewSoFar(m.h, m.Snapshot(), b, 0, mapNew)
    {
      r, mapNew := CheckNewBucket(m, b, mapNew);
      if r != 0 {
        return;
      }
    }
    TableInRange(m.vvNew);
    NewDone(m.h, m.Snapshot(), mapNew);
    r := 0;
  }

  /**
   Zero exactly for the managers that pass; together with what is not looked at, that is
   exactly consistency.  `ids` is the order in which the id map is walked.
   */
  method Check_(m: AddrMan, ids: seq<int>) returns (r: int)
    requires m.Shape() && Enumerates(ids, m.mapInfo)
    modifies m`mapAddr
    ensures r == 0 <==> Passes(m.h, old(m.Snapshot()))
    ensures old(m.Valid()) <==> r == 0 && Unchecked(old(m.Snapshot()))
    ensures LooksSame(old(m.mapAddr), m.mapAddr) && (r == 0 ==> forall n :: n in m.mapInfo ==> Recorded(m, n))
  {
    ghost var s := m.Snapshot();
    ghost var passes := Passes(m.h, s);
    if passes && Unchecked(s) {
      PassesMeansInv(m.h, s, ids);
    }
    if m.Valid() {
      InvPasses(m.h, s);
    }
    r := CheckAll(m, ids);
  }

  method CheckAll(m: AddrMan, ids: seq<int>) returns (r: int)
    requires m.Shape() && Enumerates(ids, m.mapInfo)
    modifies m`mapAddr
    ensures r == 0 <==> Passes(m.h, old(m.Snapshot()))
    ensures LooksSame(old(m.mapAddr), m.mapAddr) && (r == 0 ==> forall n :: n in m.mapInfo ==> Recorded(m, n))
  {
    if |m.vRandom| != m.nTried + m.nNew {
      return -7;
    }
    var setTried, mapNew;
    r, setTried, mapNew := CheckEntries(m, ids);
    if r != 0 {
      return;
    }
    if |setTried| != m.nTried {
      return -9;
    }
    if |mapNew| != m.nNew {
      return -10;
    }
    StartTried(m.h, m.Snapshot(), setTried, mapNew);
    StartNew(m.h, m.Snapshot(), setTried, mapNew);
    r := CheckTables(m, setTried, mapNew);
  }

  /** The two tables, and what is left over from the entries. */
  method CheckTables(m: AddrMan, collectedTried: set<Id>, collectedNew: map<Id, int>) returns (r: int)
    requires m.Shape() && TriedSoFar(m.h, m.Snapshot(), 0, 0, collectedTried)
    requires NewSoFar(m.h, m.Snapshot(), 0, 0, collectedNew)
    ensures r == 0 <==>
              && m.nKey != 0
              && TriedOk(m.h, m.nKey, m.mapInfo, Table(m.vvTried))
              && NewOk(m.h, m.nKey, m.mapInfo, Table(m.vvNew)) && CountsPass(m.mapInfo, Table(m.vvNew))
  {
    var setTried, mapNew;
    r, setTried := CheckTried(m, collectedTried);
    if r != 0 {
      return;
    }
    r, mapNew := CheckNew(m, collectedNew);
    if r != 0 {
      return;
    }
    if |setTried| != 0 {
      return -13;
    }
    if |mapNew| != 0 {
      return -15;
    }
    if m.nKey == 0 {
      return -16;
    }
    r := 0;
  }
}
