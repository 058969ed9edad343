/**
 The public operations of the address manager on snapshots, and the theorem that
 every run of them keeps every condition of Check_.
 */
module AddrManOps {
  import opened AddrManState

  // ---------------------------------------------------------------------------
  // MakeTried.

  lemma DeleteLeavesOthers(s: State, id: int, n: int)
    requires RandomOk(s.info, s.random) && id in s.info && n in s.info && n != id
    ensures n in Delete(s, id).info && SameButPosition(s.info[n], Delete(s, id).info[n])
  {
    DeleteIsSwapThenDrop(s, id);
    SwapRepositions(s, s.info[id].randomPos, |s.random| - 1);
    RepositionedAt(s.info, SwapRandom(s, s.info[id].randomPos, |s.random| - 1).info, n);
  }

  /** Emptying a new slot touches no entry but its occupant, and no tried slot. */
  lemma ClearNewLeavesOthers(s: State, sl: Slot, n: int)
    requires RandomOk(s.info, s.random)
    requires sl in s.new_ ==> s.new_[sl] in s.info && s.new_[sl] != n
    requires n in s.info
    ensures n in ClearNew(s, sl).info && SameButPosition(s.info[n], ClearNew(s, sl).info[n])
  {
    if sl in s.new_ {
      var id := s.new_[sl];
      var t := Unref(s, sl);
      UpdateKeepsRandom(s.info, s.random, id, t.info[id]);
      if t.info[id].refCount == 0 {
        DeleteLeavesOthers(t, id, n);
      }
    }
  }

  lemma ClearNewLeavesTried(s: State, sl: Slot)
    requires RandomOk(s.info, s.random)
    requires sl in s.new_ ==> s.new_[sl] in s.info
    ensures ClearNew(s, sl).tried == s.tried && ClearNew(s, sl).key == s.key
  {
  }

  /** An id that counts no references occupies no new slot. */
  lemma UnreferencedIsAbsent(info: map<int, AddrInfo>, table: map<Slot, int>, pending: set<int>, n: int, sl: Slot)
    requires RefsOk(info, table, pending)
    requires n in info && info[n].refCount == 0 && sl in table
    ensures table[sl] != n
  {
    assert table[sl] == n ==> sl in Refs(table, n);
  }

  lemma TriedIsUnreferenced(info: map<int, AddrInfo>, table: map<Slot, int>, pending: set<int>, n: int)
    requires RefsOk(info, table, pending) && n in info && info[n].inTried
    ensures info[n].refCount == 0
  {
  }

  /** A snapshot taken while nNew is off by `d`, as it is while entries are between tables. */
  function Skew(s: State, d: int): State {
    s.(nNew := s.nNew + d)
  }

  lemma SkewCommutes(s: State, d: int, id: int, sl: Slot)
    requires id in s.info
    ensures Place(Skew(s, d), id, sl) == Skew(Place(s, id, sl), d)
    ensures Try(Skew(s, d), id, sl) == Skew(Try(s, id, sl), d)
  {
  }

  lemma SkewUntry(s: State, d: int, sl: Slot)
    requires sl in s.tried && s.tried[sl] in s.info
    ensures Untry(Skew(s, d), sl) == Skew(Untry(s, sl), d)
  {
  }

  lemma SkewSkew(s: State, d: int, e: int)
    ensures Skew(Skew(s, d), e) == Skew(s, d + e)
    ensures Skew(s, 0) == s
  {
  }

  lemma SkewDelete(s: State, d: int, id: int)
    requires RandomOk(s.info, s.random) && id in s.info
    ensures Delete(Skew(s, d), id) == Skew(Delete(s, id), d)
  {
    var i, j := s.info[id].randomPos, |s.random| - 1;
    DeleteIsSwapThenDrop(s, id);
    DeleteIsSwapThenDrop(Skew(s, d), id);
    assert SwapRandom(Skew(s, d), i, j) == Skew(SwapRandom(s, i, j), d);
  }

  lemma SkewClearNew(s: State, d: int, sl: Slot)
    requires RandomOk(s.info, s.random)
    requires sl in s.new_ ==> s.new_[sl] in s.info
    ensures ClearNew(Skew(s, d), sl) == Skew(ClearNew(s, sl), d)
  {
    if sl in s.new_ {
      var id := s.new_[sl];
      var t := Unref(s, sl);
      UpdateKeepsRandom(s.info, s.random, id, t.info[id]);
      assert Unref(Skew(s, d), sl) == Skew(t, d);
      if t.info[id].refCount == 0 {
        SkewDelete(t, d, id);
      }
    }
  }

  /** The occupant of a tried slot goes back to the new table, overwriting what is there. */
  function Evict(h: Hasher, s: State, sl: Slot, ghost pending: set<int>): State
    requires Core(h, s, pending) && sl in s.tried
    requires forall n :: n in pending ==> n in s.info && s.info[n].refCount == 0
  {
    UntryKeepsCore(h, s, sl, pending);
    var id := s.tried[sl];
    var t := Untry(s, sl);
    var u := h.NewSlot(s.key, s.info[id].service, s.info[id].source);
    UntriedIsUnreferenced(h, s, sl, pending, u);
    ClearNewKeepsCore(h, t, u, pending + {id});
    ClearNewLeavesOthers(t, u, id);
    Place(ClearNew(t, u), id, u)
  }

  lemma UntriedIsUnreferenced(h: Hasher, s: State, sl: Slot, pending: set<int>, u: Slot)
    requires Core(h, s, pending) && sl in s.tried
    requires forall n :: n in pending ==> n in s.info && s.info[n].refCount == 0
    ensures s.tried[sl] in s.info && s.info[s.tried[sl]].inTried && s.info[s.tried[sl]].refCount == 0
    ensures u in s.new_ ==> s.new_[u] !in pending + {s.tried[sl]}
  {
    assert Holds(h, s, pending, TriedTable);
    assert Holds(h, s, pending, RefCounts);
    TriedIsUnreferenced(s.info, s.new_, pending, s.tried[sl]);
    if u in s.new_ {
      forall n | n in pending + {s.tried[sl]} ensures s.new_[u] != n {
        UnreferencedIsAbsent(s.info, s.new_, pending, n, u);
      }
    }
  }

  lemma EvictKeepsCore(h: Hasher, s: State, sl: Slot, pending: set<int>)
    requires Core(h, s, pending) && sl in s.tried
    requires forall n :: n in pending ==> n in s.info && s.info[n].refCount == 0 && !s.info[n].inTried
    ensures Core(h, Evict(h, s, sl, pending), pending)
    ensures Evict(h, s, sl, pending).tried == s.tried - {sl} && Evict(h, s, sl, pending).key == s.key
    ensures forall n :: n in pending ==>
      n in Evict(h, s, sl, pending).info && SameButPosition(s.info[n], Evict(h, s, sl, pending).info[n])
  {
    UntryKeepsCore(h, s, sl, pending);
    var id := s.tried[sl];
    var t := Untry(s, sl);
    var u := h.NewSlot(s.key, s.info[id].service, s.info[id].source);
    UntriedIsUnreferenced(h, s, sl, pending, u);
    ClearNewKeepsCore(h, t, u, pending + {id});
    ClearNewLeavesOthers(t, u, id);
    ClearNewLeavesTried(t, u);
    var v := ClearNew(t, u);
    PlaceKeepsCore(h, v, id, u, pending + {id});
    assert pending + {id} - {id} == pending;
    forall n | n in pending ensures n in v.info && SameButPosition(t.info[n], v.info[n]) {
      ClearNewLeavesOthers(t, u, n);
    }
  }

  /** Move an entry from the new table to its tried slot, evicting the occupant if there is one. */
  function MakeTried(h: Hasher, s: State, id: int): State
    requires Inv(h, s) && id in s.info && !s.info[id].inTried
  {
    UnplaceKeepsCore(h, s, id, {});
    var t := Unplace(s, id);
    var sl := h.TriedSlot(s.key, s.info[id].service);
    assert {} + {id} == {id};
    if sl in t.tried then
      EvictKeepsCore(h, t, sl, {id});
      Try(Evict(h, t, sl, {id}), id, sl)
    else
      Try(t, id, sl)
  }

  /** MakeTried in three steps: out of the new table, room in the tried table, in. */
  lemma MakeTriedSteps(h: Hasher, s: State, id: int)
    requires Inv(h, s) && id in s.info && !s.info[id].inTried
    ensures Core(h, Unplace(s, id), {id})
    ensures var t := Unplace(s, id);
            var sl := h.TriedSlot(s.key, s.info[id].service);
            var u := if sl in t.tried then Evict(h, t, sl, {id}) else t;
            && id in u.info && !u.info[id].inTried && sl !in u.tried
            && MakeTried(h, s, id) == Try(u, id, sl)
  {
    UnplaceKeepsCore(h, s, id, {});
    var t := Unplace(s, id);
    var sl := h.TriedSlot(s.key, s.info[id].service);
    assert {} + {id} == {id};
    if sl in t.tried {
      EvictKeepsCore(h, t, sl, {id});
    }
  }

  lemma MakeTriedKeepsInv(h: Hasher, s: State, id: int)
    requires Inv(h, s) && id in s.info && !s.info[id].inTried && s.info[id].stats.lastSuccess > 0
    ensures Inv(h, MakeTried(h, s, id))
  {
    UnplaceKeepsCore(h, s, id, {});
    var t := Unplace(s, id);
    var sl := h.TriedSlot(s.key, s.info[id].service);
    assert {} + {id} == {id};
    if sl in t.tried {
      EvictKeepsCore(h, t, sl, {id});
      TryKeepsCore(h, Evict(h, t, sl, {id}), id, sl, {id});
    } else {
      TryKeepsCore(h, t, id, sl, {id});
    }
    assert {id} - {id} == {};
  }

  // ---------------------------------------------------------------------------
  // Good_, Attempt_, Connected_, SetServices_.

  function SetStats(s: State, id: int, stats: Stats): State
    requires id in s.info
  {
    s.(info := s.info[id := s.info[id].(stats := stats)])
  }

  lemma SetStatsKeepsInv(h: Hasher, s: State, id: int, stats: Stats)
    requires Inv(h, s) && id in s.info && stats.lastTry >= 0
    requires stats.lastSuccess >= 0 && (s.info[id].stats.lastSuccess > 0 ==> stats.lastSuccess > 0)
    ensures Inv(h, SetStats(s, id, stats))
  {
    assert Holds(h, s, {}, Entries);
    UpdateKeepsCore(h, s, id, s.info[id].(stats := stats), {});
  }

  lemma LastGoodKeepsInv(h: Hasher, s: State, time: int)
    requires Inv(h, s)
    ensures Inv(h, s.(lastGood := time))
  {
    CoreParts(h, s, {});
  }

  /** The entry for exactly this service, port included. */
  predicate Knows(s: State, service: Service) {
    && service.ip in s.addr
    && s.addr[service.ip] in s.info
    && s.info[s.addr[service.ip]].service == service
  }

  function Good(h: Hasher, s: State, service: Service, time: int): State
    requires Inv(h, s) && time > 0
  {
    var s1 := s.(lastGood := time);
    if !Knows(s, service) then s1
    else
      var id := s.addr[service.ip];
      LastGoodKeepsInv(h, s, time);
      var stats := s.info[id].stats.(lastSuccess := time, lastTry := time, attempts := 0);
      SetStatsKeepsInv(h, s1, id, stats);
      var s2 := SetStats(s1, id, stats);
      if s2.info[id].inTried then s2 else MakeTried(h, s2, id)
  }

  lemma GoodKeepsInv(h: Hasher, s: State, service: Service, time: int)
    requires Inv(h, s) && time > 0
    ensures Inv(h, Good(h, s, service, time))
  {
    LastGoodKeepsInv(h, s, time);
    if Knows(s, service) {
      var id := s.addr[service.ip];
      var s1 := s.(lastGood := time);
      var stats := s.info[id].stats.(lastSuccess := time, lastTry := time, attempts := 0);
      SetStatsKeepsInv(h, s1, id, stats);
      var s2 := SetStats(s1, id, stats);
      if !s2.info[id].inTried {
        MakeTriedKeepsInv(h, s2, id);
      }
    }
  }

  function Attempt(s: State, service: Service, countFailure: bool, time: int): State {
    if !Knows(s, service) then s
    else
      var id := s.addr[service.ip];
      var stats := s.info[id].stats;
      var tried := stats.(lastTry := time);
      SetStats(s, id,
        if countFailure && stats.lastCountAttempt < s.lastGood
        then tried.(lastCountAttempt := time, attempts := stats.attempts + 1)
        else tried)
  }

  function Connected(s: State, service: Service, time: Uint32): State {
    if !Knows(s, service) then s
    else
      var id := s.addr[service.ip];
      var stats := s.info[id].stats;
      if time - stats.time > 20 * 60 then SetStats(s, id, stats.(time := time)) else s
  }

  function SetServices(s: State, service: Service, services: bv64): State {
    if !Knows(s, service) then s
    else
      var id := s.addr[service.ip];
      SetStats(s, id, s.info[id].stats.(services := services))
  }

  // ---------------------------------------------------------------------------
  // Add_.

  function Pow2(n: nat): (p: nat)
    ensures p >= 1
  {
    if n == 0 then 1 else 2 * Pow2(n - 1)
  }

  /** max(0, x) stored into a 32-bit time. */
  function ClampTime(x: int): Uint32 {
    if x <= 0 then 0 else x % 0x1_0000_0000
  }

  /** The nTime of a known entry after it is announced again. */
  function RefreshedTime(known: Uint32, announced: Uint32, penalty: int, now: int): Uint32 {
    var interval := if now - announced < 24 * 60 * 60 then 60 * 60 else 24 * 60 * 60;
    if announced != 0 && (known == 0 || known < announced - interval - penalty)
    then ClampTime(announced - penalty) else known
  }

  /** A known entry's statistics after it is announced again. */
  function AnnouncedStats(known: Stats, address: Address, penalty: int, now: int): (r: Stats)
    ensures r.lastTry == known.lastTry && r.lastSuccess == known.lastSuccess
  {
    known.(time := RefreshedTime(known.time, address.time, penalty, now),
           services := known.services | address.services)
  }

  /** Whether an announcement of a known entry may give it one more reference. */
  predicate MayGainReference(info: AddrInfo, announced: Uint32, draw: nat)
    requires 0 <= info.refCount
  {
    && announced != 0 && (info.stats.time == 0 || announced > info.stats.time)
    && !info.inTried
    && info.refCount != NEW_BUCKETS_PER_ADDRESS
    && draw % Pow2(info.refCount) == 0
  }

  /** Whether `id` may take a new slot: it is free, or its occupant can be overwritten. */
  predicate MayTakeSlot(s: State, id: int, sl: Slot, now: int)
    requires id in s.info && (sl in s.new_ ==> s.new_[sl] in s.info)
  {
    sl in s.new_ ==>
      var existing := s.info[s.new_[sl]];
      existing.stats.IsTerrible(now) || (existing.refCount > 1 && s.info[id].refCount == 0)
  }

  /** The last part of Add_: give `id` a reference in the bucket chosen by the source, if it can have one. */
  function Settle(h: Hasher, s: State, id: int, source: NetAddr, now: int): State
    requires Core(h, s, {id}) && id in s.info
  {
    CoreParts(h, s, {id});
    var sl := h.NewSlot(s.key, s.info[id].service, source);
    if sl in s.new_ && s.new_[sl] == id then s
    else if MayTakeSlot(s, id, sl, now) then
      ClearNewLeavesOthers(s, sl, id);
      Place(ClearNew(s, sl), id, sl)
    else if s.info[id].refCount == 0 then Delete(s, id)
    else s
  }

  lemma ReferencedNeedsNoExemption(h: Hasher, s: State, id: int)
    requires Core(h, s, {id}) && id in s.info && s.info[id].refCount >= 1
    ensures Inv(h, s)
  {
    CoreParts(h, s, {id});
  }

  lemma SettleKeepsInv(h: Hasher, s: State, id: int, source: NetAddr, now: int)
    requires Core(h, s, {id}) && id in s.info
    requires !s.info[id].inTried && s.info[id].refCount < NEW_BUCKETS_PER_ADDRESS
    ensures Inv(h, Settle(h, s, id, source, now))
  {
    assert RandomOk(s.info, s.random) && RefsOk(s.info, s.new_, {id}) && NewOk(h, s.key, s.info, s.new_) by {
      CoreParts(h, s, {id});
    }
    var sl := h.NewSlot(s.key, s.info[id].service, source);
    assert {id} - {id} == {};
    if sl in s.new_ && s.new_[sl] == id {
      assert s.info[id].refCount >= 1 by {
        if s.info[id].refCount == 0 { UnreferencedIsAbsent(s.info, s.new_, {id}, id, sl); }
      }
      ReferencedNeedsNoExemption(h, s, id);
    } else if MayTakeSlot(s, id, sl, now) {
      ClearNewKeepsCore(h, s, sl, {id});
      ClearNewLeavesOthers(s, sl, id);
      ClearNewLeavesTried(s, sl);
      PlaceKeepsCore(h, ClearNew(s, sl), id, sl, {id});
    } else if s.info[id].refCount == 0 {
      DeleteKeepsCore(h, s, id, {id});
    } else {
      ReferencedNeedsNoExemption(h, s, id);
    }
  }

  /** Add_ of an address already known under this ip. */
  function AddKnown(h: Hasher, s: State, id: int, address: Address, source: NetAddr,
                    penalty: int, now: int, draw: nat): State
    requires Inv(h, s) && id in s.info
  {
    var stats := AnnouncedStats(s.info[id].stats, address, penalty, now);
    CoreParts(h, s, {});
    SetStatsKeepsInv(h, s, id, stats);
    var t := SetStats(s, id, stats);
    if !MayGainReference(t.info[id], address.time, draw) then t
    else
      InvIsCore(h, t, id);
      Settle(h, t, id, source, now)
  }

  lemma InvIsCore(h: Hasher, s: State, id: int)
    requires Inv(h, s)
    ensures Core(h, s, {id})
  {
    CoreParts(h, s, {});
  }

  /** Add_ of an address not yet known: a fresh entry, kept if it finds a place. */
  function AddUnknown(h: Hasher, s: State, address: Address, source: NetAddr, penalty: int, now: int): State
    requires Inv(h, s) && address.service.ip !in s.addr
  {
    CreateKeepsCore(h, s, address.(time := ClampTime(address.time - penalty)), source);
    Settle(h, Create(s, address.(time := ClampTime(address.time - penalty)), source), s.idCount, source, now)
  }

  function Add(h: Hasher, s: State, address: Address, source: NetAddr, penalty: int, now: int, draw: nat): State
    requires Inv(h, s)
  {
    assert Holds(h, s, {}, AddressMap);
    if !h.routable(address.service.ip) then s
    else if address.service.ip in s.addr then
      AddKnown(h, s, s.addr[address.service.ip], address, source, penalty, now, draw)
    else
      AddUnknown(h, s, address, source, penalty, now)
  }

  lemma AddKeepsInv(h: Hasher, s: State, address: Address, source: NetAddr, penalty: int, now: int, draw: nat)
    requires Inv(h, s)
    ensures Inv(h, Add(h, s, address, source, penalty, now, draw))
  {
    var ip := address.service.ip;
    if h.routable(ip) {
      if ip in s.addr {
        assert Holds(h, s, {}, AddressMap);
        AddKnownKeepsInv(h, s, s.addr[ip], address, source, penalty, now, draw);
      } else {
        var entry := address.(time := ClampTime(address.time - penalty));
        CreateKeepsCore(h, s, entry, source);
        SettleKeepsInv(h, Create(s, entry, source), s.idCount, source, now);
      }
    }
  }

  lemma AddKnownKeepsInv(h: Hasher, s: State, id: int, address: Address, source: NetAddr, penalty: int, now: int, draw: nat)
    requires Inv(h, s) && id in s.info
    ensures Inv(h, AddKnown(h, s, id, address, source, penalty, now, draw))
  {
    var stats := AnnouncedStats(s.info[id].stats, address, penalty, now);
    CoreParts(h, s, {});
    SetStatsKeepsInv(h, s, id, stats);
    var t := SetStats(s, id, stats);
    if MayGainReference(t.info[id], address.time, draw) {
      InvIsCore(h, t, id);
      SettleKeepsInv(h, t, id, source, now);
    }
  }

  // ---------------------------------------------------------------------------
  // GetAddr_ reorders the random vector: step n swaps position n with a random later one.

  /** RandomInt(size - n) + n. */
  function DrawFrom(draw: nat, n: nat, size: nat): (j: nat)
    requires n < size
    ensures n <= j < size
  {
    draw % (size - n) + n
  }

  /** Every later position can be drawn, and none before. */
  lemma DrawReaches(n: nat, j: nat, size: nat)
    requires n < size
    ensures n <= j < size <==> exists draw: nat :: DrawFrom(draw, n, size) == j
  {
    if n <= j < size {
      assert DrawFrom(j - n, n, size) == j;
    }
  }

  /** The first n steps. */
  function Shuffle(h: Hasher, s: State, draws: seq<nat>, n: nat): (t: State)
    requires Inv(h, s) && n <= |draws|
    ensures Inv(h, t) && |t.random| == |s.random|
  {
    if n == 0 then s
    else
      var t := Shuffle(h, s, draws, n - 1);
      if n > |t.random| then t
      else
        var j := DrawFrom(draws[n - 1], n - 1, |t.random|);
        SwapKeepsCore(h, t, n - 1, j, {});
        SwapRandom(t, n - 1, j)
  }

  lemma SwapKeepsPrefix(h: Hasher, s: State, n: nat, j: nat)
    requires Inv(h, s) && n <= j < |s.random|
    ensures RandomOk(s.info, s.random)
    ensures Inv(h, SwapRandom(s, n, j)) && Repositioned(s.info, SwapRandom(s, n, j).info)
    ensures |SwapRandom(s, n, j).random| == |s.random| && SwapRandom(s, n, j).random[..n] == s.random[..n]
  {
    SwapKeepsCore(h, s, n, j, {});
  }

  function AddressOf(info: AddrInfo): Address {
    Address(info.service, info.stats.services, info.stats.time)
  }

  ghost predicate AllKnown(info: map<int, AddrInfo>, ids: seq<int>) {
    forall i :: 0 <= i < |ids| ==> ids[i] in info
  }

  /** The addresses of a list of ids, without the terrible ones. */
  function Presentable(info: map<int, AddrInfo>, ids: seq<int>, now: int): seq<Address>
    requires AllKnown(info, ids)
  {
    if ids == [] then []
    else
      var n := |ids| - 1;
      var init := Presentable(info, ids[..n], now);
      if info[ids[n]].stats.IsTerrible(now) then init else init + [AddressOf(info[ids[n]])]
  }

  lemma PresentableNext(info: map<int, AddrInfo>, ids: seq<int>, n: nat, now: int)
    requires n < |ids| && AllKnown(info, ids[..n]) && ids[n] in info
    ensures AllKnown(info, ids[..n + 1])
    ensures Presentable(info, ids[..n + 1], now) ==
            Presentable(info, ids[..n], now) + if info[ids[n]].stats.IsTerrible(now) then [] else [AddressOf(info[ids[n]])]
  {
    assert ids[..n + 1][..n] == ids[..n];
  }

  lemma {:induction false} PresentableRepositioned(info: map<int, AddrInfo>, info': map<int, AddrInfo>, ids: seq<int>, now: int)
    requires Repositioned(info, info') && AllKnown(info, ids)
    ensures AllKnown(info', ids)
    ensures Presentable(info', ids, now) == Presentable(info, ids, now)
  {
    if ids != [] {
      var n := |ids| - 1;
      PresentableRepositioned(info, info', ids[..n], now);
      RepositionedAt(info, info', ids[n]);
    }
  }

  predicate Presents(info: map<int, AddrInfo>, id: int, now: int, a: Address)
    requires id in info
  {
    AddressOf(info[id]) == a && !info[id].stats.IsTerrible(now)
  }

  /** An address is presented exactly when it belongs to a listed entry that is not terrible. */
  lemma {:induction false} PresentableMeans(info: map<int, AddrInfo>, ids: seq<int>, now: int, a: Address)
    requires AllKnown(info, ids)
    ensures a in Presentable(info, ids, now) <==> exists i :: 0 <= i < |ids| && Presents(info, ids[i], now, a)
  {
    if ids != [] {
      var n := |ids| - 1;
      PresentableMeans(info, ids[..n], now, a);
      assert Presentable(info, ids, now) ==
        Presentable(info, ids[..n], now) + if info[ids[n]].stats.IsTerrible(now) then [] else [AddressOf(info[ids[n]])];
      if i :| 0 <= i < |ids| && Presents(info, ids[i], now, a) {
        assert i < n ==> ids[..n][i] == ids[i];
      }
    }
  }

  // ---------------------------------------------------------------------------
  // Runs.

  datatype Event =
    | AddEvent(address: Address, source: NetAddr, penalty: int, now: int, draw: nat)
    | GoodEvent(service: Service, time: int)
    | AttemptEvent(service: Service, countFailure: bool, time: int)
    | ConnectedEvent(service: Service, seen: Uint32)
    | SetServicesEvent(service: Service, services: bv64)
    | GetAddrEvent(draws: seq<nat>)

  /** The clock values the callers pass: a connection succeeds at a positive time. */
  predicate Timely(e: Event) {
    match e
    case GoodEvent(_, time) => time > 0
    case AttemptEvent(_, _, time) => time >= 0
    case _ => true
  }

  function Step(h: Hasher, s: State, e: Event): State
    requires Inv(h, s) && Timely(e)
  {
    match e
    case AddEvent(address, source, penalty, now, draw) => Add(h, s, address, source, penalty, now, draw)
    case GoodEvent(service, time) => Good(h, s, service, time)
    case AttemptEvent(service, countFailure, time) => Attempt(s, service, countFailure, time)
    case ConnectedEvent(service, seen) => Connected(s, service, seen)
    case SetServicesEvent(service, services) => SetServices(s, service, services)
    case GetAddrEvent(draws) => Shuffle(h, s, draws, |draws|)
  }

  lemma StepKeepsInv(h: Hasher, s: State, e: Event)
    requires Inv(h, s) && Timely(e)
    ensures Inv(h, Step(h, s, e))
  {
    assert Holds(h, s, {}, Entries);
    match e
    case AddEvent(address, source, penalty, now, draw) =>
      AddKeepsInv(h, s, address, source, penalty, now, draw);
    case GoodEvent(service, time) =>
      GoodKeepsInv(h, s, service, time);
    case AttemptEvent(service, countFailure, time) =>
      if Knows(s, service) {
        var id := s.addr[service.ip];
        SetStatsKeepsInv(h, s, id, Attempt(s, service, countFailure, time).info[id].stats);
      }
    case ConnectedEvent(service, seen) =>
      if Knows(s, service) {
        var id := s.addr[service.ip];
        SetStatsKeepsInv(h, s, id, s.info[id].stats.(time := seen));
      }
    case SetServicesEvent(service, services) =>
      if Knows(s, service) {
        var id := s.addr[service.ip];
        SetStatsKeepsInv(h, s, id, s.info[id].stats.(services := services));
      }
    case GetAddrEvent(draws) =>
  }

  lemma EmptyIsConsistent(h: Hasher, key: nat)
    requires key != 0
    ensures Inv(h, Empty(key))
  {
  }

  /** Where any run from an empty manager ends: always in a state that passes Check_. */
  function Run(h: Hasher, key: nat, events: seq<Event>): (s: State)
    requires key != 0 && forall e :: e in events ==> Timely(e)
    ensures Inv(h, s)
  {
    EmptyIsConsistent(h, key);
    if events == [] then Empty(key)
    else
      var t := Run(h, key, events[..|events| - 1]);
      StepKeepsInv(h, t, events[|events| - 1]);
      Step(h, t, events[|events| - 1])
  }

  // ---------------------------------------------------------------------------
  // What the operations mean for the addresses themselves.

  /** The only entry ClearNew can lose is the occupant of the slot, with its last reference. */
  lemma ClearNewLosesOnlyLastReference(s: State, sl: Slot, n: int)
    requires RandomOk(s.info, s.random)
    requires sl in s.new_ ==> s.new_[sl] in s.info
    requires n in s.info
    ensures n !in ClearNew(s, sl).info ==> sl in s.new_ && s.new_[sl] == n && s.info[n].refCount == 1
  {
    if sl in s.new_ && s.new_[sl] == n {
    } else {
      ClearNewLeavesOthers(s, sl, n);
    }
  }

  /** Good_ puts a known service into its tried slot, whatever was there. */
  lemma GoodPromotes(h: Hasher, s: State, service: Service, time: int)
    requires Inv(h, s) && time > 0 && Knows(s, service)
    ensures var t := Good(h, s, service, time);
            var id := s.addr[service.ip];
            && Knows(t, service) && t.addr[service.ip] == id
            && t.info[id].inTried && t.info[id].stats.lastSuccess == time == t.info[id].stats.lastTry
            && t.info[id].stats.attempts == 0 && t.lastGood == time
            && t.tried.Keys >= {h.TriedSlot(s.key, service)} && t.tried[h.TriedSlot(s.key, service)] == id
  {
    GoodKeepsInv(h, s, service, time);
    var t := Good(h, s, service, time);
    var id := s.addr[service.ip];
    LastGoodKeepsInv(h, s, time);
    var s1 := s.(lastGood := time);
    var stats := s.info[id].stats.(lastSuccess := time, lastTry := time, attempts := 0);
    SetStatsKeepsInv(h, s1, id, stats);
    var s2 := SetStats(s1, id, stats);
    if !s2.info[id].inTried {
      MakeTriedPromotes(h, s2, id);
    }
    FoundWhereTried(h, t, id);
  }

  /** Between two calls of Good_, at most one failed attempt is counted for a service. */
  lemma AttemptCountsOnce(s: State, service: Service, time: int, again: int)
    requires Knows(s, service) && s.addr[service.ip] in s.info && time >= s.lastGood
    ensures var once := Attempt(s, service, true, time); var id := s.addr[service.ip];
            && Knows(once, service) && once.info[id].stats.lastTry == time
            && once.info[id].stats.attempts ==
               s.info[id].stats.attempts + (if s.info[id].stats.lastCountAttempt < s.lastGood then 1 else 0)
            && Attempt(once, service, true, again) == Attempt(once, service, false, again)
  {
  }

  /** The recorded time never goes back, and never lags a connection by more than twenty minutes. */
  lemma ConnectedKeepsTimeRecent(s: State, service: Service, time: Uint32)
    requires Knows(s, service) && s.addr[service.ip] in s.info
    ensures var id := s.addr[service.ip]; var t := Connected(s, service, time);
            && Knows(t, service) && t.info.Keys == s.info.Keys
            && s.info[id].stats.time <= t.info[id].stats.time <= (if time > s.info[id].stats.time then time else s.info[id].stats.time)
            && time - t.info[id].stats.time <= 20 * 60
            && Connected(t, service, time) == t
  {
    var id := s.addr[service.ip];
    if time - s.info[id].stats.time > 20 * 60 {
      assert Connected(s, service, time).info.Keys == s.info.Keys;
    }
  }

  /** What settling an entry costs another one: it is lost only if it is terrible and had this one reference. */
  lemma SettleDropsOnlyTerrible(h: Hasher, s: State, id: int, source: NetAddr, now: int, n: int)
    requires Core(h, s, {id}) && id in s.info && n in s.info && n != id
    requires n !in Settle(h, s, id, source, now).info
    ensures s.info[n].stats.IsTerrible(now) && s.info[n].refCount == 1 && !s.info[n].inTried
  {
    assert RandomOk(s.info, s.random) && NewOk(h, s.key, s.info, s.new_) by { CoreParts(h, s, {id}); }
    var sl := h.NewSlot(s.key, s.info[id].service, source);
    ClearNewLosesOnlyLastReference(s, sl, n);
    DeleteLeavesOthers(s, id, n);
  }

  lemma AddKnownDropsOnlyTerrible(h: Hasher, s: State, id: int, address: Address, source: NetAddr,
                                  penalty: int, now: int, draw: nat, n: int)
    requires Inv(h, s) && id in s.info && n in s.info && n !in AddKnown(h, s, id, address, source, penalty, now, draw).info
    ensures s.info[n].stats.IsTerrible(now) && s.info[n].refCount == 1 && !s.info[n].inTried
  {
    var stats := AnnouncedStats(s.info[id].stats, address, penalty, now);
    assert Holds(h, s, {}, Entries);
    SetStatsKeepsInv(h, s, id, stats);
    var t := SetStats(s, id, stats);
    InvIsCore(h, t, id);
    AddKeepsOwn(h, t, id, source, now);
    SettleDropsOnlyTerrible(h, t, id, source, now, n);
  }

  /** Add_ drops a known address only if it is terrible and was referenced once. */
  lemma AddDropsOnlyTerrible(h: Hasher, s: State, address: Address, source: NetAddr, penalty: int, now: int, draw: nat, n: int)
    requires Inv(h, s) && n in s.info && n !in Add(h, s, address, source, penalty, now, draw).info
    ensures s.info[n].stats.IsTerrible(now) && s.info[n].refCount == 1 && !s.info[n].inTried
  {
    assert Holds(h, s, {}, Entries) && Holds(h, s, {}, AddressMap);
    var ip := address.service.ip;
    if ip in s.addr {
      AddKnownDropsOnlyTerrible(h, s, s.addr[ip], address, source, penalty, now, draw, n);
    } else {
      var entry := address.(time := ClampTime(address.time - penalty));
      CreateKeepsCore(h, s, entry, source);
      SettleDropsOnlyTerrible(h, Create(s, entry, source), s.idCount, source, now, n);
    }
  }

  /** A referenced entry is not lost by settling it. */
  lemma AddKeepsOwn(h: Hasher, s: State, id: int, source: NetAddr, now: int)
    requires Inv(h, s) && Core(h, s, {id}) && id in s.info && !s.info[id].inTried
    ensures id in Settle(h, s, id, source, now).info
  {
    assert RefsOk(s.info, s.new_, {}) by { CoreParts(h, s, {}); }
  }

  lemma MakeTriedPromotes(h: Hasher, s: State, id: int)
    requires Inv(h, s) && id in s.info && !s.info[id].inTried
    ensures var t := MakeTried(h, s, id);
            id in t.info && t.info[id].inTried && t.info[id].stats == s.info[id].stats
            && t.info[id].service == s.info[id].service && t.key == s.key
  {
    UnplaceKeepsCore(h, s, id, {});
    var t := Unplace(s, id);
    var sl := h.TriedSlot(s.key, s.info[id].service);
    assert {} + {id} == {id};
    if sl in t.tried {
      EvictKeepsCore(h, t, sl, {id});
    }
  }

  lemma FoundWhereTried(h: Hasher, s: State, id: int)
    requires Inv(h, s) && id in s.info && s.info[id].inTried
    ensures Knows(s, s.info[id].service) && s.addr[s.info[id].service.ip] == id
    ensures h.TriedSlot(s.key, s.info[id].service) in s.tried && s.tried[h.TriedSlot(s.key, s.info[id].service)] == id
  {
    CoreParts(h, s, {});
  }

  /** Promotion loses at most the entry whose place the evicted one takes, and only with its last reference. */
  lemma MakeTriedLosesOnlyLastReference(h: Hasher, s: State, id: int, n: int)
    requires Inv(h, s) && id in s.info && !s.info[id].inTried
    requires n in s.info && n !in MakeTried(h, s, id).info
    ensures !s.info[n].inTried && s.info[n].refCount == 1
    ensures var sl := h.TriedSlot(s.key, s.info[id].service);
            && sl in s.tried && s.tried[sl] in s.info
            && var evicted := s.info[s.tried[sl]];
               var u := h.NewSlot(s.key, evicted.service, evicted.source);
               u in s.new_ && s.new_[u] == n
  {
    UnplaceKeepsCore(h, s, id, {});
    var t := Unplace(s, id);
    var sl := h.TriedSlot(s.key, s.info[id].service);
    assert {} + {id} == {id};
    if sl in t.tried {
      EvictKeepsCore(h, t, sl, {id});
      UntryKeepsCore(h, t, sl, {id});
      var e := t.tried[sl];
      var u := h.NewSlot(t.key, t.info[e].service, t.info[e].source);
      UntriedIsUnreferenced(h, t, sl, {id}, u);
      ClearNewKeepsCore(h, Untry(t, sl), u, {id} + {e});
      ClearNewLosesOnlyLastReference(Untry(t, sl), u, n);
      assert Holds(h, s, {}, NewTable);
    }
  }

  /** Add_ returns true exactly when the address is routable and was unknown ... */
  predicate AddReturns(h: Hasher, s: State, address: Address) {
    h.routable(address.service.ip) && address.service.ip !in s.addr
  }

  /** ... but the new address is kept only if it could take its slot. */
  lemma AddKeepsUnknownIff(h: Hasher, s: State, address: Address, source: NetAddr, penalty: int, now: int, draw: nat)
    requires Inv(h, s) && AddReturns(h, s, address)
    ensures var sl := h.NewSlot(s.key, address.service, source);
            && (sl in s.new_ ==> s.new_[sl] in s.info)
            && (address.service.ip in Add(h, s, address, source, penalty, now, draw).addr <==>
                sl !in s.new_ || s.info[s.new_[sl]].stats.IsTerrible(now) || s.info[s.new_[sl]].refCount > 1)
  {
    var entry := address.(time := ClampTime(address.time - penalty));
    CoreParts(h, s, {});
    CreateKeepsCore(h, s, entry, source);
    SettleKeepsOwnAddress(h, Create(s, entry, source), s.idCount, source, now);
  }

  lemma SettleKeepsOwnAddress(h: Hasher, s: State, id: int, source: NetAddr, now: int)
    requires Core(h, s, {id}) && id in s.info && s.info[id].refCount == 0 && !s.info[id].inTried
    ensures var sl := h.NewSlot(s.key, s.info[id].service, source);
            && (sl in s.new_ ==> s.new_[sl] in s.info && s.new_[sl] != id)
            && (s.info[id].service.ip in Settle(h, s, id, source, now).addr <==> MayTakeSlot(s, id, sl, now))
  {
    CoreParts(h, s, {id});
    var sl := h.NewSlot(s.key, s.info[id].service, source);
    if sl in s.new_ {
      UnreferencedIsAbsent(s.info, s.new_, {id}, id, sl);
    }
    if MayTakeSlot(s, id, sl, now) {
      SettleKeepsInv(h, s, id, source, now);
      ClearNewLeavesOthers(s, sl, id);
      assert Holds(h, Settle(h, s, id, source, now), {}, AddressMap);
    } else {
      DeleteForgetsAddress(s, id);
    }
  }

  lemma DeleteForgetsAddress(s: State, id: int)
    requires RandomOk(s.info, s.random) && id in s.info
    ensures s.info[id].service.ip !in Delete(s, id).addr
  {
    DeleteIsSwapThenDrop(s, id);
    SwapRepositions(s, s.info[id].randomPos, |s.random| - 1);
    RepositionedAt(s.info, SwapRandom(s, s.info[id].randomPos, |s.random| - 1).info, id);
  }

  /** An entry of the new table is found by looking at its position in every bucket. */
  lemma SomeBucketHolds(h: Hasher, s: State, id: int) returns (b: nat)
    requires Inv(h, s) && id in s.info && !s.info[id].inTried
    ensures b < NEW_BUCKET_COUNT
    ensures h.NewSlotIn(s.key, b, s.info[id].service) in s.new_
    ensures s.new_[h.NewSlotIn(s.key, b, s.info[id].service)] == id
  {
    CoreParts(h, s, {});
    var sl :| sl in Refs(s.new_, id);
    b := sl.bucket;
  }
}
