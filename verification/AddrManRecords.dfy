/**
 What the statistics of CAddrMan mean over runs (src/addrman.cpp): a failed attempt counts
 once between two successes, whatever else happens in between.
 */
module AddrManRecords {
  import opened AddrManState
  import opened AddrManOps

  /** No entry is new, and those that are left have their statistics. */
  ghost predicate KeepsStats(info: map<int, AddrInfo>, info': map<int, AddrInfo>) {
    forall n :: n in info' ==> n in info && info'[n].stats == info[n].stats
  }

  lemma SwapKeepsStats(s: State, i: nat, j: nat)
    requires RandomOk(s.info, s.random) && i < |s.random| && j < |s.random|
    ensures KeepsStats(s.info, SwapRandom(s, i, j).info)
  {
    SwapRepositions(s, i, j);
    forall n | n in SwapRandom(s, i, j).info ensures n in s.info && SwapRandom(s, i, j).info[n].stats == s.info[n].stats {
      RepositionedAt(s.info, SwapRandom(s, i, j).info, n);
    }
  }

  lemma DeleteKeepsStats(s: State, id: int)
    requires RandomOk(s.info, s.random) && id in s.info
    ensures KeepsStats(s.info, Delete(s, id).info)
  {
    SwapKeepsStats(s, s.info[id].randomPos, |s.random| - 1);
  }

  lemma ClearNewKeepsStats(s: State, sl: Slot)
    requires RandomOk(s.info, s.random) && (sl in s.new_ ==> s.new_[sl] in s.info)
    ensures KeepsStats(s.info, ClearNew(s, sl).info)
  {
    if sl in s.new_ {
      var id := s.new_[sl];
      var t := Unref(s, sl);
      UpdateKeepsRandom(s.info, s.random, id, t.info[id]);
      if t.info[id].refCount == 0 {
        DeleteKeepsStats(t, id);
      }
    }
  }

  lemma SettleKeepsStats(h: Hasher, s: State, id: int, source: NetAddr, now: int)
    requires Core(h, s, {id}) && id in s.info
    ensures var t := Settle(h, s, id, source, now);
            KeepsStats(s.info, t.info) && t.idCount == s.idCount && t.lastGood == s.lastGood
  {
    var sl := h.NewSlot(s.key, s.info[id].service, source);
    assert RandomOk(s.info, s.random) && (sl in s.new_ ==> s.new_[sl] in s.info) by { CoreParts(h, s, {id}); }
    if sl in s.new_ && s.new_[sl] == id {
    } else if MayTakeSlot(s, id, sl, now) {
      ClearNewKeepsStats(s, sl);
    } else if s.info[id].refCount == 0 {
      DeleteKeepsStats(s, id);
    }
  }

  lemma {:induction false} ShuffleKeepsStats(h: Hasher, s: State, draws: seq<nat>, n: nat)
    requires Inv(h, s) && n <= |draws|
    ensures var t := Shuffle(h, s, draws, n);
            KeepsStats(s.info, t.info) && t.idCount == s.idCount && t.lastGood == s.lastGood
  {
    if n > 0 {
      ShuffleKeepsStats(h, s, draws, n - 1);
      var t := Shuffle(h, s, draws, n - 1);
      assert Holds(h, t, {}, RandomVector);
      if n <= |t.random| {
        SwapKeepsStats(t, n - 1, DrawFrom(draws[n - 1], n - 1, |t.random|));
      }
    }
  }

  /** One more failure can still be counted until the next success. */
  function Credit(stats: Stats, lastGood: int): int {
    stats.attempts + if stats.lastCountAttempt < lastGood then 1 else 0
  }

  /** Entries that were there before have not gained credit, nor lost attempts; new ones have new ids. */
  ghost predicate NoCredit(s: State, t: State) {
    && t.lastGood == s.lastGood && s.idCount <= t.idCount
    && forall n :: n in t.info ==> if n in s.info
         then Credit(t.info[n].stats, s.lastGood) <= Credit(s.info[n].stats, s.lastGood)
              && s.info[n].stats.attempts <= t.info[n].stats.attempts
         else s.idCount <= n
  }

  /** No success, and no attempt dated before the last one. */
  predicate NoSuccess(e: Event, lastGood: int) {
    !e.GoodEvent? && (e.AttemptEvent? ==> e.time >= lastGood)
  }

  lemma AddKnownNoCredit(h: Hasher, s: State, id: int, address: Address, source: NetAddr, penalty: int, now: int, draw: nat)
    requires Inv(h, s) && id in s.info
    ensures NoCredit(s, AddKnown(h, s, id, address, source, penalty, now, draw))
  {
    var stats := AnnouncedStats(s.info[id].stats, address, penalty, now);
    CoreParts(h, s, {});
    SetStatsKeepsInv(h, s, id, stats);
    var t := SetStats(s, id, stats);
    InvIsCore(h, t, id);
    SettleKeepsStats(h, t, id, source, now);
  }

  lemma AddNoCredit(h: Hasher, s: State, address: Address, source: NetAddr, penalty: int, now: int, draw: nat)
    requires Inv(h, s)
    ensures NoCredit(s, Add(h, s, address, source, penalty, now, draw))
  {
    assert Holds(h, s, {}, AddressMap);
    var ip := address.service.ip;
    if ip in s.addr {
      AddKnownNoCredit(h, s, s.addr[ip], address, source, penalty, now, draw);
    } else {
      AddUnknownNoCredit(h, s, address, source, penalty, now);
    }
  }

  lemma AddUnknownNoCredit(h: Hasher, s: State, address: Address, source: NetAddr, penalty: int, now: int)
    requires Inv(h, s) && address.service.ip !in s.addr
    ensures NoCredit(s, AddUnknown(h, s, address, source, penalty, now))
  {
    assert s.idCount !in s.info by { assert Holds(h, s, {}, Entries); }
    var entry := address.(time := ClampTime(address.time - penalty));
    CreateKeepsCore(h, s, entry, source);
    var c := Create(s, entry, source);
    var t := Settle(h, c, s.idCount, source, now);
    assert AddUnknown(h, s, address, source, penalty, now) == t;
    CreatedNoCredit(h, s, entry, source, c, now, t);
  }

  lemma CreatedNoCredit(h: Hasher, s: State, entry: Address, source: NetAddr, c: State, now: int, t: State)
    requires s.idCount !in s.info && c == Create(s, entry, source) && Core(h, c, {s.idCount})
    requires t == Settle(h, c, s.idCount, source, now)
    ensures NoCredit(s, t)
  {
    assert KeepsStats(c.info, t.info) && t.idCount == c.idCount && t.lastGood == c.lastGood by {
      SettleKeepsStats(h, c, s.idCount, source, now);
    }
    OneMoreNoCredit(s, c, t);
  }

  lemma OneMoreNoCredit(s: State, c: State, t: State)
    requires s.idCount !in s.info && forall n :: n in c.info && n != s.idCount ==> n in s.info && c.info[n] == s.info[n]
    requires KeepsStats(c.info, t.info) && t.idCount == s.idCount + 1 && t.lastGood == s.lastGood
    ensures NoCredit(s, t)
  {
    forall n | n in t.info ensures n == s.idCount || (n in s.info && t.info[n].stats == s.info[n].stats) {
    }
  }

  lemma StepNoCredit(h: Hasher, s: State, e: Event)
    requires Inv(h, s) && Timely(e) && NoSuccess(e, s.lastGood)
    ensures NoCredit(s, Step(h, s, e))
  {
    match e
    case AddEvent(address, source, penalty, now, draw) => AddNoCredit(h, s, address, source, penalty, now, draw);
    case AttemptEvent(service, countFailure, time) =>
    case ConnectedEvent(service, seen) =>
    case SetServicesEvent(service, services) =>
    case GetAddrEvent(draws) => ShuffleKeepsStats(h, s, draws, |draws|);
  }

  /** Where a run from any consistent state ends. */
  function RunFrom(h: Hasher, s: State, events: seq<Event>): (t: State)
    requires Inv(h, s) && forall e :: e in events ==> Timely(e)
    ensures Inv(h, t)
  {
    if events == [] then s
    else
      var t := RunFrom(h, s, events[..|events| - 1]);
      StepKeepsInv(h, t, events[|events| - 1]);
      Step(h, t, events[|events| - 1])
  }

  lemma NoCreditComposes(s: State, t: State, u: State)
    requires NoCredit(s, t) && NoCredit(t, u) && forall n :: n in s.info ==> n < s.idCount
    ensures NoCredit(s, u)
  {
  }

  lemma {:induction false} RunNoCredit(h: Hasher, s: State, events: seq<Event>)
    requires Inv(h, s) && forall e :: e in events ==> Timely(e) && NoSuccess(e, s.lastGood)
    ensures NoCredit(s, RunFrom(h, s, events))
  {
    if events != [] {
      var before, last := events[..|events| - 1], events[|events| - 1];
      assert last in events;
      RunNoCredit(h, s, before);
      var t := RunFrom(h, s, before);
      StepNoCredit(h, t, last);
      assert Holds(h, s, {}, Entries);
      NoCreditComposes(s, t, Step(h, t, last));
    }
  }

  /** In any run without a success, at most one failure is counted for an entry, and none if one was counted since the last success. */
  lemma FailuresCountOnce(h: Hasher, s: State, events: seq<Event>, n: int)
    requires Inv(h, s) && n in s.info && forall e :: e in events ==> Timely(e) && NoSuccess(e, s.lastGood)
    requires n in RunFrom(h, s, events).info
    ensures var before, after := s.info[n].stats, RunFrom(h, s, events).info[n].stats;
            before.attempts <= after.attempts <= before.attempts + if before.lastCountAttempt < s.lastGood then 1 else 0
  {
    RunNoCredit(h, s, events);
  }

  // ---------------------------------------------------------------------------
  // What an announcement changes.

  /** Two entries agree in everything but their place. */
  predicate SameRecord(x: AddrInfo, y: AddrInfo) {
    y.service == x.service && y.source == x.source && y.stats == x.stats && y.inTried == x.inTried
  }

  /** No entry is new, and those that are left have their records. */
  ghost predicate KeepsRecords(info: map<int, AddrInfo>, info': map<int, AddrInfo>) {
    forall n :: n in info' ==> n in info && SameRecord(info[n], info'[n])
  }

  lemma SwapKeepsRecords(s: State, i: nat, j: nat)
    requires RandomOk(s.info, s.random) && i < |s.random| && j < |s.random|
    ensures KeepsRecords(s.info, SwapRandom(s, i, j).info)
    ensures forall n :: n in SwapRandom(s, i, j).info ==> SwapRandom(s, i, j).info[n].refCount == s.info[n].refCount
  {
    SwapRepositions(s, i, j);
    forall n | n in SwapRandom(s, i, j).info ensures n in s.info && SameButPosition(s.info[n], SwapRandom(s, i, j).info[n]) {
      RepositionedAt(s.info, SwapRandom(s, i, j).info, n);
    }
  }

  lemma DeleteKeepsRecords(s: State, id: int)
    requires RandomOk(s.info, s.random) && id in s.info
    ensures KeepsRecords(s.info, Delete(s, id).info)
  {
    SwapKeepsRecords(s, s.info[id].randomPos, |s.random| - 1);
  }

  lemma ClearNewKeepsRecords(s: State, sl: Slot)
    requires RandomOk(s.info, s.random) && (sl in s.new_ ==> s.new_[sl] in s.info)
    ensures KeepsRecords(s.info, ClearNew(s, sl).info)
  {
    if sl in s.new_ {
      var id := s.new_[sl];
      var t := Unref(s, sl);
      UpdateKeepsRandom(s.info, s.random, id, t.info[id]);
      if t.info[id].refCount == 0 {
        DeleteKeepsRecords(t, id);
      }
    }
  }

  /** An entry may enter a slot that is not its own if it is free, or if its occupant may be overwritten. */
  ghost predicate CanEnter(s: State, id: int, sl: Slot, now: int) {
    sl in s.new_ ==>
      s.new_[sl] != id && s.new_[sl] in s.info && id in s.info &&
      (s.info[s.new_[sl]].stats.IsTerrible(now) || (s.info[s.new_[sl]].refCount > 1 && s.info[id].refCount == 0))
  }

  /** What settling does to the entry itself. */
  lemma SettleMeans(h: Hasher, s: State, id: int, source: NetAddr, now: int)
    requires Core(h, s, {id}) && id in s.info && !s.info[id].inTried
    ensures var t, sl := Settle(h, s, id, source, now), h.NewSlot(s.key, s.info[id].service, source);
            && KeepsRecords(s.info, t.info)
            && (CanEnter(s, id, sl, now) ==>
                  id in t.info && t.info[id].refCount == s.info[id].refCount + 1 && sl in t.new_ && t.new_[sl] == id)
            && (!CanEnter(s, id, sl, now) && s.info[id].refCount > 0 ==> t == s)
            && (!CanEnter(s, id, sl, now) && s.info[id].refCount == 0 ==> id !in t.info)
  {
    var sl := h.NewSlot(s.key, s.info[id].service, source);
    assert RandomOk(s.info, s.random) && (sl in s.new_ ==> s.new_[sl] in s.info) by { CoreParts(h, s, {id}); }
    if sl in s.new_ && s.new_[sl] == id {
      if s.info[id].refCount == 0 {
        assert RefsOk(s.info, s.new_, {id}) by { CoreParts(h, s, {id}); }
        UnreferencedIsAbsent(s.info, s.new_, {id}, id, sl);
      }
    } else if MayTakeSlot(s, id, sl, now) {
      ClearNewKeepsRecords(s, sl);
      ClearNewLeavesOthers(s, sl, id);
    } else if s.info[id].refCount == 0 {
      DeleteKeepsRecords(s, id);
      DeleteForgetsEntry(s, id);
    }
  }

  lemma DeleteForgetsEntry(s: State, id: int)
    requires RandomOk(s.info, s.random) && id in s.info
    ensures id !in Delete(s, id).info
  {
  }

  /** The time a known entry has after it was announced. */
  function TimeAfter(known: Uint32, announced: Uint32, penalty: int, now: int): int {
    var hour, day := 3600, 86400;
    var interval := if now < announced + day then hour else day;
    if announced == 0 || (known != 0 && announced <= known + interval + penalty) then known
    else if announced <= penalty then 0
    else (announced - penalty) % 0x1_0000_0000
  }

  /** Whether a known entry may have one more reference after an announcement left it with `time`. */
  predicate MayGrow(x: AddrInfo, time: int, announced: Uint32, draw: nat)
    requires x.refCount >= 0
  {
    announced != 0 && (time == 0 || time < announced) && !x.inTried && x.refCount < 8 && draw % Pow2(x.refCount) == 0
  }

  /**
   Announcing a known address: its services grow, its time is refreshed at most once an
   hour, or once a day if it is not online, nothing else of its record changes, and it
   gains a reference exactly if the announcement is news, the draw allows it and the slot
   of the source can be had.  No other record changes.
   */
  lemma AnnouncingKnown(h: Hasher, s: State, address: Address, source: NetAddr, penalty: int, now: int, draw: nat)
    requires Inv(h, s) && h.routable(address.service.ip) && address.service.ip in s.addr
    ensures s.addr[address.service.ip] in s.info && s.info[s.addr[address.service.ip]].refCount >= 0
    ensures var t, id := Add(h, s, address, source, penalty, now, draw), s.addr[address.service.ip];
            && id in t.info && address.service.ip in t.addr && t.addr[address.service.ip] == id
            && var x, y := s.info[id], t.info[id];
               && y.service == x.service && y.source == x.source && y.inTried == x.inTried
               && y.stats == x.stats.(services := x.stats.services | address.services,
                                      time := TimeAfter(x.stats.time, address.time, penalty, now))
               && var sl := h.NewSlot(s.key, x.service, source);
                  && y.refCount == x.refCount +
                       (if MayGrow(x, y.stats.time, address.time, draw) && FreeOrTerrible(s, id, sl, now) then 1 else 0)
                  && (y.refCount > x.refCount ==> sl in t.new_ && t.new_[sl] == id)
    ensures var t, id := Add(h, s, address, source, penalty, now, draw), s.addr[address.service.ip];
            forall n :: n in t.info && n != id ==> n in s.info && SameRecord(s.info[n], t.info[n])
  {
    var id := s.addr[address.service.ip];
    assert id in s.info && s.info[id].service.ip == address.service.ip by { assert Holds(h, s, {}, AddressMap); }
    assert s.info[id].refCount >= 0 by { assert Holds(h, s, {}, RefCounts); }
    AnnouncedRecord(s.info[id].stats, address, penalty, now);
    AddKnownMeans(h, s, id, address, source, penalty, now, draw);
    var u := Add(h, s, address, source, penalty, now, draw);
    assert address.service.ip in u.addr && u.addr[address.service.ip] == id by {
      AddKeepsInv(h, s, address, source, penalty, now, draw);
      assert Holds(h, u, {}, AddressMap);
    }
  }

  lemma AnnouncedRecord(known: Stats, address: Address, penalty: int, now: int)
    ensures AnnouncedStats(known, address, penalty, now) ==
            known.(services := known.services | address.services, time := TimeAfter(known.time, address.time, penalty, now))
  {
  }

  lemma AddKnownMeans(h: Hasher, s: State, id: int, address: Address, source: NetAddr, penalty: int, now: int, draw: nat)
    requires Inv(h, s) && id in s.info && s.info[id].refCount >= 0
    ensures var stats := AnnouncedStats(s.info[id].stats, address, penalty, now);
            var t := AddKnown(h, s, id, address, source, penalty, now, draw);
            && id in t.info && SameRecord(s.info[id].(stats := stats), t.info[id])
            && (forall n :: n in t.info && n != id ==> n in s.info && SameRecord(s.info[n], t.info[n]))
            && var sl := h.NewSlot(s.key, s.info[id].service, source);
               && t.info[id].refCount == s.info[id].refCount +
                    (if MayGrow(s.info[id], stats.time, address.time, draw) && FreeOrTerrible(s, id, sl, now) then 1 else 0)
               && (t.info[id].refCount > s.info[id].refCount ==> sl in t.new_ && t.new_[sl] == id)
  {
    var stats := AnnouncedStats(s.info[id].stats, address, penalty, now);
    assert s.info[id].refCount <= 8 && (!s.info[id].inTried ==> s.info[id].refCount > 0) by { assert Holds(h, s, {}, RefCounts); }
    assert Holds(h, s, {}, Entries);
    SetStatsKeepsInv(h, s, id, stats);
    var t := SetStats(s, id, stats);
    InvIsCore(h, t, id);
    if MayGainReference(t.info[id], address.time, draw) {
      SettleMeans(h, t, id, source, now);
      KnownSlot(s, t, id, stats, h.NewSlot(s.key, s.info[id].service, source), now);
    }
  }

  /** A slot that is free, or taken by another entry that is terrible. */
  ghost predicate FreeOrTerrible(s: State, id: int, sl: Slot, now: int) {
    sl in s.new_ ==> s.new_[sl] != id && s.new_[sl] in s.info && s.info[s.new_[sl]].stats.IsTerrible(now)
  }

  lemma KnownSlot(s: State, t: State, id: int, stats: Stats, sl: Slot, now: int)
    requires id in s.info && t == SetStats(s, id, stats) && s.info[id].refCount > 0
    ensures CanEnter(t, id, sl, now) <==> FreeOrTerrible(s, id, sl, now)
  {
  }

  /** An unknown address that is kept has the announced record, one reference, and the slot of its source. */
  lemma AnnouncingUnknown(h: Hasher, s: State, address: Address, source: NetAddr, penalty: int, now: int, draw: nat)
    requires Inv(h, s) && AddReturns(h, s, address)
    requires address.service.ip in Add(h, s, address, source, penalty, now, draw).addr
    ensures var t, id, ip := Add(h, s, address, source, penalty, now, draw), s.idCount, address.service.ip;
            && t.addr[ip] == id && id in t.info
            && var y := t.info[id];
               && y.service == address.service && y.source == source && y.refCount == 1 && !y.inTried
               && y.stats.services == address.services
               && y.stats.time == (if address.time <= penalty then 0 else (address.time - penalty) % 0x1_0000_0000)
               && y.stats.lastTry == y.stats.lastCountAttempt == y.stats.lastSuccess == y.stats.attempts == 0
               && var sl := h.NewSlot(s.key, address.service, source); sl in t.new_ && t.new_[sl] == id
    ensures var t := Add(h, s, address, source, penalty, now, draw);
            forall n :: n in t.info && n != s.idCount ==> n in s.info && SameRecord(s.info[n], t.info[n])
  {
    var entry := address.(time := ClampTime(address.time - penalty));
    CreateKeepsCore(h, s, entry, source);
    AddKeepsInv(h, s, address, source, penalty, now, draw);
    var t := Create(s, entry, source);
    var u := Add(h, s, address, source, penalty, now, draw);
    SettleMeans(h, t, s.idCount, source, now);
    assert Holds(h, u, {}, AddressMap);
  }

  /** An address that cannot be routed is ignored. */
  lemma AnnouncingUnroutable(h: Hasher, s: State, address: Address, source: NetAddr, penalty: int, now: int, draw: nat)
    requires Inv(h, s) && !h.routable(address.service.ip)
    ensures Add(h, s, address, source, penalty, now, draw) == s
  {
  }

  // ---------------------------------------------------------------------------
  // What the other calls change.

  /** Terrible: not tried in the last minute, and from the future, too old, never reached, or not reached for a week. */
  lemma TerribleIff(x: Stats, now: int)
    ensures x.IsTerrible(now) <==>
              && (x.lastTry == 0 || x.lastTry < now - 60)
              && (|| x.time > now + 600
                  || x.time == 0
                  || x.time < now - 2592000
                  || (x.lastSuccess == 0 && x.attempts >= 3)
                  || (x.lastSuccess < now - 604800 && x.attempts >= 10))
  {
  }

  /** Calls for a service that is not known, or known with another port, change no entry. */
  lemma UnknownServiceChangesNothing(h: Hasher, s: State, service: Service, time: int, seen: Uint32, countFailure: bool, services: bv64)
    requires Inv(h, s) && time > 0
    requires service.ip in s.addr && s.addr[service.ip] in s.info ==> s.info[s.addr[service.ip]].service != service
    ensures Good(h, s, service, time) == s.(lastGood := time)
    ensures Attempt(s, service, countFailure, time) == s
    ensures Connected(s, service, seen) == s && SetServices(s, service, services) == s
  {
  }

  /** Only the statistics of one entry differ. */
  ghost predicate OnlyStats(s: State, t: State, id: int)
    requires id in s.info
  {
    && t == s.(info := t.info) && t.info.Keys == s.info.Keys
    && (forall n :: n in s.info && n != id ==> t.info[n] == s.info[n])
    && t.info[id] == s.info[id].(stats := t.info[id].stats)
  }

  lemma SetStatsIsOnlyStats(s: State, id: int, stats: Stats)
    requires id in s.info
    ensures OnlyStats(s, SetStats(s, id, stats), id) && SetStats(s, id, stats).info[id].stats == stats
  {
    assert SetStats(s, id, stats).info.Keys == s.info.Keys;
  }

  /** An attempt is always dated; it counts as a failure only if asked for, and not twice since the last success. */
  lemma AttemptMeans(s: State, service: Service, countFailure: bool, time: int)
    requires Knows(s, service)
    ensures var t, id := Attempt(s, service, countFailure, time), s.addr[service.ip];
            && OnlyStats(s, t, id)
            && var x, y := s.info[id].stats, t.info[id].stats;
               var counted := countFailure && x.lastCountAttempt < s.lastGood;
               && y.lastTry == time
               && y.attempts == x.attempts + (if counted then 1 else 0)
               && y.lastCountAttempt == (if counted then time else x.lastCountAttempt)
               && y.services == x.services && y.time == x.time && y.lastSuccess == x.lastSuccess
  {
    var t, id := Attempt(s, service, countFailure, time), s.addr[service.ip];
    SetStatsIsOnlyStats(s, id, t.info[id].stats);
  }

  lemma SetServicesMeans(s: State, service: Service, services: bv64)
    requires Knows(s, service)
    ensures var t, id := SetServices(s, service, services), s.addr[service.ip];
            && OnlyStats(s, t, id) && t.info[id].stats.services == services
            && var x, y := s.info[id].stats, t.info[id].stats;
               && y.time == x.time && y.lastTry == x.lastTry && y.lastCountAttempt == x.lastCountAttempt
               && y.lastSuccess == x.lastSuccess && y.attempts == x.attempts
  {
    var t, id := SetServices(s, service, services), s.addr[service.ip];
    SetStatsIsOnlyStats(s, id, t.info[id].stats);
  }

  lemma ConnectedMeans(s: State, service: Service, time: Uint32)
    requires Knows(s, service)
    ensures var t, id := Connected(s, service, time), s.addr[service.ip];
            && OnlyStats(s, t, id)
            && t.info[id].stats == s.info[id].stats.(time := if time > s.info[id].stats.time + 1200 then time else s.info[id].stats.time)
  {
    var t, id := Connected(s, service, time), s.addr[service.ip];
    SetStatsIsOnlyStats(s, id, t.info[id].stats);
  }

  /** The entry that MakeTried evicts keeps its record, and is back in the new slot of its own source. */
  ghost predicate Evicted(h: Hasher, s: State, t: State, n: int)
    requires n in s.info && n in t.info
  {
    && t.info[n].service == s.info[n].service && t.info[n].source == s.info[n].source && t.info[n].stats == s.info[n].stats
    && !t.info[n].inTried && t.info[n].refCount == 1
    && var u := h.NewSlot(s.key, s.info[n].service, s.info[n].source); u in t.new_ && t.new_[u] == n
  }

  lemma EvictMeans(h: Hasher, s: State, sl: Slot, pending: set<int>)
    requires Core(h, s, pending) && sl in s.tried
    requires forall n :: n in pending ==> n in s.info && s.info[n].refCount == 0 && !s.info[n].inTried
    ensures s.tried[sl] in s.info
    ensures var t, id := Evict(h, s, sl, pending), s.tried[sl];
            && id in t.info && Evicted(h, s, t, id)
            && forall n :: n in t.info && n != id ==> n in s.info && SameRecord(s.info[n], t.info[n])
  {
    UntryKeepsCore(h, s, sl, pending);
    var id := s.tried[sl];
    var t := Untry(s, sl);
    var u := h.NewSlot(s.key, s.info[id].service, s.info[id].source);
    UntriedIsUnreferenced(h, s, sl, pending, u);
    assert RandomOk(t.info, t.random) by { assert Holds(h, t, pending + {id}, RandomVector); }
    assert u in t.new_ ==> t.new_[u] in t.info by { assert Holds(h, t, pending + {id}, NewTable); }
    ClearNewKeepsRecords(t, u);
    ClearNewLeavesOthers(t, u, id);
  }

  /** MakeTried changes the record of the promoted entry and of the evicted one, and of no other. */
  lemma MakeTriedMeans(h: Hasher, s: State, id: int)
    requires Inv(h, s) && id in s.info && !s.info[id].inTried
    ensures var t, sl := MakeTried(h, s, id), h.TriedSlot(s.key, s.info[id].service);
            && id in t.info && t.info[id].inTried && t.info[id].refCount == 0 && sl in t.tried && t.tried[sl] == id
            && (sl in s.tried ==> s.tried[sl] in s.info && s.tried[sl] in t.info && Evicted(h, s, t, s.tried[sl]))
            && (forall n :: n in t.info && n != id && (sl in s.tried ==> n != s.tried[sl]) ==>
                  n in s.info && SameRecord(s.info[n], t.info[n]))
  {
    MakeTriedSteps(h, s, id);
    var t := Unplace(s, id);
    var sl := h.TriedSlot(s.key, s.info[id].service);
    if sl in t.tried {
      EvictKeepsCore(h, t, sl, {id});
      EvictMeans(h, t, sl, {id});
      assert t.tried[sl] != id by { assert Holds(h, t, {id}, TriedTable); }
    }
  }

  // ---------------------------------------------------------------------------
  // An address that Add_ reports as new and drops.

  /** All addresses in one bucket, at one position. */
  function OneSlot(): Hasher {
    Hasher((k, s) => 0, (k, s, a) => 0, (k, n, b, s) => 0, a => true)
  }

  /** The first address takes the only slot; the second is reported as new, and is not there. */
  lemma AddedAndDropped(first: Address, second: Address)
    requires first == Address(Service(1, 8333), 0, 1000) && second == Address(Service(2, 8333), 0, 1000)
    ensures Inv(OneSlot(), Empty(1))
    ensures var s := Add(OneSlot(), Empty(1), first, 9, 0, 1000, 0);
            && Inv(OneSlot(), s) && AddReturns(OneSlot(), s, second)
            && second.service.ip !in Add(OneSlot(), s, second, 9, 0, 1000, 0).addr
  {
    var h := OneSlot();
    EmptyIsConsistent(h, 1);
    AddKeepsInv(h, Empty(1), first, 9, 0, 1000, 0);
    CreateKeepsCore(h, Empty(1), first, 9);
    var s := Add(h, Empty(1), first, 9, 0, 1000, 0);
    assert s == Place(Create(Empty(1), first, 9), 0, Slot(0, 0));
    AddKeepsUnknownIff(h, s, second, 9, 0, 1000, 0);
  }
}
