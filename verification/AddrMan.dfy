/**
 CAddrMan in place: the maps, the random vector, the counters and the two bucket
 tables, updated by the methods of src/addrman.cpp.  Every method is proved against
 the snapshot operations of AddrManState and AddrManOps, and every assert of the
 source is proved where it stands.
 */
module AddressManager {
  import opened AddrManState
  import opened AddrManStream
  import opened AddrManForeign
  import Ops = AddrManOps

  /** A bucket table as a map from its occupied slots; -1 marks a free one. */
  ghost function Table(a: array2<int>): map<Slot, int>
    reads a
  {
    map b, p | 0 <= b < a.Length0 && 0 <= p < a.Length1 && a[b, p] != -1 :: Slot(b, p) := a[b, p]
  }

  method SetCell(a: array2<int>, b: nat, p: nat, v: int)
    requires b < a.Length0 && p < a.Length1
    modifies a
    ensures a[b, p] == v
    ensures Table(a) == if v == -1 then old(Table(a)) - {Slot(b, p)} else old(Table(a))[Slot(b, p) := v]
  {
    ghost var before := Table(a);
    a[b, p] := v;
    ghost var want := if v == -1 then before - {Slot(b, p)} else before[Slot(b, p) := v];
    forall sl: Slot
      ensures sl in Table(a) <==> sl in want
      ensures sl in want ==> sl in Table(a) && Table(a)[sl] == want[sl]
    {
    }
    assert Table(a).Keys == want.Keys;
  }

  class AddrMan {
    const h: Hasher
    var nKey: nat
    var nIdCount: int
    var mapInfo: map<int, AddrInfo>
    var mapAddr: map<NetAddr, int>
    var vRandom: seq<int>
    var nTried: int
    const vvTried: array2<int>
    var nNew: int
    const vvNew: array2<int>
    var nLastGood: int

    ghost predicate Shape() {
      && vvNew.Length0 == NEW_BUCKET_COUNT && vvNew.Length1 == BUCKET_SIZE
      && vvTried.Length0 == TRIED_BUCKET_COUNT && vvTried.Length1 == BUCKET_SIZE
      && vvNew != vvTried
    }

    ghost function Snapshot(): State
      reads this, vvNew, vvTried
    {
      State(nKey, nIdCount, mapInfo, mapAddr, vRandom, nTried, Table(vvTried), nNew, Table(vvNew), nLastGood)
    }

    ghost predicate Valid()
      reads this, vvNew, vvTried
    {
      Shape() && Inv(h, Snapshot())
    }

    /** CAddrMan() and Clear(): every slot free. */
    constructor (h: Hasher, key: nat)
      requires key != 0
      ensures Valid() && fresh(vvNew) && fresh(vvTried)
      ensures this.h == h && Snapshot() == Empty(key)
    {
      this.h := h;
      nKey := key;
      nIdCount, nTried, nNew, nLastGood := 0, 0, 0, 1;
      mapInfo, mapAddr, vRandom := map[], map[], [];
      vvNew := new int[NEW_BUCKET_COUNT, BUCKET_SIZE]((i, j) => -1);
      vvTried := new int[TRIED_BUCKET_COUNT, BUCKET_SIZE]((i, j) => -1);
      new;
      assert Table(vvNew) == map[] && Table(vvTried) == map[];
      Ops.EmptyIsConsistent(h, key);
    }

    method SwapRandom(i: nat, j: nat)
      requires i < |vRandom| && j < |vRandom| && RandomOk(mapInfo, vRandom)
      modifies this`mapInfo, this`vRandom
      ensures Snapshot() == AddrManState.SwapRandom(old(Snapshot()), i, j)
    {
      if i == j {
        return;
      }
      var id1, id2 := vRandom[i], vRandom[j];
      assert id1 in mapInfo && id2 in mapInfo;
      mapInfo := mapInfo[id1 := mapInfo[id1].(randomPos := j)];
      mapInfo := mapInfo[id2 := mapInfo[id2].(randomPos := i)];
      vRandom := vRandom[i := id2];
      vRandom := vRandom[j := id1];
    }

    /** Create, with the nNew++ that Add_ does after it. */
    method Create(address: Address, source: NetAddr) returns (id: int)
      modifies this`nIdCount, this`mapInfo, this`mapAddr, this`vRandom, this`nNew
      ensures id == old(nIdCount)
      ensures Snapshot() == AddrManState.Create(old(Snapshot()), address, source)
    {
      id := nIdCount;
      nIdCount := nIdCount + 1;
      mapInfo := mapInfo[id := FreshInfo(address, source)];
      mapAddr := mapAddr[address.service.ip := id];
      mapInfo := mapInfo[id := mapInfo[id].(randomPos := |vRandom|)];
      vRandom := vRandom + [id];
      nNew := nNew + 1;
    }

    method Delete(id: int)
      requires RandomOk(mapInfo, vRandom) && id in mapInfo
      requires !mapInfo[id].inTried && mapInfo[id].refCount == 0
      modifies this`mapInfo, this`mapAddr, this`vRandom, this`nNew
      ensures Snapshot() == AddrManState.Delete(old(Snapshot()), id)
    {
      DeleteIsSwapThenDrop(Snapshot(), id);
      SwapRepositions(Snapshot(), mapInfo[id].randomPos, |vRandom| - 1);
      SwapRandom(mapInfo[id].randomPos, |vRandom| - 1);
      vRandom := vRandom[..|vRandom| - 1];
      mapAddr := mapAddr - {mapInfo[id].service.ip};
      mapInfo := mapInfo - {id};
      nNew := nNew - 1;
    }

    /** The first half of ClearNew. */
    method Unref_(b: nat, p: nat)
      requires Shape() && b < NEW_BUCKET_COUNT && p < BUCKET_SIZE
      requires vvNew[b, p] != -1 && vvNew[b, p] in mapInfo
      modifies this`mapInfo, vvNew
      ensures vvNew[b, p] == -1
      ensures Slot(b, p) in old(Snapshot()).new_ && old(Snapshot()).new_[Slot(b, p)] == old(vvNew[b, p])
      ensures Snapshot() == Unref(old(Snapshot()), Slot(b, p))
    {
      var id := vvNew[b, p];
      assert Slot(b, p) in Table(vvNew) && Table(vvNew)[Slot(b, p)] == id;
      mapInfo := mapInfo[id := mapInfo[id].(refCount := mapInfo[id].refCount - 1)];
      SetCell(vvNew, b, p, -1);
    }

    /**
     The caller's nNew may be off while entries are between tables; `skew` is what it lacks.
     */
    method ClearNew(b: nat, p: nat, ghost skew: int, ghost pending: set<int>)
      requires Shape() && b < NEW_BUCKET_COUNT && p < BUCKET_SIZE
      requires Core(h, Ops.Skew(Snapshot(), skew), pending)
      modifies this`mapInfo, this`mapAddr, this`vRandom, this`nNew, vvNew
      ensures RandomOk(old(mapInfo), old(vRandom))
      ensures Slot(b, p) in old(Snapshot()).new_ ==> old(Snapshot()).new_[Slot(b, p)] in old(mapInfo)
      ensures Snapshot() == AddrManState.ClearNew(old(Snapshot()), Slot(b, p))
      ensures vvNew[b, p] == -1
    {
      assert RandomOk(mapInfo, vRandom) && OccupantIsNew(mapInfo, Table(vvNew), Slot(b, p)) by {
        CoreParts(h, Ops.Skew(Snapshot(), skew), pending);
      }
      if vvNew[b, p] != -1 {
        var id := vvNew[b, p];
        assert Slot(b, p) in Table(vvNew) && Table(vvNew)[Slot(b, p)] == id;
        UpdateKeepsRandom(mapInfo, vRandom, id, mapInfo[id].(refCount := mapInfo[id].refCount - 1));
        Unref_(b, p);
        if mapInfo[id].refCount == 0 {
          Delete(id);
        }
      }
    }

    method MakeTried(id: int)
      requires Valid() && id in mapInfo && !mapInfo[id].inTried && mapInfo[id].stats.lastSuccess > 0
      modifies this`mapInfo, this`mapAddr, this`vRandom, this`nNew, this`nTried, vvNew, vvTried
      ensures Snapshot() == Ops.MakeTried(h, old(Snapshot()), id)
      ensures Valid()
    {
      ghost var s0 := Snapshot();
      assert id >= 0 by { assert Holds(h, s0, {}, Entries); }
      Ops.MakeTriedSteps(h, s0, id);
      Ops.MakeTriedKeepsInv(h, s0, id);
      ghost var s1 := Unplace(s0, id);
      ForgetNew(id);
      nNew := nNew - 1;
      assert mapInfo[id].refCount == 0;

      var kb := h.triedBucket(nKey, mapInfo[id].service);
      var kp := h.position(nKey, false, kb, mapInfo[id].service);
      ghost var sl := Slot(kb, kp);
      ghost var s2 := s1;
      if vvTried[kb, kp] != -1 {
        assert sl in s1.tried;
        ReturnToNew(kb, kp, s1, id);
        s2 := Ops.Evict(h, s1, sl, {id});
      }
      assert vvTried[kb, kp] == -1 by {
        assert sl !in Table(vvTried);
      }
      assert Snapshot() == Ops.Skew(s2, -1);
      Ops.SkewCommutes(s2, -1, id, sl);
      Ops.SkewSkew(Try(s2, id, sl), -1, 1);
      EnterTried(kb, kp, id);
    }

    /** The first loop of MakeTried: remove the entry from all new buckets. */
    method ForgetNew(id: int)
      requires Valid() && id in mapInfo && !mapInfo[id].inTried
      modifies this`mapInfo, vvNew
      ensures Snapshot() == Unplace(old(Snapshot()), id)
    {
      ghost var s0 := Snapshot();
      ghost var service := mapInfo[id].service;
      assert NewOk(h, s0.key, s0.info, s0.new_) && s0.info[id].refCount == |Refs(s0.new_, id)| && id >= 0 by {
        CoreParts(h, s0, {});
      }
      WithoutNone(s0, id);
      for bucket := 0 to NEW_BUCKET_COUNT
        invariant id in mapInfo && mapInfo[id].service == service
        invariant mapInfo == Counting(s0.info, id, mapInfo[id].refCount)
        invariant Table(vvNew) == WithoutBelow(s0.new_, id, bucket)
        invariant mapInfo[id].refCount == |Refs(Table(vvNew), id)|
      {
        var pos := h.position(nKey, true, bucket, mapInfo[id].service);
        ghost var table := Table(vvNew);
        if vvNew[bucket, pos] == id {
          assert Slot(bucket, pos) in table;
          SetCell(vvNew, bucket, pos, -1);
          RefsAfterRemoval(table, Slot(bucket, pos), id);
          mapInfo := mapInfo[id := mapInfo[id].(refCount := mapInfo[id].refCount - 1)];
        }
        WithoutNext(h, s0, id, bucket);
      }
      WithoutAll(h, s0, id);
    }

    /** The middle of MakeTried: the occupant of a tried slot goes back to the new table. */
    method ReturnToNew(kb: nat, kp: nat, ghost s1: State, ghost id: int)
      requires Shape() && kb < TRIED_BUCKET_COUNT && kp < BUCKET_SIZE
      requires Core(h, s1, {id}) && id in s1.info && s1.info[id].refCount == 0 && !s1.info[id].inTried
      requires Snapshot() == Ops.Skew(s1, -1) && Slot(kb, kp) in s1.tried
      modifies this`mapInfo, this`mapAddr, this`vRandom, this`nNew, this`nTried, vvNew, vvTried
      ensures Snapshot() == Ops.Skew(Ops.Evict(h, s1, Slot(kb, kp), {id}), -1)
    {
      ghost var sl := Slot(kb, kp);
      UntryKeepsCore(h, s1, sl, {id});
      ghost var s2 := Untry(s1, sl);
      Ops.SkewUntry(s1, -1, sl);
      Ops.SkewSkew(s2, -1, -1);
      var idEvict := LeaveTried(kb, kp);
      assert Snapshot() == Ops.Skew(s2, -2);
      var ub := h.newBucket(nKey, mapInfo[idEvict].service, mapInfo[idEvict].source);
      var up := h.position(nKey, true, ub, mapInfo[idEvict].service);
      EvictedEntry(s1, id, idEvict, sl, Slot(ub, up));
      ClearNew(ub, up, 2, {id} + {idEvict});
      ghost var s3 := AddrManState.ClearNew(s2, Slot(ub, up));
      assert Snapshot() == Ops.Skew(s3, -2);
      assert vvNew[ub, up] == -1;
      Ops.SkewCommutes(s3, -2, idEvict, Slot(ub, up));
      Ops.SkewSkew(Place(s3, idEvict, Slot(ub, up)), -2, 1);
      EnterNew(ub, up, idEvict);
    }

    method EnterTried(kb: nat, kp: nat, id: int)
      requires Shape() && kb < TRIED_BUCKET_COUNT && kp < BUCKET_SIZE && id in mapInfo && id >= 0
      modifies this`mapInfo, this`nTried, vvTried
      ensures Snapshot() == Ops.Skew(Try(old(Snapshot()), id, Slot(kb, kp)), 1)
    {
      SetCell(vvTried, kb, kp, id);
      nTried := nTried + 1;
      mapInfo := mapInfo[id := mapInfo[id].(inTried := true)];
    }

    method LeaveTried(kb: nat, kp: nat) returns (id: int)
      requires Shape() && kb < TRIED_BUCKET_COUNT && kp < BUCKET_SIZE
      requires vvTried[kb, kp] != -1 && vvTried[kb, kp] in mapInfo
      modifies this`mapInfo, this`nTried, vvTried
      ensures id == old(vvTried[kb, kp])
      ensures Snapshot() == Ops.Skew(Untry(old(Snapshot()), Slot(kb, kp)), -1)
    {
      id := vvTried[kb, kp];
      mapInfo := mapInfo[id := mapInfo[id].(inTried := false)];
      SetCell(vvTried, kb, kp, -1);
      nTried := nTried - 1;
    }

    method EnterNew(b: nat, p: nat, id: int)
      requires Shape() && b < NEW_BUCKET_COUNT && p < BUCKET_SIZE && id in mapInfo && id >= 0
      requires mapInfo[id].refCount == 0
      modifies this`mapInfo, this`nNew, vvNew
      ensures Snapshot() == Ops.Skew(Place(old(Snapshot()), id, Slot(b, p)), 1)
    {
      mapInfo := mapInfo[id := mapInfo[id].(refCount := 1)];
      SetCell(vvNew, b, p, id);
      nNew := nNew + 1;
    }

    lemma EvictedEntry(s1: State, id: int, idEvict: int, sl: Slot, u: Slot)
      requires Core(h, s1, {id}) && id in s1.info && s1.info[id].refCount == 0 && !s1.info[id].inTried
      requires sl in s1.tried && s1.tried[sl] == idEvict && idEvict in s1.info
      requires u == h.NewSlot(s1.key, s1.info[idEvict].service, s1.info[idEvict].source)
      ensures var s2 := Untry(s1, sl);
              && Core(h, s2, {id} + {idEvict}) && idEvict >= 0
              && RandomOk(s2.info, s2.random) && (u in s2.new_ ==> s2.new_[u] in s2.info)
              && var s3 := AddrManState.ClearNew(s2, u);
                 && idEvict in s3.info && s3.info[idEvict].refCount == 0
                 && Ops.Skew(Ops.Skew(s2, -2), 2) == s2
                 && AddrManState.ClearNew(Ops.Skew(s2, -2), u) == Ops.Skew(s3, -2)
                 && Ops.Evict(h, s1, sl, {id}) == Place(s3, idEvict, u)
    {
      UntryKeepsCore(h, s1, sl, {id});
      assert Holds(h, s1, {id}, Entries);
      var s2 := Untry(s1, sl);
      Ops.UntriedIsUnreferenced(h, s1, sl, {id}, u);
      ClearNewKeepsCore(h, s2, u, {id} + {idEvict});
      Ops.ClearNewLeavesOthers(s2, u, idEvict);
      Ops.SkewClearNew(s2, -2, u);
      Ops.SkewSkew(s2, -2, 2);
    }

    /** The id recorded for an ip, or -1. */
    function Find(ip: NetAddr): int
      reads this
    {
      if ip in mapAddr && mapAddr[ip] in mapInfo then mapAddr[ip] else -1
    }

    method SetStats(id: int, stats: Stats)
      requires id in mapInfo
      modifies this`mapInfo
      ensures Snapshot() == Ops.SetStats(old(Snapshot()), id, stats)
    {
      mapInfo := mapInfo[id := mapInfo[id].(stats := stats)];
    }

    method Good_(service: Service, time: int, draw: nat)
      requires Valid() && time > 0 && draw < NEW_BUCKET_COUNT
      modifies this, vvNew, vvTried
      ensures Snapshot() == Ops.Good(h, old(Snapshot()), service, time)
      ensures Valid()
    {
      ghost var s0 := Snapshot();
      Ops.GoodKeepsInv(h, s0, service, time);
      Ops.LastGoodKeepsInv(h, s0, time);
      assert Holds(h, s0, {}, Entries);
      nLastGood := time;
      var id := Find(service.ip);
      if id == -1 {
        return;
      }
      if mapInfo[id].service != service {
        return;
      }
      var stats := mapInfo[id].stats.(lastSuccess := time, lastTry := time, attempts := 0);
      Ops.SetStatsKeepsInv(h, Snapshot(), id, stats);
      SetStats(id, stats);
      if mapInfo[id].inTried {
        return;
      }
      var bucket := FindNewBucket(id, draw);
      assert bucket != -1;
      MakeTried(id);
    }

    /** Whether a new bucket holds `id` at the position it hashes to there. */
    predicate HeldIn(bucket: nat, id: int)
      requires Shape() && bucket < NEW_BUCKET_COUNT && id in mapInfo
      reads this, vvNew
    {
      vvNew[bucket, h.position(nKey, true, bucket, mapInfo[id].service)] == id
    }

    /** The search of Good_ for a bucket that holds the entry, from a random start: it never fails. */
    method FindNewBucket(id: int, draw: nat) returns (bucket: int)
      requires Valid() && id in mapInfo && !mapInfo[id].inTried && draw < NEW_BUCKET_COUNT
      ensures 0 <= bucket < NEW_BUCKET_COUNT && HeldIn(bucket, id)
    {
      bucket := -1;
      ghost var held := SomeHeld(id);
      ghost var turn := RotateReaches(held, draw);
      for n := 0 to NEW_BUCKET_COUNT
        invariant bucket == -1
        invariant forall m :: 0 <= m < n ==> !HeldIn(Rotate(m, draw), id)
      {
        if HeldIn(Rotate(n, draw), id) {
          bucket := Rotate(n, draw);
          break;
        }
      }
    }

    lemma SomeHeld(id: int) returns (b: nat)
      requires Valid() && id in mapInfo && !mapInfo[id].inTried
      ensures b < NEW_BUCKET_COUNT && HeldIn(b, id)
    {
      b := Ops.SomeBucketHolds(h, Snapshot(), id);
    }

    /** The end of Add_: take the slot the source selects, if it is free or can be overwritten. */
    method Settle(id: int, source: NetAddr, now: int)
      requires Shape() && Core(h, Snapshot(), {id}) && id in mapInfo
      requires !mapInfo[id].inTried && mapInfo[id].refCount < NEW_BUCKETS_PER_ADDRESS
      modifies this`mapInfo, this`mapAddr, this`vRandom, this`nNew, vvNew
      ensures Snapshot() == Ops.Settle(h, old(Snapshot()), id, source, now)
      ensures Valid()
    {
      ghost var s0 := Snapshot();
      Ops.SettleKeepsInv(h, s0, id, source, now);
      CoreParts(h, s0, {id});
      var b := h.newBucket(nKey, mapInfo[id].service, source);
      var p := h.position(nKey, true, b, mapInfo[id].service);
      ghost var sl := Slot(b, p);
      assert sl == h.NewSlot(s0.key, s0.info[id].service, source);
      assert sl in s0.new_ <==> vvNew[b, p] != -1;
      if vvNew[b, p] != id {
        var fInsert := vvNew[b, p] == -1;
        if !fInsert {
          var existing := mapInfo[vvNew[b, p]];
          if existing.stats.IsTerrible(now) || (existing.refCount > 1 && mapInfo[id].refCount == 0) {
            fInsert := true;
          }
        }
        assert fInsert == Ops.MayTakeSlot(s0, id, sl, now);
        if fInsert {
          TakeSlot(b, p, id);
        } else {
          if mapInfo[id].refCount == 0 {
            Delete(id);
          }
        }
      }
    }

    method TakeSlot(b: nat, p: nat, id: int)
      requires Shape() && b < NEW_BUCKET_COUNT && p < BUCKET_SIZE
      requires Core(h, Snapshot(), {id}) && id in mapInfo && vvNew[b, p] != id
      modifies this`mapInfo, this`mapAddr, this`vRandom, this`nNew, vvNew
      ensures var s := old(Snapshot()); var sl := Slot(b, p);
              && RandomOk(s.info, s.random) && (sl in s.new_ ==> s.new_[sl] in s.info)
              && id in AddrManState.ClearNew(s, sl).info
              && Snapshot() == Place(AddrManState.ClearNew(s, sl), id, sl)
    {
      ghost var s0 := Snapshot();
      ghost var sl := Slot(b, p);
      assert sl in s0.new_ ==> s0.new_[sl] != id;
      assert id >= 0 by { assert Holds(h, s0, {id}, Entries); }
      ClearNewKeepsCore(h, s0, sl, {id});
      Ops.SkewSkew(s0, 0, 0);
      Ops.ClearNewLeavesOthers(s0, sl, id);
      ClearNew(b, p, 0, {id});
      ghost var s1 := AddrManState.ClearNew(s0, sl);
      assert Snapshot() == s1;
      assert mapInfo == s1.info;
      AddReference(b, p, id);
    }

    method AddReference(b: nat, p: nat, id: int)
      requires Shape() && b < NEW_BUCKET_COUNT && p < BUCKET_SIZE && id in mapInfo && id >= 0
      modifies this`mapInfo, vvNew
      ensures Snapshot() == Place(old(Snapshot()), id, Slot(b, p))
    {
      mapInfo := mapInfo[id := mapInfo[id].(refCount := mapInfo[id].refCount + 1)];
      SetCell(vvNew, b, p, id);
    }

    method Add_(address: Address, source: NetAddr, penalty: int, now: int, draw: nat) returns (fNew: bool)
      requires Valid()
      modifies this, vvNew
      ensures fNew == Ops.AddReturns(h, old(Snapshot()), address)
      ensures Snapshot() == Ops.Add(h, old(Snapshot()), address, source, penalty, now, draw)
      ensures Valid()
    {
      ghost var s0 := Snapshot();
      Ops.AddKeepsInv(h, s0, address, source, penalty, now, draw);
      assert AddrOk(mapInfo, mapAddr) && EntriesOk(mapInfo, nIdCount) by { CoreParts(h, s0, {}); }
      if !h.routable(address.service.ip) {
        return false;
      }
      var id := Find(address.service.ip);
      if id != -1 {
        AddKnown(id, address, source, penalty, now, draw);
        fNew := false;
      } else {
        AddUnknown(address, source, penalty, now);
        fNew := true;
      }
    }

    method AddUnknown(address: Address, source: NetAddr, penalty: int, now: int)
      requires Valid() && address.service.ip !in mapAddr
      modifies this, vvNew
      ensures Snapshot() == Ops.AddUnknown(h, old(Snapshot()), address, source, penalty, now)
      ensures Valid()
    {
      var entry := address.(time := Ops.ClampTime(address.time - penalty));
      CreateKeepsCore(h, Snapshot(), entry, source);
      var id := Create(entry, source);
      Settle(id, source, now);
    }

    method AddKnown(id: int, address: Address, source: NetAddr, penalty: int, now: int, draw: nat)
      requires Valid() && id in mapInfo
      modifies this`mapInfo, this`mapAddr, this`vRandom, this`nNew, vvNew
      ensures Snapshot() == Ops.AddKnown(h, old(Snapshot()), id, address, source, penalty, now, draw)
      ensures Valid()
    {
      ghost var s0 := Snapshot();
      Ops.AddKnownKeepsInv(h, s0, id, address, source, penalty, now, draw);
      assert 0 <= mapInfo[id].refCount <= NEW_BUCKETS_PER_ADDRESS by { CoreParts(h, s0, {}); }
      var stats := Ops.AnnouncedStats(mapInfo[id].stats, address, penalty, now);
      assert stats.lastTry >= 0 && stats.lastSuccess >= 0 by { CoreParts(h, s0, {}); }
      Ops.SetStatsKeepsInv(h, s0, id, stats);
      SetStats(id, stats);
      var info := mapInfo[id];
      if address.time == 0 || (info.stats.time != 0 && address.time <= info.stats.time) {
        return;
      }
      if info.inTried {
        return;
      }
      if info.refCount == NEW_BUCKETS_PER_ADDRESS {
        return;
      }
      var factor := 1;
      for n := 0 to info.refCount
        invariant factor == Ops.Pow2(n)
      {
        factor := factor * 2;
      }
      if factor > 1 && draw % factor != 0 {
        return;
      }
      Ops.InvIsCore(h, Snapshot(), id);
      Settle(id, source, now);
    }

    method Attempt_(service: Service, countFailure: bool, time: int)
      requires Valid() && time >= 0
      modifies this`mapInfo
      ensures Snapshot() == Ops.Attempt(old(Snapshot()), service, countFailure, time)
      ensures Valid()
    {
      Ops.StepKeepsInv(h, Snapshot(), Ops.AttemptEvent(service, countFailure, time));
      assert Holds(h, Snapshot(), {}, Entries);
      var id := Find(service.ip);
      if id == -1 {
        return;
      }
      if mapInfo[id].service != service {
        return;
      }
      var stats := mapInfo[id].stats;
      SetStats(id, stats.(lastTry := time));
      if countFailure && stats.lastCountAttempt < nLastGood {
        SetStats(id, mapInfo[id].stats.(lastCountAttempt := time, attempts := stats.attempts + 1));
      }
    }

    method Connected_(service: Service, time: Uint32)
      requires Valid()
      modifies this`mapInfo
      ensures Snapshot() == Ops.Connected(old(Snapshot()), service, time)
      ensures Valid()
    {
      Ops.StepKeepsInv(h, Snapshot(), Ops.ConnectedEvent(service, time));
      assert Holds(h, Snapshot(), {}, Entries);
      var id := Find(service.ip);
      if id == -1 {
        return;
      }
      if mapInfo[id].service != service {
        return;
      }
      if time - mapInfo[id].stats.time > 20 * 60 {
        SetStats(id, mapInfo[id].stats.(time := time));
      }
    }

    method SetServices_(service: Service, services: bv64)
      requires Valid()
      modifies this`mapInfo
      ensures Snapshot() == Ops.SetServices(old(Snapshot()), service, services)
      ensures Valid()
    {
      Ops.StepKeepsInv(h, Snapshot(), Ops.SetServicesEvent(service, services));
      assert Holds(h, Snapshot(), {}, Entries);
      var id := Find(service.ip);
      if id == -1 {
        return;
      }
      if mapInfo[id].service != service {
        return;
      }
      SetStats(id, mapInfo[id].stats.(services := services));
    }

    /** At most this many addresses are handed out by one GetAddr_. */
    function GetAddrLimit(): nat
      reads this
    {
      var share := 23 * |vRandom| / 100;
      if share > 2500 then 2500 else share
    }

    /** Twenty-three percent of the entries, rounded down, and never more than 2500. */
    lemma GetAddrLimitIs()
      ensures 100 * GetAddrLimit() <= 23 * |vRandom| && GetAddrLimit() <= 2500
      ensures 23 * |vRandom| < 100 * (GetAddrLimit() + 1) || GetAddrLimit() == 2500
    {
    }

    /** One step of GetAddr_: draw an entry into position n and hand it out unless it is terrible. */
    method PassOne(n: nat, draw: nat, now: int, vAddr: seq<Address>) returns (r: seq<Address>)
      requires Valid() && n < |vRandom| && Ops.AllKnown(mapInfo, vRandom[..n])
      requires vAddr == Ops.Presentable(mapInfo, vRandom[..n], now)
      modifies this`mapInfo, this`vRandom
      ensures RandomOk(old(mapInfo), old(vRandom))
      ensures Snapshot() == AddrManState.SwapRandom(old(Snapshot()), n, Ops.DrawFrom(draw, n, |old(vRandom)|))
      ensures Valid() && |vRandom| == |old(vRandom)|
      ensures Ops.AllKnown(mapInfo, vRandom[..n + 1]) && r == Ops.Presentable(mapInfo, vRandom[..n + 1], now)
      ensures |r| <= |vAddr| + 1
    {
      var j := Ops.DrawFrom(draw, n, |vRandom|);
      Ops.SwapKeepsPrefix(h, Snapshot(), n, j);
      ghost var info, ids := mapInfo, vRandom[..n];
      SwapRandom(n, j);
      Ops.PresentableRepositioned(info, mapInfo, ids, now);
      assert vRandom[n] in mapInfo by {
        assert Holds(h, Snapshot(), {}, RandomVector);
      }
      Ops.PresentableNext(mapInfo, vRandom, n, now);
      r := vAddr;
      if !mapInfo[vRandom[n]].stats.IsTerrible(now) {
        r := r + [Ops.AddressOf(mapInfo[vRandom[n]])];
      }
    }

    /**
     `draws` supplies the random positions.  The random vector is shuffled from the front
     and the entries it passes are handed out unless they are terrible, up to the limit.
     */
    method GetAddr_(now: int, draws: seq<nat>) returns (vAddr: seq<Address>, ghost passed: nat)
      requires Valid() && |draws| == |vRandom|
      modifies this`mapInfo, this`vRandom
      ensures passed <= |draws| && Snapshot() == Ops.Shuffle(h, old(Snapshot()), draws, passed)
      ensures Valid() && |vRandom| == |draws|
      ensures Ops.AllKnown(mapInfo, vRandom[..passed])
      ensures vAddr == Ops.Presentable(mapInfo, vRandom[..passed], now)
      ensures |vAddr| <= GetAddrLimit()
      ensures passed == |vRandom| || |vAddr| == GetAddrLimit()
    {
      ghost var s0 := Snapshot();
      var nNodes := GetAddrLimit();
      vAddr := [];
      var n := 0;
      while n < |vRandom| && |vAddr| < nNodes
        invariant 0 <= n <= |vRandom| == |draws| && |vAddr| <= nNodes
        invariant Snapshot() == Ops.Shuffle(h, s0, draws, n)
        invariant Valid()
        invariant Ops.AllKnown(mapInfo, vRandom[..n])
        invariant vAddr == Ops.Presentable(mapInfo, vRandom[..n], now)
      {
        vAddr := PassOne(n, draws[n], now, vAddr);
        n := n + 1;
      }
      passed := n;
    }

    // -------------------------------------------------------------------------
    // Serialize and Unserialize.

    /** `ids` is the order in which the id map is walked. */
    method Serialize(ids: seq<int>) returns (out: seq<Token>)
      requires Valid() && Enumerates(ids, mapInfo)
      ensures out == Stream(h, Snapshot(), ids)
    {
      ghost var s := Snapshot();
      out := Header(nKey, nNew, nTried);
      var entries, mapUnkIds := SaveNew(ids);
      out := out + entries;
      entries := SaveTried(ids);
      out := out + entries;
      IndexCovers(h, s, ids);
      var buckets := SaveBuckets(mapUnkIds);
      out := out + buckets;
    }

    method SaveNew(ids: seq<int>) returns (out: seq<Token>, mapUnkIds: map<int, int>)
      requires Valid() && Enumerates(ids, mapInfo)
      ensures mapUnkIds == IndexAmong(mapInfo, ids, |ids|)
      ensures AllIn(NewAmong(mapInfo, ids, |ids|), mapInfo)
      ensures out == EntryTokens(mapInfo, NewAmong(mapInfo, ids, |ids|))
    {
      LoadOrderEnumerates(h, Snapshot(), ids);
      out, mapUnkIds := [], map[];
      var nIds := 0;
      for i := 0 to |ids|
        invariant nIds == |NewAmong(mapInfo, ids, i)|
        invariant mapUnkIds == IndexAmong(mapInfo, ids, i)
        invariant AllIn(NewAmong(mapInfo, ids, i), mapInfo)
        invariant out == EntryTokens(mapInfo, NewAmong(mapInfo, ids, i))
      {
        mapUnkIds := mapUnkIds[ids[i] := nIds];
        EntryTokensAppend(mapInfo, NewAmong(mapInfo, ids, i), ids[i]);
        if mapInfo[ids[i]].refCount != 0 {
          NewAmongGrows(mapInfo, ids, i + 1, |ids|);
          assert nIds != nNew;
          out := out + [Entry(Save(mapInfo[ids[i]]))];
          nIds := nIds + 1;
        }
      }
    }

    method SaveTried(ids: seq<int>) returns (out: seq<Token>)
      requires Valid() && Enumerates(ids, mapInfo)
      ensures AllIn(TriedAmong(mapInfo, ids, |ids|), mapInfo)
      ensures out == EntryTokens(mapInfo, TriedAmong(mapInfo, ids, |ids|))
    {
      LoadOrderEnumerates(h, Snapshot(), ids);
      out := [];
      var nIds := 0;
      for i := 0 to |ids|
        invariant nIds == |TriedAmong(mapInfo, ids, i)|
        invariant AllIn(TriedAmong(mapInfo, ids, i), mapInfo)
        invariant out == EntryTokens(mapInfo, TriedAmong(mapInfo, ids, i))
      {
        EntryTokensAppend(mapInfo, TriedAmong(mapInfo, ids, i), ids[i]);
        if mapInfo[ids[i]].inTried {
          TriedAmongGrows(mapInfo, ids, i + 1, |ids|);
          assert nIds != nTried;
          out := out + [Entry(Save(mapInfo[ids[i]]))];
          nIds := nIds + 1;
        }
      }
    }

    method CountBucket(bucket: nat, ghost mapUnkIds: map<int, int>) returns (nSize: int)
      requires Shape() && bucket < NEW_BUCKET_COUNT
      requires forall sl :: sl in Table(vvNew) ==> Table(vvNew)[sl] in mapUnkIds
      ensures nSize == |BucketTokens(Table(vvNew), mapUnkIds, bucket, BUCKET_SIZE)|
    {
      nSize := 0;
      for i := 0 to BUCKET_SIZE
        invariant nSize == |BucketTokens(Table(vvNew), mapUnkIds, bucket, i)|
      {
        assert vvNew[bucket, i] != -1 <==> Slot(bucket, i) in Table(vvNew);
        if vvNew[bucket, i] != -1 {
          nSize := nSize + 1;
        }
      }
    }

    method SaveBucket(bucket: nat, mapUnkIds: map<int, int>) returns (indices: seq<Token>)
      requires Shape() && bucket < NEW_BUCKET_COUNT
      requires forall sl :: sl in Table(vvNew) ==> Table(vvNew)[sl] in mapUnkIds
      ensures indices == BucketTokens(Table(vvNew), mapUnkIds, bucket, BUCKET_SIZE)
    {
      indices := [];
      for i := 0 to BUCKET_SIZE
        invariant indices == BucketTokens(Table(vvNew), mapUnkIds, bucket, i)
      {
        assert vvNew[bucket, i] != -1 <==> Slot(bucket, i) in Table(vvNew);
        if vvNew[bucket, i] != -1 {
          assert Table(vvNew)[Slot(bucket, i)] == vvNew[bucket, i];
          indices := indices + [Number(mapUnkIds[vvNew[bucket, i]])];
        }
      }
    }

    method SaveBuckets(mapUnkIds: map<int, int>) returns (out: seq<Token>)
      requires Shape() && forall sl :: sl in Table(vvNew) ==> Table(vvNew)[sl] in mapUnkIds
      ensures out == TableTokens(Table(vvNew), mapUnkIds, 0)
    {
      out := [];
      ghost var table := Table(vvNew);
      for bucket := 0 to NEW_BUCKET_COUNT
        invariant out + TableTokens(table, mapUnkIds, bucket) == TableTokens(table, mapUnkIds, 0)
      {
        var nSize := CountBucket(bucket, mapUnkIds);
        var indices := SaveBucket(bucket, mapUnkIds);
        TableTokensStep(out, table, mapUnkIds, bucket);
        out := out + [Number(nSize)] + indices;
      }
      assert out + [] == out;
    }

    method ClearTable(table: array2<int>)
      modifies table
      ensures Table(table) == map[]
    {
      for b := 0 to table.Length0
        invariant forall i, p :: 0 <= i < b && 0 <= p < table.Length1 ==> table[i, p] == -1
      {
        for p := 0 to table.Length1
          invariant forall i, q :: 0 <= i < b && 0 <= q < table.Length1 ==> table[i, q] == -1
          invariant forall q :: 0 <= q < p ==> table[b, q] == -1
        {
          table[b, p] := -1;
        }
      }
    }

    /** Clear: everything but the two maps of entries. */
    method Clear(key: nat)
      requires Shape()
      modifies this, vvNew, vvTried
      ensures Snapshot() == Empty(key).(info := old(mapInfo), addr := old(mapAddr))
    {
      vRandom, nKey := [], key;
      ClearTable(vvNew);
      ClearTable(vvTried);
      nIdCount, nTried, nNew, nLastGood := 0, 0, 0, 1;
    }

    /**
     Unserialize into a manager without entries.  A stream that ends early or holds the wrong kind of
     value makes a read fail; `ok` tells.  Whatever the stream, the random vector agrees with
     the id map; a stream with a key and entries of addresses of their own gives a consistent
     manager, and the stream of a consistent manager gives that manager back.
     */
    method Unserialize(key: nat, input: seq<Token>, ghost s: State, ghost ids: seq<int>) returns (ok: bool)
      requires Shape() && mapInfo == map[] && mapAddr == map[]
      modifies this, vvNew, vvTried
      ensures ok ==> RandomOk(mapInfo, vRandom)
      ensures ok && SaneStream(input) ==> Valid()
      ensures SavedForm(h, s, ids, input) ==>
                ok && SameUpTo(LoadOrder(s.info, ids), s, Snapshot()) && nLastGood == 1 && Valid()
    {
      Clear(key);
      ok := LoadStream(input, s, ids);
    }

    method LoadStream(input: seq<Token>, ghost s: State, ghost ids: seq<int>) returns (ok: bool)
      requires Shape() && Snapshot() == Empty(nKey)
      modifies this, vvNew, vvTried
      ensures ok ==> RandomOk(mapInfo, vRandom)
      ensures ok && SaneStream(input) ==> Inv(h, Snapshot())
      ensures SavedForm(h, s, ids, input) ==>
                ok && SameUpTo(LoadOrder(s.info, ids), s, Snapshot()) && nLastGood == 1 && Inv(h, Snapshot())
    {
      ghost var good := SavedForm(h, s, ids, input);
      ghost var order, first, index := [], 0, map[];
      if good {
        SavedHeader(h, s, ids);
        order, first, index := LoadOrder(s.info, ids), s.nNew, IndexAmong(s.info, ids, |ids|);
      }
      var header := ReadHeader(input);
      if header.BadHeader? {
        return false;
      }
      ghost var sane := SaneStream(input);
      ok := LoadBody(header, input[6..], s, order, first, index, good, sane);
      if good {
        RestoredIsSame(h, s, order, first, Snapshot());
        RestoredKeepsInv(h, s, order, first, Snapshot());
      }
    }

    /** Everything after the header. */
    method LoadBody(header: HeaderResult, input: seq<Token>,
                    ghost s: State, ghost order: seq<int>, ghost first: nat, ghost index: map<int, int>, ghost good: bool,
                    ghost sane: bool)
      returns (ok: bool)
      requires Shape() && Snapshot() == Empty(nKey)
      requires header.GoodHeader? && (header.usable ==> header.nUBuckets == NEW_BUCKET_COUNT)
      requires sane ==> SaneBody(header, input)
      requires good ==> header == GoodHeader(s.key, s.nNew, s.nTried, NEW_BUCKET_COUNT, true) && first == s.nNew
      requires good ==> Saved(h, s, order, first) && Ahead(input, s, order, first, index, NewEntries)
      modifies this, vvNew, vvTried
      ensures ok ==> RandomOk(mapInfo, vRandom)
      ensures ok && sane ==> Inv(h, Snapshot())
      ensures good ==> ok && Complete(h, s, order, first, Snapshot()) && nLastGood == 1
    {
      assert Snapshot().info == map[] && Snapshot().addr == map[] && Snapshot().random == [] && Snapshot().lastGood == 1;
      assert Table(vvNew) == Snapshot().new_ == map[] && Table(vvTried) == Snapshot().tried == map[];
      nKey, nNew, nTried := header.key, header.nNew, header.nTried;
      if good {
        LoadingStarts(h, s, order, first, Snapshot());
      }
      ghost var total := 0;
      if sane {
        total := header.nNew + header.nTried;
        SaneStarts(h, Counted(Snapshot(), 0, 0, 0), input);
      }
      var rest;
      ok, rest := LoadNew(input, header.usable, s, order, first, index, good, total, sane);
      if !ok {
        return;
      }
      ok, rest := LoadTried(rest, s, order, first, index, good, input, total, sane);
      if !ok {
        return;
      }
      ok := LoadBuckets(rest, header.nUBuckets, header.usable, s, order, first, index, good, input, total, sane);
      if !ok {
        return;
      }
      assert sane ==> SaneBy(h, Snapshot(), input, total, Structure);
      Prune(s, order, first, good, sane);
    }

    /** An entry read from the stream becomes known under `id`. */
    method EnterEntry(id: int, x: AddrInfo)
      modifies this`mapInfo, this`mapAddr, this`vRandom
      ensures Snapshot() == Enter(old(Snapshot()), id, x)
    {
      mapAddr := mapAddr[x.service.ip := id];
      mapInfo := mapInfo[id := x.(randomPos := |vRandom|)];
      vRandom := vRandom + [id];
    }

    /** Without a usable bucket table, an entry gets the slot its source selects if it is free. */
    method PlaceBySource(id: int)
      requires Shape() && id in mapInfo && id >= 0
      modifies this`mapInfo, vvNew
      ensures id in mapInfo && mapInfo == old(mapInfo)[id := mapInfo[id]]
      ensures mapInfo[id].randomPos == old(mapInfo)[id].randomPos
      ensures var sl := h.NewSlot(nKey, old(mapInfo)[id].service, old(mapInfo)[id].source);
              Snapshot() == if sl in old(Table(vvNew)) then old(Snapshot()) else Place(old(Snapshot()), id, sl)
    {
      var b := h.newBucket(nKey, mapInfo[id].service, mapInfo[id].source);
      var p := h.position(nKey, true, b, mapInfo[id].service);
      if vvNew[b, p] == -1 {
        AddReference(b, p, id);
        assert Snapshot() == Place(old(Snapshot()), id, Slot(b, p));
      } else {
        assert Slot(b, p) in Table(vvNew);
      }
    }

    /** The entries of the new table. */
    method LoadNew(input: seq<Token>, usable: bool,
                   ghost s: State, ghost order: seq<int>, ghost first: nat, ghost index: map<int, int>, ghost good: bool,
                   ghost total: nat, ghost sane: bool)
      returns (ok: bool, rest: seq<Token>)
      requires Shape() && mapInfo == map[] && vRandom == []
      requires good ==> usable && nNew == first && Ahead(input, s, order, first, index, NewEntries)
      requires good ==> Loading(h, s, order, first, Snapshot(), Progress(0, 0, 0))
      requires sane ==> 0 <= nNew && SaneEntries(input, nNew, total) && Sane(h, Counted(Snapshot(), 0, 0, 0), input, 0)
      modifies this`mapInfo, this`mapAddr, this`vRandom, this`nIdCount, vvNew
      ensures ok ==> Numbered(mapInfo, vRandom, nNew, nIdCount) && nIdCount == nNew
      ensures ok && sane ==> rest == input[nNew..] && Sane(h, Counted(Snapshot(), nNew, 0, nNew), input, nNew)
      ensures good ==> ok && Ahead(rest, s, order, first, index, TriedEntries)
      ensures good ==> Loading(h, s, order, first, Snapshot(), Progress(first, 0, 0))
    {
      ok, rest := false, input;
      var n := 0;
      while n < nNew
        invariant 0 <= n <= |input| && (n <= nNew || n == 0)
        invariant Numbered(mapInfo, vRandom, n, n) && (n == 0 ==> mapInfo == map[])
        invariant good ==> Loading(h, s, order, first, Snapshot(), Progress(n, 0, 0))
        invariant sane ==> Sane(h, Counted(Snapshot(), n, 0, n), input, n)
      {
        if good {
          NewAhead(input, s, order, first, index, n);
          LoadNewStep(h, s, order, first, Snapshot(), n);
        }
        if n == |input| || !input[n].Entry? {
          return;
        }
        var info := Load(input[n].info);
        NumberedEnter(mapInfo, vRandom, n, n, info.(randomPos := |vRandom|));
        EnterForeign(n, info, input, nNew, total, sane);
        if !usable {
          ghost var before := mapInfo;
          PlaceForeign(n, input, sane);
          NumberedUpdate(before, vRandom, n + 1, n + 1, n, mapInfo[n]);
        }
        n := n + 1;
      }
      if good {
        NewAhead(input, s, order, first, index, n);
        LoadingIgnoresIdCount(h, s, order, first, Snapshot(), Progress(n, 0, 0), nNew);
      }
      nIdCount := nNew;
      NumberedEnds(mapInfo, vRandom, n, nNew);
      ok, rest := true, input[n..];
    }

    /** EnterEntry, for a stream that may not have been saved by Serialize. */
    method EnterForeign(n: nat, info: AddrInfo, ghost input: seq<Token>, ghost first: int, ghost total: nat, ghost sane: bool)
      requires n < |input| && input[n].Entry? && info == Load(input[n].info)
      requires sane ==> n < first && SaneEntries(input, first, total) && Sane(h, Counted(Snapshot(), n, 0, n), input, n)
      modifies this`mapInfo, this`mapAddr, this`vRandom
      ensures Snapshot() == Enter(old(Snapshot()), n, info)
      ensures sane ==> Sane(h, Counted(Snapshot(), n + 1, 0, n + 1), input, n + 1)
    {
      if sane {
        SaneEnter(h, Counted(Snapshot(), n, 0, n), input, n, first, total);
      }
      EnterEntry(n, info);
    }

    /** PlaceBySource, likewise, for an entry without references. */
    method PlaceForeign(n: nat, ghost input: seq<Token>, ghost sane: bool)
      requires Shape() && n in mapInfo && mapInfo[n].refCount == 0
      requires sane ==> Sane(h, Counted(Snapshot(), n + 1, 0, n + 1), input, n + 1)
      modifies this`mapInfo, vvNew
      ensures n in mapInfo && mapInfo == old(mapInfo)[n := mapInfo[n]]
      ensures mapInfo[n].randomPos == old(mapInfo)[n].randomPos
      ensures sane ==> Sane(h, Counted(Snapshot(), n + 1, 0, n + 1), input, n + 1)
    {
      ghost var t := Counted(Snapshot(), n + 1, 0, n + 1);
      ghost var sl := h.NewSlot(nKey, mapInfo[n].service, mapInfo[n].source);
      if sane && sl !in t.new_ {
        SanePlace(h, t, input, n + 1, n, sl);
      }
      PlaceBySource(n);
    }

    /** A tried entry takes the next id and its slot. */
    method EnterTriedEntry(kb: nat, kp: nat, x: AddrInfo)
      requires Shape() && kb < TRIED_BUCKET_COUNT && kp < BUCKET_SIZE
      requires Slot(kb, kp) == h.TriedSlot(nKey, x.service)
      modifies this`mapInfo, this`mapAddr, this`vRandom, this`nIdCount, vvTried
      ensures nIdCount == old(nIdCount) + 1
      ensures old(nIdCount) >= 0 ==> Snapshot() == AddrManStream.EnterTried(h, old(Snapshot()), x)
      ensures mapInfo == old(mapInfo)[old(nIdCount) := x.(inTried := true, randomPos := |old(vRandom)|)]
      ensures vRandom == old(vRandom) + [old(nIdCount)]
    {
      EnterEntry(nIdCount, x.(inTried := true));
      assert Snapshot() == Enter(old(Snapshot()), nIdCount, x.(inTried := true));
      assert mapInfo == Snapshot().info && vRandom == Snapshot().random;
      SetCell(vvTried, kb, kp, nIdCount);
      nIdCount := nIdCount + 1;
    }

    /** One tried entry that was read: it is entered, or lost if its slot is taken. */
    method EnterTriedOrLose(info: AddrInfo, ghost entered: int, ghost whole: seq<Token>, ghost n: int, ghost total: nat, ghost sane: bool)
      returns (lost: nat)
      requires Shape() && Numbered(mapInfo, vRandom, nNew, nIdCount) && nNew <= nIdCount
      requires sane ==> 0 <= nNew <= n < total && SaneEntries(whole, nNew, total) && info == Load(whole[n].info)
      requires sane ==> Sane(h, Counted(Snapshot(), nNew, entered, nIdCount), whole, n)
      modifies this`mapInfo, this`mapAddr, this`vRandom, this`nIdCount, vvTried
      ensures Numbered(mapInfo, vRandom, nNew, nIdCount) && nNew <= nIdCount
      ensures lost == if h.TriedSlot(nKey, info.service) in old(Table(vvTried)) then 1 else 0
      ensures lost == 0 && old(nIdCount) >= 0 ==> Snapshot() == AddrManStream.EnterTried(h, old(Snapshot()), info)
      ensures sane ==> Sane(h, Counted(Snapshot(), nNew, entered + 1 - lost, nIdCount), whole, n + 1)
    {
      lost := 0;
      var kb := h.triedBucket(nKey, info.service);
      var kp := h.position(nKey, false, kb, info.service);
      assert vvTried[kb, kp] != -1 <==> Slot(kb, kp) in Table(vvTried);
      if sane {
        TriedForeign(Counted(Snapshot(), nNew, entered, nIdCount), whole, n, nNew, total);
      }
      if vvTried[kb, kp] == -1 {
        NumberedEnter(mapInfo, vRandom, nNew, nIdCount, info.(inTried := true, randomPos := |vRandom|));
        EnterTriedEntry(kb, kp, info);
      } else {
        lost := 1;
      }
    }

    /** The same, in a saved stream the entry of id k. */
    method LoadTriedOne(info: AddrInfo, ghost s: State, ghost order: seq<int>, ghost first: nat, ghost k: nat, ghost good: bool,
                        ghost entered: int, ghost whole: seq<Token>, ghost n: int, ghost total: nat, ghost sane: bool)
      returns (lost: nat)
      requires Shape() && Numbered(mapInfo, vRandom, nNew, nIdCount) && nNew <= nIdCount
      requires good ==> first <= k < |order| && nIdCount == k && order[k] in s.info && info == Reloaded(s.info[order[k]])
      requires good ==> Loading(h, s, order, first, Snapshot(), Progress(k, 0, 0))
      requires sane ==> 0 <= nNew <= n < total && SaneEntries(whole, nNew, total) && info == Load(whole[n].info)
      requires sane ==> Sane(h, Counted(Snapshot(), nNew, entered, nIdCount), whole, n)
      modifies this`mapInfo, this`mapAddr, this`vRandom, this`nIdCount, vvTried
      ensures Numbered(mapInfo, vRandom, nNew, nIdCount) && nNew <= nIdCount
      ensures good ==> lost == 0 && nIdCount == k + 1 && Loading(h, s, order, first, Snapshot(), Progress(k + 1, 0, 0))
      ensures sane ==> Sane(h, Counted(Snapshot(), nNew, entered + 1 - lost, nIdCount), whole, n + 1)
    {
      if good {
        LoadTriedStep(h, s, order, first, Snapshot(), k);
      }
      lost := EnterTriedOrLose(info, entered, whole, n, total, sane);
    }

    /** The tried entries; one whose slot is already taken is lost. */
    method LoadTried(input: seq<Token>,
                     ghost s: State, ghost order: seq<int>, ghost first: nat, ghost index: map<int, int>, ghost good: bool,
                     ghost whole: seq<Token>, ghost total: nat, ghost sane: bool)
      returns (ok: bool, rest: seq<Token>)
      requires Shape() && Numbered(mapInfo, vRandom, nNew, nIdCount) && nIdCount == nNew
      requires good ==> nNew == first && nTried == |order| - first >= 0 && Ahead(input, s, order, first, index, TriedEntries)
      requires good ==> Loading(h, s, order, first, Snapshot(), Progress(first, 0, 0))
      requires sane ==> 0 <= nNew && 0 <= nTried && total == nNew + nTried && SaneEntries(whole, nNew, total)
      requires sane ==> input == whole[nNew..] && Sane(h, Counted(Snapshot(), nNew, 0, nNew), whole, nNew)
      modifies this`mapInfo, this`mapAddr, this`vRandom, this`nIdCount, this`nTried, vvTried
      ensures ok ==> Numbered(mapInfo, vRandom, nNew, nIdCount)
      ensures ok && sane ==> Sane(h, Snapshot(), whole, total)
      ensures good ==> ok && Ahead(rest, s, order, first, index, Buckets) && nIdCount == |order|
      ensures good ==> Loading(h, s, order, first, Snapshot(), Progress(|order|, 0, 0))
    {
      ok, rest := false, input;
      var n, nLost := 0, 0;
      while n < nTried
        invariant 0 <= n <= |input| && (n <= nTried || n == 0) && nTried == old(nTried)
        invariant nNew <= nIdCount && Numbered(mapInfo, vRandom, nNew, nIdCount)
        invariant good ==> nLost == 0 && nIdCount == first + n <= |order|
        invariant good ==> Loading(h, s, order, first, Snapshot(), Progress(first + n, 0, 0))
        invariant sane ==> Sane(h, Counted(Snapshot(), nNew, n - nLost, nIdCount), whole, nNew + n)
      {
        if good {
          TriedAhead(input, s, order, first, index, n);
        }
        if n == |input| || !input[n].Entry? {
          return;
        }
        var info := Load(input[n].info);
        var lost := LoadTriedOne(info, s, order, first, first + n, good, n - nLost, whole, nNew + n, total, sane);
        nLost := nLost + lost;
        n := n + 1;
      }
      if good {
        TriedAhead(input, s, order, first, index, n);
      }
      nTried := nTried - nLost;
      ok, rest := true, input[n..];
    }

    /** The next tried entry of a stream is entered or lost. */
    lemma TriedForeign(t: State, whole: seq<Token>, n: nat, first: nat, total: nat)
      requires Sane(h, t, whole, n) && SaneEntries(whole, first, total) && first <= n < total && t.nNew <= t.idCount
      ensures if h.TriedSlot(t.key, whole[n].info.service) in t.tried then Sane(h, t, whole, n + 1)
              else Sane(h, AddrManStream.EnterTried(h, t, Load(whole[n].info)).(nTried := t.nTried + 1), whole, n + 1)
    {
      if h.TriedSlot(t.key, whole[n].info.service) in t.tried {
        SaneLose(h, t, whole, n);
      } else {
        SaneEnterTried(h, t, whole, n, first, total);
      }
    }

    /** One stored index: a reference, if the table is usable, the slot free and the entry has room. */
    method LoadSlot(bucket: nat, nIndex: int, usable: bool)
      requires Shape() && 0 <= nIndex && nIndex in mapInfo && (usable ==> bucket < NEW_BUCKET_COUNT)
      modifies this`mapInfo, vvNew
      ensures nIndex in mapInfo && mapInfo == old(mapInfo)[nIndex := mapInfo[nIndex]]
      ensures mapInfo[nIndex].randomPos == old(mapInfo[nIndex].randomPos)
      ensures var sl := h.NewSlotIn(nKey, bucket, old(mapInfo)[nIndex].service);
              Snapshot() ==
              if usable && sl !in old(Table(vvNew)) && old(mapInfo)[nIndex].refCount < NEW_BUCKETS_PER_ADDRESS
              then Place(old(Snapshot()), nIndex, sl) else old(Snapshot())
    {
      var up := h.position(nKey, true, bucket, mapInfo[nIndex].service);
      if usable && vvNew[bucket, up] == -1 && mapInfo[nIndex].refCount < NEW_BUCKETS_PER_ADDRESS {
        AddReference(bucket, up, nIndex);
        assert Snapshot() == Place(old(Snapshot()), nIndex, Slot(bucket, up));
        assert mapInfo == Snapshot().info;
      } else {
        assert usable && vvNew[bucket, up] != -1 ==> Slot(bucket, up) in Table(vvNew);
      }
    }

    /** The stored indices of one bucket. */
    method LoadBucket(bucket: nat, nSize: int, input: seq<Token>, usable: bool,
                      ghost s: State, ghost order: seq<int>, ghost first: nat, ghost index: map<int, int>, ghost good: bool,
                      ghost whole: seq<Token>, ghost total: nat, ghost sane: bool)
      returns (ok: bool, rest: seq<Token>)
      requires Shape() && Numbered(mapInfo, vRandom, nNew, nIdCount) && (usable ==> bucket < NEW_BUCKET_COUNT)
      requires good ==> usable && nNew == first && InBucket(input, nSize, s, order, first, index, bucket, 0, 0)
      requires good ==> Loading(h, s, order, first, Snapshot(), Progress(|order|, bucket, 0))
      requires sane ==> Sane(h, Snapshot(), whole, total)
      modifies this`mapInfo, vvNew
      ensures ok ==> Numbered(mapInfo, vRandom, nNew, nIdCount)
      ensures sane ==> Sane(h, Snapshot(), whole, total)
      ensures good ==> ok && BucketsAhead(rest, s, order, first, index, bucket + 1)
      ensures good ==> Loading(h, s, order, first, Snapshot(), Progress(|order|, bucket + 1, 0))
    {
      ok, rest := false, input;
      ghost var p := 0;
      var n := 0;
      while n < nSize
        invariant 0 <= n <= |input| && (n <= nSize || n == 0) && 0 <= p
        invariant Numbered(mapInfo, vRandom, nNew, nIdCount)
        invariant good ==> InBucket(input, nSize, s, order, first, index, bucket, p, n)
        invariant good ==> Loading(h, s, order, first, Snapshot(), Progress(|order|, bucket, p))
        invariant sane ==> Sane(h, Snapshot(), whole, total)
      {
        ghost var q := 0;
        if good {
          q := NextStored(h, s, order, first, index, Snapshot(), bucket, p, n, input, nSize);
        }
        if n == |input| || !input[n].Number? {
          return;
        }
        var nIndex := input[n].n;
        if 0 <= nIndex < nNew {
          assert nIndex in mapInfo by { NumberedParts(mapInfo, vRandom, nNew, nIdCount); }
          ghost var before := mapInfo;
          if sane {
            SlotForeign(Snapshot(), whole, total, nIndex, bucket, usable);
          }
          LoadSlot(bucket, nIndex, usable);
          NumberedUpdate(before, vRandom, nNew, nIdCount, nIndex, mapInfo[nIndex]);
        }
        n := n + 1;
        p := if good then q + 1 else 0;
      }
      if good {
        LeaveBucket(h, s, order, first, index, Snapshot(), bucket, p, n, input, nSize);
      }
      ok, rest := true, input[n..];
    }

    /** A stored index of a stream that may not have been saved by Serialize. */
    lemma SlotForeign(t: State, whole: seq<Token>, total: nat, id: int, bucket: nat, usable: bool)
      requires Sane(h, t, whole, total) && id in t.info && id < t.nNew && (usable ==> bucket < NEW_BUCKET_COUNT)
      ensures var sl := h.NewSlotIn(t.key, bucket, t.info[id].service);
              usable && sl !in t.new_ && t.info[id].refCount < NEW_BUCKETS_PER_ADDRESS ==> Sane(h, Place(t, id, sl), whole, total)
    {
      var sl := h.NewSlotIn(t.key, bucket, t.info[id].service);
      if usable && sl !in t.new_ && t.info[id].refCount < NEW_BUCKETS_PER_ADDRESS {
        SanePlace(h, t, whole, total, id, sl);
      }
    }

    method LoadBuckets(input: seq<Token>, nUBuckets: int, usable: bool,
                       ghost s: State, ghost order: seq<int>, ghost first: nat, ghost index: map<int, int>, ghost good: bool,
                       ghost whole: seq<Token>, ghost total: nat, ghost sane: bool)
      returns (ok: bool)
      requires Shape() && Numbered(mapInfo, vRandom, nNew, nIdCount) && (usable ==> nUBuckets == NEW_BUCKET_COUNT)
      requires good ==> usable && nNew == first && Ahead(input, s, order, first, index, Buckets)
      requires good ==> Loading(h, s, order, first, Snapshot(), Progress(|order|, 0, 0))
      requires sane ==> Sane(h, Snapshot(), whole, total)
      modifies this`mapInfo, vvNew
      ensures ok ==> Numbered(mapInfo, vRandom, nNew, nIdCount)
      ensures sane ==> Sane(h, Snapshot(), whole, total)
      ensures good ==> ok && Loading(h, s, order, first, Snapshot(), Progress(|order|, NEW_BUCKET_COUNT, 0))
    {
      ok := false;
      var rest := input;
      if good {
        FirstBucket(input, s, order, first, index);
      }
      var bucket := 0;
      while bucket < nUBuckets
        invariant 0 <= bucket && (bucket <= nUBuckets || bucket == 0) && Numbered(mapInfo, vRandom, nNew, nIdCount)
        invariant good ==> BucketsAhead(rest, s, order, first, index, bucket)
        invariant good ==> Loading(h, s, order, first, Snapshot(), Progress(|order|, bucket, 0))
        invariant sane ==> Sane(h, Snapshot(), whole, total)
      {
        if good {
          EnterBucket(rest, s, order, first, index, bucket);
        }
        if rest == [] || !rest[0].Number? {
          return;
        }
        var read;
        read, rest := LoadBucket(bucket, rest[0].n, rest[1..], usable, s, order, first, index, good, whole, total, sane);
        if !read {
          return;
        }
        bucket := bucket + 1;
      }
      ok := true;
    }

    /** Drop the entries that found no place, walking the ids upwards. */
    method Prune(ghost s: State, ghost order: seq<int>, ghost first: nat, ghost good: bool, ghost sane: bool)
      requires Numbered(mapInfo, vRandom, nNew, nIdCount)
      requires sane ==> Core(h, Snapshot(), Snapshot().info.Keys)
      requires good ==> nNew == first && Complete(h, s, order, first, Snapshot())
      modifies this`mapInfo, this`mapAddr, this`vRandom, this`nNew
      ensures RandomOk(mapInfo, vRandom)
      ensures sane ==> Inv(h, Snapshot())
      ensures good ==> Snapshot() == old(Snapshot())
    {
      NumberedParts(mapInfo, vRandom, nNew, nIdCount);
      var id := if nNew < 0 then nNew else 0;
      assert sane ==> Holds(h, Snapshot(), Snapshot().info.Keys, Entries);
      while id < nIdCount
        invariant RandomOk(mapInfo, vRandom)
        invariant good ==> Snapshot() == old(Snapshot()) && id >= 0
        invariant sane ==> Core(h, Snapshot(), Snapshot().info.Keys) && PlacedBelow(mapInfo, id)
      {
        if id in mapInfo && !mapInfo[id].inTried && mapInfo[id].refCount == 0 {
          if good {
            RestoredEntry(h, s, order, first, Snapshot(), id);
          }
          DeleteKeepsRandom(Snapshot(), id);
          if sane {
            PruneForeign(Snapshot(), id);
          }
          Delete(id);
        }
        id := id + 1;
      }
      if sane {
        assert Holds(h, Snapshot(), Snapshot().info.Keys, Entries);
        NothingPending(h, Snapshot());
      }
    }

    lemma PruneForeign(t: State, id: int)
      requires Core(h, t, t.info.Keys) && id in t.info && !t.info[id].inTried && t.info[id].refCount == 0
      requires PlacedBelow(t.info, id)
      ensures RandomOk(t.info, t.random) && Core(h, AddrManState.Delete(t, id), AddrManState.Delete(t, id).info.Keys)
      ensures PlacedBelow(AddrManState.Delete(t, id).info, id + 1)
    {
      DeleteKeepsLoose(h, t, id);
      var u := AddrManState.Delete(t, id);
      assert u.info.Keys == t.info.Keys - {id} by { DeleteKeepsCore(h, t, id, t.info.Keys); }
      forall k | k in u.info && k < id + 1 && !u.info[k].inTried ensures u.info[k].refCount != 0 {
        Ops.DeleteLeavesOthers(t, id, k);
      }
    }
  }

  /** The entries below an id that are not tried have a place. */
  ghost predicate PlacedBelow(info: map<int, AddrInfo>, id: int) {
    forall k :: k in info && k < id && !info[k].inTried ==> info[k].refCount != 0
  }

  function Rotate(n: nat, draw: nat): (b: nat)
    ensures b < NEW_BUCKET_COUNT
  {
    (n + draw) % NEW_BUCKET_COUNT
  }

  lemma RotateReaches(b: nat, draw: nat) returns (n: nat)
    requires b < NEW_BUCKET_COUNT && draw < NEW_BUCKET_COUNT
    ensures n < NEW_BUCKET_COUNT && Rotate(n, draw) == b
  {
    n := if b >= draw then b - draw else b - draw + NEW_BUCKET_COUNT;
  }

  ghost predicate OccupantIsNew(info: map<int, AddrInfo>, table: map<Slot, int>, sl: Slot) {
    sl in table ==> table[sl] in info && !info[table[sl]].inTried
  }

  /** A table without the slots of `id` in the buckets below `bucket`. */
  ghost function WithoutBelow(table: map<Slot, int>, id: int, bucket: int): map<Slot, int> {
    map sl | sl in table && !(table[sl] == id && sl.bucket < bucket) :: table[sl]
  }

  ghost function Counting(info: map<int, AddrInfo>, id: int, count: int): map<int, AddrInfo>
    requires id in info
  {
    info[id := info[id].(refCount := count)]
  }

  lemma WithoutNone(s: State, id: int)
    requires id in s.info
    ensures WithoutBelow(s.new_, id, 0) == s.new_ && Counting(s.info, id, s.info[id].refCount) == s.info
  {
  }

  /** Visiting one bucket at the position the entry hashes to removes all its slots there. */
  lemma WithoutNext(h: Hasher, s: State, id: int, bucket: nat)
    requires NewOk(h, s.key, s.info, s.new_) && id in s.info
    ensures var sl := h.NewSlotIn(s.key, bucket, s.info[id].service);
            var now := WithoutBelow(s.new_, id, bucket);
            WithoutBelow(s.new_, id, bucket + 1) ==
            if sl in now && now[sl] == id then now - {sl} else now
  {
  }

  lemma WithoutAll(h: Hasher, s: State, id: int)
    requires NewOk(h, s.key, s.info, s.new_) && id in s.info
    ensures WithoutBelow(s.new_, id, NEW_BUCKET_COUNT) == Unplace(s, id).new_
    ensures Refs(WithoutBelow(s.new_, id, NEW_BUCKET_COUNT), id) == {}
  {
  }

  lemma DeleteKeepsRandom(s: State, id: int)
    requires RandomOk(s.info, s.random) && id in s.info
    ensures RandomOk(AddrManState.Delete(s, id).info, AddrManState.Delete(s, id).random)
  {
    SwappedToEnd(s, id);
    DropLastKeepsRandom(AddrManState.SwapRandom(s, s.info[id].randomPos, |s.random| - 1), id);
  }

  lemma DropLastKeepsRandom(t: State, id: int)
    requires RandomOk(t.info, t.random) && |t.random| > 0 && t.random[|t.random| - 1] == id
    ensures id in t.info && RandomOk(DropLast(t, id).info, DropLast(t, id).random)
  {
    DropKeepsRandom(t.info, t.random, id);
  }

  lemma SwapKeepsRandom(s: State, i: nat, j: nat)
    requires RandomOk(s.info, s.random) && i < |s.random| && j < |s.random|
    ensures RandomOk(AddrManState.SwapRandom(s, i, j).info, AddrManState.SwapRandom(s, i, j).random)
  {
    SwapRepositions(s, i, j);
  }

  lemma SwappedToEnd(s: State, id: int)
    requires RandomOk(s.info, s.random) && id in s.info
    ensures var t := AddrManState.SwapRandom(s, s.info[id].randomPos, |s.random| - 1);
            RandomOk(t.info, t.random) && |t.random| > 0 && t.random[|t.random| - 1] == id
  {
    SwapKeepsRandom(s, s.info[id].randomPos, |s.random| - 1);
  }

  lemma TableTokensStep(before: seq<Token>, table: map<Slot, int>, index: map<int, int>, b: nat)
    requires (forall sl :: sl in table ==> table[sl] in index) && b < NEW_BUCKET_COUNT
    ensures var t := BucketTokens(table, index, b, BUCKET_SIZE);
            before + [Number(|t|)] + t + TableTokens(table, index, b + 1) == before + TableTokens(table, index, b)
  {
  }
}
