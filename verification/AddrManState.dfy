/**
 The value-level meaning of the address manager (src/addrman.h, src/addrman.cpp).

 A `State` is a snapshot of every field of CAddrMan: the id map, the address map,
 the random vector, the two bucket tables (as maps from occupied slots to ids) and
 the counters.  Each operation is a function from snapshots to snapshots, and
 `Inv` is the consistency condition the manager checks in `Check_`.
 The class in AddrMan.dfy performs the same operations in place.
 */
module AddrManState {

  const TRIED_BUCKET_COUNT: nat := 256
  const NEW_BUCKET_COUNT: nat := 1024
  const BUCKET_SIZE: nat := 64
  const NEW_BUCKETS_PER_ADDRESS: nat := 8
  const HORIZON_DAYS: nat := 30
  const RETRIES: nat := 3
  const MAX_FAILURES: nat := 10
  const MIN_FAIL_DAYS: nat := 7
  const SECONDS_PER_DAY: nat := 24 * 60 * 60

  type Uint32 = x: int | 0 <= x < 0x1_0000_0000

  /** CNetAddr: the 16 bytes of an address, read as one number. */
  type NetAddr = nat

  /** CService: an address with a port; only this is compared by `info != addr`. */
  datatype Service = Service(ip: NetAddr, port: nat)

  /** CAddress: a service with its service bits and last-seen time. */
  datatype Address = Address(service: Service, services: bv64, time: Uint32)

  /** The part of CAddrInfo that says what is known about an address. */
  datatype Stats = Stats(
    services: bv64, time: Uint32,
    lastTry: int, lastCountAttempt: int, lastSuccess: int, attempts: int)
  {
    /** Whether the statistics are bad enough for the entry to be overwritten. */
    predicate IsTerrible(now: int) {
      if lastTry != 0 && lastTry >= now - 60 then false
      else if time > now + 10 * 60 then true
      else if time == 0 || now - time > HORIZON_DAYS * SECONDS_PER_DAY then true
      else if lastSuccess == 0 && attempts >= RETRIES then true
      else now - lastSuccess > MIN_FAIL_DAYS * SECONDS_PER_DAY && attempts >= MAX_FAILURES
    }
  }

  /** CAddrInfo: an address, its statistics, and its places in the manager. */
  datatype AddrInfo = AddrInfo(
    service: Service, source: NetAddr, stats: Stats,
    refCount: int, inTried: bool, randomPos: int)

  /** CAddrInfo(address, source): a fresh entry, in no bucket. */
  function FreshInfo(address: Address, source: NetAddr): AddrInfo {
    AddrInfo(address.service, source, Stats(address.services, address.time, 0, 0, 0, 0), 0, false, -1)
  }

  /** One position of one bucket of a table. */
  datatype Slot = Slot(bucket: nat, pos: nat)

  type TriedBucketIndex = b: nat | b < TRIED_BUCKET_COUNT
  type NewBucketIndex = b: nat | b < NEW_BUCKET_COUNT
  type PositionIndex = p: nat | p < BUCKET_SIZE

  /**
   Bucket placement: GetTriedBucket, GetNewBucket and GetBucketPosition as arbitrary
   functions of the key and of what they hash, with results in range.  Nothing below
   depends on what they compute.  `routable` is the test Add_ applies first.
   */
  datatype Hasher = Hasher(
    triedBucket: (nat, Service) -> TriedBucketIndex,
    newBucket: (nat, Service, NetAddr) -> NewBucketIndex,
    position: (nat, bool, nat, Service) -> PositionIndex,
    routable: NetAddr -> bool)
  {
    function TriedSlot(key: nat, service: Service): Slot {
      var b := triedBucket(key, service);
      Slot(b, position(key, false, b, service))
    }

    /** Where a service lands in a given bucket of the new table. */
    function NewSlotIn(key: nat, bucket: nat, service: Service): Slot {
      Slot(bucket, position(key, true, bucket, service))
    }

    function NewSlot(key: nat, service: Service, source: NetAddr): Slot {
      NewSlotIn(key, newBucket(key, service, source), service)
    }
  }

  datatype State = State(
    key: nat,
    idCount: int,
    info: map<int, AddrInfo>,
    addr: map<NetAddr, int>,
    random: seq<int>,
    nTried: int,
    tried: map<Slot, int>,
    nNew: int,
    new_: map<Slot, int>,
    lastGood: int)

  /** CAddrMan(): nothing known; lastGood starts at 1 so that "never" is strictly worse. */
  function Empty(key: nat): State {
    State(key, 0, map[], map[], [], 0, map[], 0, map[], 1)
  }

  // ---------------------------------------------------------------------------
  // The consistency condition of Check_, one redundancy at a time.

  /** The random vector lists exactly the known ids, each at its recorded position. */
  ghost predicate RandomOk(info: map<int, AddrInfo>, random: seq<int>) {
    && (forall n :: n in info ==> 0 <= info[n].randomPos < |random| && random[info[n].randomPos] == n)
    && (forall i :: 0 <= i < |random| ==> random[i] in info && info[random[i]].randomPos == i)
  }

  /** The address map is the inverse of the id map. */
  ghost predicate AddrOk(info: map<int, AddrInfo>, addr: map<NetAddr, int>) {
    && (forall n :: n in info ==> info[n].service.ip in addr && addr[info[n].service.ip] == n)
    && (forall a :: a in addr ==> addr[a] in info && info[addr[a]].service.ip == a)
  }

  /** The slots of a table that hold an id. */
  ghost function Refs(table: map<Slot, int>, n: int): set<Slot> {
    set sl | sl in table && table[sl] == n
  }

  /** Reference counts are slot counts; only ids in `pending` may be in no table. */
  ghost predicate RefsOk(info: map<int, AddrInfo>, table: map<Slot, int>, pending: set<int>) {
    forall n :: n in info ==>
      && info[n].refCount == |Refs(table, n)|
      && info[n].refCount <= NEW_BUCKETS_PER_ADDRESS
      && (info[n].inTried ==> info[n].refCount == 0)
      && (!info[n].inTried && n !in pending ==> info[n].refCount >= 1)
  }

  /** Every occupied new slot is the one its entry hashes to in that bucket. */
  ghost predicate NewOk(h: Hasher, key: nat, info: map<int, AddrInfo>, table: map<Slot, int>) {
    forall sl :: sl in table ==>
      && table[sl] in info
      && !info[table[sl]].inTried
      && sl.bucket < NEW_BUCKET_COUNT
      && sl == h.NewSlotIn(key, sl.bucket, info[table[sl]].service)
  }

  /** Tried entries and occupied tried slots correspond one to one. */
  ghost predicate TriedOk(h: Hasher, key: nat, info: map<int, AddrInfo>, tried: map<Slot, int>) {
    && (forall sl :: sl in tried ==>
          && tried[sl] in info
          && info[tried[sl]].inTried
          && sl == h.TriedSlot(key, info[tried[sl]].service))
    && (forall n :: n in info && info[n].inTried ==>
          && h.TriedSlot(key, info[n].service) in tried
          && tried[h.TriedSlot(key, info[n].service)] == n)
  }

  ghost function TriedIds(info: map<int, AddrInfo>): set<int> {
    set n | n in info && info[n].inTried
  }

  ghost predicate CountsOk(s: State) {
    && s.nTried == |TriedIds(s.info)|
    && s.nNew == |s.info| - |TriedIds(s.info)|
    && |s.random| == |s.info|
  }

  /** Times are non-negative, a tried entry has succeeded once, ids are below the id counter. */
  ghost predicate EntriesOk(info: map<int, AddrInfo>, idCount: int) {
    && 0 <= idCount
    && forall n :: n in info ==>
         && 0 <= n < idCount
         && 0 <= info[n].stats.lastTry
         && 0 <= info[n].stats.lastSuccess
         && (info[n].inTried ==> info[n].stats.lastSuccess > 0)
  }

  /** The conditions, named, so that a proof can use one without the others. */
  datatype Condition = Key | RandomVector | AddressMap | RefCounts | NewTable | TriedTable | Counters | Entries

  ghost predicate Holds(h: Hasher, s: State, pending: set<int>, c: Condition) {
    match c
    case Key => s.key != 0
    case RandomVector => RandomOk(s.info, s.random)
    case AddressMap => AddrOk(s.info, s.addr)
    case RefCounts => RefsOk(s.info, s.new_, pending)
    case NewTable => NewOk(h, s.key, s.info, s.new_)
    case TriedTable => TriedOk(h, s.key, s.info, s.tried)
    case Counters => CountsOk(s)
    case Entries => EntriesOk(s.info, s.idCount)
  }

  /** All conditions of Check_, where ids in `pending` may lack a place in the new table. */
  ghost predicate Core(h: Hasher, s: State, pending: set<int>) {
    forall c :: Holds(h, s, pending, c)
  }

  ghost predicate Inv(h: Hasher, s: State) {
    Core(h, s, {})
  }

  lemma CoreParts(h: Hasher, s: State, pending: set<int>)
    requires Core(h, s, pending)
    ensures s.key != 0
    ensures RandomOk(s.info, s.random)
    ensures AddrOk(s.info, s.addr)
    ensures RefsOk(s.info, s.new_, pending)
    ensures NewOk(h, s.key, s.info, s.new_)
    ensures TriedOk(h, s.key, s.info, s.tried)
    ensures CountsOk(s)
    ensures EntriesOk(s.info, s.idCount)
  {
    assert Holds(h, s, pending, Key) && Holds(h, s, pending, RandomVector) && Holds(h, s, pending, AddressMap);
    assert Holds(h, s, pending, RefCounts) && Holds(h, s, pending, NewTable) && Holds(h, s, pending, TriedTable);
    assert Holds(h, s, pending, Counters) && Holds(h, s, pending, Entries);
  }

  // ---------------------------------------------------------------------------
  // The operations.

  /** Create followed by the caller's nNew++: a new id, in no bucket yet. */
  function Create(s: State, address: Address, source: NetAddr): State {
    s.(idCount := s.idCount + 1,
       info := s.info[s.idCount := FreshInfo(address, source).(randomPos := |s.random|)],
       addr := s.addr[address.service.ip := s.idCount],
       random := s.random + [s.idCount],
       nNew := s.nNew + 1)
  }

  function SwapRandom(s: State, i: nat, j: nat): State
    requires i < |s.random| && s.random[i] in s.info
    requires j < |s.random| && s.random[j] in s.info
  {
    if i == j then s
    else
      var id1, id2 := s.random[i], s.random[j];
      var info1 := s.info[id1 := s.info[id1].(randomPos := j)];
      s.(info := info1[id2 := info1[id2].(randomPos := i)],
         random := s.random[i := id2][j := id1])
  }

  /** The second half of Delete: the id already sits at the end of the random vector. */
  function DropLast(s: State, id: int): State
    requires |s.random| > 0 && id in s.info
  {
    s.(random := s.random[..|s.random| - 1],
       addr := s.addr - {s.info[id].service.ip},
       info := s.info - {id},
       nNew := s.nNew - 1)
  }

  function Delete(s: State, id: int): State
    requires RandomOk(s.info, s.random) && id in s.info
  {
    DropLast(SwapRandom(s, s.info[id].randomPos, |s.random| - 1), id)
  }

  /** The first half of ClearNew: the slot is emptied and the reference uncounted. */
  function Unref(s: State, sl: Slot): State
    requires sl in s.new_ && s.new_[sl] in s.info
  {
    var id := s.new_[sl];
    s.(info := s.info[id := s.info[id].(refCount := s.info[id].refCount - 1)],
       new_ := s.new_ - {sl})
  }

  /** Empty a new slot; its entry loses a reference and, with the last one, its place. */
  function ClearNew(s: State, sl: Slot): State
    requires RandomOk(s.info, s.random)
    requires sl in s.new_ ==> s.new_[sl] in s.info
  {
    if sl !in s.new_ then s
    else
      var id := s.new_[sl];
      var t := Unref(s, sl);
      if t.info[id].refCount == 0 then Delete(t, id) else t
  }

  /** Enter `id` into an empty slot of the new table. */
  function Place(s: State, id: int, sl: Slot): State
    requires id in s.info
  {
    s.(info := s.info[id := s.info[id].(refCount := s.info[id].refCount + 1)],
       new_ := s.new_[sl := id])
  }

  /** Take `id` out of every new bucket. */
  function Unplace(s: State, id: int): State
    requires id in s.info
  {
    s.(info := s.info[id := s.info[id].(refCount := 0)],
       new_ := map sl | sl in s.new_ && s.new_[sl] != id :: s.new_[sl])
  }

  /** Take the occupant of a tried slot out of the tried table. */
  function Untry(s: State, sl: Slot): State
    requires sl in s.tried && s.tried[sl] in s.info
  {
    var id := s.tried[sl];
    s.(info := s.info[id := s.info[id].(inTried := false)],
       tried := s.tried - {sl},
       nTried := s.nTried - 1,
       nNew := s.nNew + 1)
  }

  function Try(s: State, id: int, sl: Slot): State
    requires id in s.info
  {
    s.(info := s.info[id := s.info[id].(inTried := true)],
       tried := s.tried[sl := id],
       nTried := s.nTried + 1,
       nNew := s.nNew - 1)
  }

  // ---------------------------------------------------------------------------
  // How each building block acts on the redundant structures.

  lemma RefsAfterRemoval(table: map<Slot, int>, sl: Slot, n: int)
    requires sl in table
    ensures Refs(table - {sl}, n) == if table[sl] == n then Refs(table, n) - {sl} else Refs(table, n)
    ensures table[sl] == n ==> |Refs(table - {sl}, n)| == |Refs(table, n)| - 1
  {
  }

  lemma RefsAfterInsertion(table: map<Slot, int>, sl: Slot, id: int, n: int)
    requires sl !in table
    ensures Refs(table[sl := id], n) == if id == n then Refs(table, n) + {sl} else Refs(table, n)
    ensures id == n ==> |Refs(table[sl := id], n)| == |Refs(table, n)| + 1
  {
    assert Refs(table[sl := id], n) == if id == n then Refs(table, n) + {sl} else Refs(table, n);
  }

  /** Replacing the entry of a known id moves at most that id in or out of the tried set. */
  lemma TriedIdsAfterUpdate(info: map<int, AddrInfo>, id: int, x: AddrInfo)
    requires id in info
    ensures info[id := x].Keys == info.Keys && |info[id := x]| == |info|
    ensures TriedIds(info[id := x]) == if x.inTried then TriedIds(info) + {id} else TriedIds(info) - {id}
    ensures x.inTried == info[id].inTried ==> TriedIds(info[id := x]) == TriedIds(info)
  {
    assert info[id := x].Keys == info.Keys;
    assert |info[id := x].Keys| == |info[id := x]|;
    assert |info.Keys| == |info|;
  }

  // Replacing one entry without touching what a structure depends on.

  lemma UpdateKeepsRandom(info: map<int, AddrInfo>, random: seq<int>, id: int, x: AddrInfo)
    requires RandomOk(info, random) && id in info && x.randomPos == info[id].randomPos
    ensures RandomOk(info[id := x], random)
  {
  }

  lemma UpdateKeepsAddr(info: map<int, AddrInfo>, addr: map<NetAddr, int>, id: int, x: AddrInfo)
    requires AddrOk(info, addr) && id in info && x.service.ip == info[id].service.ip
    ensures AddrOk(info[id := x], addr)
  {
  }

  lemma UpdateKeepsNew(h: Hasher, key: nat, info: map<int, AddrInfo>, table: map<Slot, int>, id: int, x: AddrInfo)
    requires NewOk(h, key, info, table) && id in info && x.service == info[id].service
    requires x.inTried ==> Refs(table, id) == {}
    ensures NewOk(h, key, info[id := x], table)
  {
    forall sl | sl in table ensures table[sl] == id ==> !x.inTried {
      assert table[sl] == id ==> sl in Refs(table, id);
    }
  }

  lemma UpdateKeepsTried(h: Hasher, key: nat, info: map<int, AddrInfo>, tried: map<Slot, int>, id: int, x: AddrInfo)
    requires TriedOk(h, key, info, tried) && id in info
    requires x.service == info[id].service && x.inTried == info[id].inTried
    ensures TriedOk(h, key, info[id := x], tried)
  {
  }

  /** Replacing an entry by one with the same place in every structure. */
  lemma UpdateKeepsCore(h: Hasher, s: State, id: int, x: AddrInfo, pending: set<int>)
    requires Core(h, s, pending) && id in s.info
    requires x.service == s.info[id].service && x.inTried == s.info[id].inTried
    requires x.refCount == s.info[id].refCount && x.randomPos == s.info[id].randomPos
    requires 0 <= x.stats.lastTry && 0 <= x.stats.lastSuccess && (x.inTried ==> x.stats.lastSuccess > 0)
    ensures Core(h, s.(info := s.info[id := x]), pending)
  {
    CoreParts(h, s, pending);
    UpdateKeepsRandom(s.info, s.random, id, x);
    UpdateKeepsAddr(s.info, s.addr, id, x);
    UpdateKeepsNew(h, s.key, s.info, s.new_, id, x);
    UpdateKeepsTried(h, s.key, s.info, s.tried, id, x);
    TriedIdsAfterUpdate(s.info, id, x);
  }

  // Create.

  lemma CreateKeepsRandom(info: map<int, AddrInfo>, random: seq<int>, id: int, x: AddrInfo)
    requires RandomOk(info, random) && id !in info && x.randomPos == |random|
    ensures RandomOk(info[id := x], random + [id])
  {
  }

  lemma CreateKeepsAddr(info: map<int, AddrInfo>, addr: map<NetAddr, int>, id: int, x: AddrInfo)
    requires AddrOk(info, addr) && id !in info && x.service.ip !in addr
    ensures AddrOk(info[id := x], addr[x.service.ip := id])
  {
  }

  lemma CreateKeepsRefs(info: map<int, AddrInfo>, table: map<Slot, int>, id: int, x: AddrInfo)
    requires RefsOk(info, table, {}) && id !in info && x.refCount == 0 && !x.inTried
    requires forall sl :: sl in table ==> table[sl] in info
    ensures RefsOk(info[id := x], table, {id})
  {
    assert Refs(table, id) == {};
  }

  lemma CreateKeepsTried(h: Hasher, key: nat, info: map<int, AddrInfo>, tried: map<Slot, int>, id: int, x: AddrInfo)
    requires TriedOk(h, key, info, tried) && id !in info && !x.inTried
    ensures TriedOk(h, key, info[id := x], tried)
  {
  }

  lemma CreateKeepsCounts(info: map<int, AddrInfo>, id: int, x: AddrInfo)
    requires id !in info && !x.inTried
    ensures |info[id := x]| == |info| + 1 && TriedIds(info[id := x]) == TriedIds(info)
  {
    assert info[id := x].Keys == info.Keys + {id};
    assert |info[id := x].Keys| == |info[id := x]|;
    assert |info.Keys| == |info|;
  }

  lemma CreateKeepsCore(h: Hasher, s: State, address: Address, source: NetAddr)
    requires Inv(h, s) && address.service.ip !in s.addr
    ensures Core(h, Create(s, address, source), {s.idCount})
  {
    var x := FreshInfo(address, source).(randomPos := |s.random|);
    CoreParts(h, s, {});
    CreateKeepsRandom(s.info, s.random, s.idCount, x);
    CreateKeepsAddr(s.info, s.addr, s.idCount, x);
    CreateKeepsRefs(s.info, s.new_, s.idCount, x);
    CreateKeepsTried(h, s.key, s.info, s.tried, s.idCount, x);
    CreateKeepsCounts(s.info, s.idCount, x);
  }

  // SwapRandom: entries keep everything but their random position.

  predicate SameButPosition(x: AddrInfo, y: AddrInfo) {
    y == x.(randomPos := y.randomPos)
  }

  ghost predicate Repositioned(info: map<int, AddrInfo>, info': map<int, AddrInfo>) {
    && info'.Keys == info.Keys
    && (forall n :: n in info ==> SameButPosition(info[n], info'[n]))
  }

  lemma RepositionedAt(info: map<int, AddrInfo>, info': map<int, AddrInfo>, n: int)
    requires Repositioned(info, info') && n in info
    ensures n in info' && SameButPosition(info[n], info'[n])
  {
  }

  lemma SwapRepositions(s: State, i: nat, j: nat)
    requires RandomOk(s.info, s.random) && i < |s.random| && j < |s.random|
    ensures RandomOk(SwapRandom(s, i, j).info, SwapRandom(s, i, j).random)
    ensures Repositioned(s.info, SwapRandom(s, i, j).info)
    ensures SwapRandom(s, i, j).random == s.random[i := s.random[j]][j := s.random[i]]
  {
    var t := SwapRandom(s, i, j);
    if i != j {
      var id1, id2 := s.random[i], s.random[j];
      assert id1 != id2;
      assert t.info.Keys == s.info.Keys;
    }
  }

  lemma RepositionKeepsNew(h: Hasher, key: nat, info: map<int, AddrInfo>, info': map<int, AddrInfo>, table: map<Slot, int>)
    requires Repositioned(info, info') && NewOk(h, key, info, table)
    ensures NewOk(h, key, info', table)
  {
    forall sl | sl in table ensures table[sl] in info' && SameButPosition(info[table[sl]], info'[table[sl]]) {
      RepositionedAt(info, info', table[sl]);
    }
  }

  lemma RepositionKeepsTried(h: Hasher, key: nat, info: map<int, AddrInfo>, info': map<int, AddrInfo>, tried: map<Slot, int>)
    requires Repositioned(info, info') && TriedOk(h, key, info, tried)
    ensures TriedOk(h, key, info', tried)
  {
    forall sl | sl in tried ensures tried[sl] in info' && SameButPosition(info[tried[sl]], info'[tried[sl]]) {
      RepositionedAt(info, info', tried[sl]);
    }
  }

  lemma RepositionKeepsRest(info: map<int, AddrInfo>, info': map<int, AddrInfo>,
                            addr: map<NetAddr, int>, table: map<Slot, int>, idCount: int, pending: set<int>)
    requires Repositioned(info, info')
    ensures AddrOk(info, addr) ==> AddrOk(info', addr)
    ensures RefsOk(info, table, pending) ==> RefsOk(info', table, pending)
    ensures EntriesOk(info, idCount) ==> EntriesOk(info', idCount)
    ensures TriedIds(info') == TriedIds(info) && |info'| == |info| && info'.Keys == info.Keys
  {
    assert info'.Keys == info.Keys;
    assert |info'.Keys| == |info'|;
    assert |info.Keys| == |info|;
    forall n ensures n in TriedIds(info') <==> n in TriedIds(info) {
      assert n in info' ==> info'[n].inTried == info[n].inTried;
    }
  }

  lemma SwapKeepsCore(h: Hasher, s: State, i: nat, j: nat, pending: set<int>)
    requires Core(h, s, pending)
    requires i < |s.random| && j < |s.random|
    ensures RandomOk(s.info, s.random)
    ensures Core(h, SwapRandom(s, i, j), pending)
    ensures Repositioned(s.info, SwapRandom(s, i, j).info)
    ensures SwapRandom(s, i, j).random == s.random[i := s.random[j]][j := s.random[i]]
  {
    CoreParts(h, s, pending);
    var t := SwapRandom(s, i, j);
    SwapRepositions(s, i, j);
    RepositionKeepsNew(h, s.key, s.info, t.info, s.new_);
    RepositionKeepsTried(h, s.key, s.info, t.info, s.tried);
    RepositionKeepsRest(s.info, t.info, s.addr, s.new_, s.idCount, pending);
  }

  // Delete.

  lemma DropKeepsRandom(info: map<int, AddrInfo>, random: seq<int>, id: int)
    requires RandomOk(info, random) && |random| > 0 && random[|random| - 1] == id
    ensures RandomOk(info - {id}, random[..|random| - 1])
  {
  }

  lemma DropKeepsAddr(info: map<int, AddrInfo>, addr: map<NetAddr, int>, id: int)
    requires AddrOk(info, addr) && id in info
    ensures AddrOk(info - {id}, addr - {info[id].service.ip})
  {
  }

  lemma DropKeepsRefs(info: map<int, AddrInfo>, table: map<Slot, int>, id: int, pending: set<int>)
    requires RefsOk(info, table, pending)
    ensures RefsOk(info - {id}, table, pending - {id})
  {
  }

  lemma DropKeepsNew(h: Hasher, key: nat, info: map<int, AddrInfo>, table: map<Slot, int>, id: int)
    requires NewOk(h, key, info, table) && Refs(table, id) == {}
    ensures NewOk(h, key, info - {id}, table)
  {
    forall sl | sl in table ensures table[sl] != id {
      assert table[sl] == id ==> sl in Refs(table, id);
    }
  }

  lemma DropKeepsTried(h: Hasher, key: nat, info: map<int, AddrInfo>, tried: map<Slot, int>, id: int)
    requires TriedOk(h, key, info, tried) && id in info && !info[id].inTried
    ensures TriedOk(h, key, info - {id}, tried)
  {
  }

  lemma DropKeepsCounts(info: map<int, AddrInfo>, id: int)
    requires id in info && !info[id].inTried
    ensures |info - {id}| == |info| - 1 && TriedIds(info - {id}) == TriedIds(info)
  {
    assert (info - {id}).Keys == info.Keys - {id};
    assert |(info - {id}).Keys| == |info - {id}|;
    assert |info.Keys| == |info|;
  }

  lemma DropLastKeepsCore(h: Hasher, s: State, id: int, pending: set<int>)
    requires Core(h, s, pending)
    requires id in s.info && !s.info[id].inTried && s.info[id].refCount == 0
    requires |s.random| > 0 && s.random[|s.random| - 1] == id
    ensures Core(h, DropLast(s, id), pending - {id})
  {
    CoreParts(h, s, pending);
    DropKeepsRandom(s.info, s.random, id);
    DropKeepsAddr(s.info, s.addr, id);
    DropKeepsRefs(s.info, s.new_, id, pending);
    DropKeepsNew(h, s.key, s.info, s.new_, id);
    DropKeepsTried(h, s.key, s.info, s.tried, id);
    DropKeepsCounts(s.info, id);
  }

  lemma DeleteIsSwapThenDrop(s: State, id: int)
    requires RandomOk(s.info, s.random) && id in s.info
    ensures Delete(s, id) == DropLast(SwapRandom(s, s.info[id].randomPos, |s.random| - 1), id)
  {
  }

  lemma DeleteKeepsCore(h: Hasher, s: State, id: int, pending: set<int>)
    requires Core(h, s, pending)
    requires id in s.info && !s.info[id].inTried && s.info[id].refCount == 0
    ensures RandomOk(s.info, s.random)
    ensures Core(h, Delete(s, id), pending - {id})
    ensures Delete(s, id).info.Keys == s.info.Keys - {id}
  {
    assert Holds(h, s, pending, RandomVector);
    var t := SwapRandom(s, s.info[id].randomPos, |s.random| - 1);
    DeleteIsSwapThenDrop(s, id);
    SwapKeepsCore(h, s, s.info[id].randomPos, |s.random| - 1, pending);
    RepositionedAt(s.info, t.info, id);
    DropLastKeepsCore(h, t, id, pending);
  }

  // The new table.

  lemma UncountKeepsRefs(info: map<int, AddrInfo>, table: map<Slot, int>, sl: Slot, x: AddrInfo, pending: set<int>)
    requires RefsOk(info, table, pending) && sl in table && table[sl] in info
    requires x.refCount == info[table[sl]].refCount - 1 && x.inTried == info[table[sl]].inTried
    requires !x.inTried
    ensures RefsOk(info[table[sl] := x], table - {sl}, pending + {table[sl]})
    ensures x.refCount != 0 ==> RefsOk(info[table[sl] := x], table - {sl}, pending)
  {
    forall n ensures Refs(table - {sl}, n) == if table[sl] == n then Refs(table, n) - {sl} else Refs(table, n)
             ensures table[sl] == n ==> |Refs(table - {sl}, n)| == |Refs(table, n)| - 1
    {
      RefsAfterRemoval(table, sl, n);
    }
  }

  lemma CountKeepsRefs(info: map<int, AddrInfo>, table: map<Slot, int>, sl: Slot, id: int, x: AddrInfo, pending: set<int>)
    requires RefsOk(info, table, pending) && sl !in table && id in info
    requires x.refCount == info[id].refCount + 1 <= NEW_BUCKETS_PER_ADDRESS && !x.inTried && !info[id].inTried
    ensures RefsOk(info[id := x], table[sl := id], pending - {id})
  {
    forall n ensures Refs(table[sl := id], n) == if id == n then Refs(table, n) + {sl} else Refs(table, n)
             ensures id == n ==> |Refs(table[sl := id], n)| == |Refs(table, n)| + 1
    {
      RefsAfterInsertion(table, sl, id, n);
    }
  }

  lemma ShrinkKeepsNew(h: Hasher, key: nat, info: map<int, AddrInfo>, table: map<Slot, int>, table': map<Slot, int>)
    requires NewOk(h, key, info, table)
    requires forall sl :: sl in table' ==> sl in table && table'[sl] == table[sl]
    ensures NewOk(h, key, info, table')
  {
  }

  lemma GrowKeepsNew(h: Hasher, key: nat, info: map<int, AddrInfo>, table: map<Slot, int>, sl: Slot, id: int)
    requires NewOk(h, key, info, table) && id in info && !info[id].inTried
    requires sl.bucket < NEW_BUCKET_COUNT && sl == h.NewSlotIn(key, sl.bucket, info[id].service)
    ensures NewOk(h, key, info, table[sl := id])
  {
  }

  lemma UnrefHolds(h: Hasher, s: State, sl: Slot, pending: set<int>, c: Condition)
    requires Core(h, s, pending) && sl in s.new_ && s.new_[sl] in s.info && !s.info[s.new_[sl]].inTried
    ensures Holds(h, Unref(s, sl), pending + {s.new_[sl]}, c)
    ensures Unref(s, sl).info[s.new_[sl]].refCount != 0 ==> Holds(h, Unref(s, sl), pending, c)
  {
    var id := s.new_[sl];
    var t := Unref(s, sl);
    var x := t.info[id];
    assert Holds(h, s, pending, c);
    match c
    case Key =>
    case RandomVector => UpdateKeepsRandom(s.info, s.random, id, x);
    case AddressMap => UpdateKeepsAddr(s.info, s.addr, id, x);
    case RefCounts => UncountKeepsRefs(s.info, s.new_, sl, x, pending);
    case NewTable =>
      UpdateKeepsNew(h, s.key, s.info, s.new_, id, x);
      ShrinkKeepsNew(h, s.key, t.info, s.new_, t.new_);
    case TriedTable => UpdateKeepsTried(h, s.key, s.info, s.tried, id, x);
    case Counters => TriedIdsAfterUpdate(s.info, id, x);
    case Entries =>
  }

  lemma UnrefKeepsCore(h: Hasher, s: State, sl: Slot, pending: set<int>)
    requires Core(h, s, pending)
    requires sl in s.new_
    ensures s.new_[sl] in s.info
    ensures Core(h, Unref(s, sl), pending + {s.new_[sl]})
    ensures Unref(s, sl).info[s.new_[sl]].refCount != 0 ==> Core(h, Unref(s, sl), pending)
  {
    assert Holds(h, s, pending, NewTable);
    forall c
      ensures Holds(h, Unref(s, sl), pending + {s.new_[sl]}, c)
      ensures Unref(s, sl).info[s.new_[sl]].refCount != 0 ==> Holds(h, Unref(s, sl), pending, c)
    {
      UnrefHolds(h, s, sl, pending, c);
    }
  }

  lemma ClearNewKeepsCore(h: Hasher, s: State, sl: Slot, pending: set<int>)
    requires Core(h, s, pending)
    requires sl in s.new_ ==> s.new_[sl] !in pending
    ensures RandomOk(s.info, s.random) && (sl in s.new_ ==> s.new_[sl] in s.info)
    ensures Core(h, ClearNew(s, sl), pending)
    ensures sl !in ClearNew(s, sl).new_
    ensures forall n :: n in s.info && (sl in s.new_ ==> n != s.new_[sl]) ==> n in ClearNew(s, sl).info
  {
    assert Holds(h, s, pending, RandomVector);
    if sl in s.new_ {
      var id := s.new_[sl];
      UnrefKeepsCore(h, s, sl, pending);
      var t := Unref(s, sl);
      if t.info[id].refCount == 0 {
        assert !t.info[id].inTried by { CoreParts(h, s, pending); }
        DeleteKeepsCore(h, t, id, pending + {id});
        assert pending + {id} - {id} == pending;
      }
    }
  }

  lemma PlaceKeepsCore(h: Hasher, s: State, id: int, sl: Slot, pending: set<int>)
    requires Core(h, s, pending)
    requires id in s.info && !s.info[id].inTried && s.info[id].refCount < NEW_BUCKETS_PER_ADDRESS
    requires sl !in s.new_ && sl.bucket < NEW_BUCKET_COUNT
    requires sl == h.NewSlotIn(s.key, sl.bucket, s.info[id].service)
    ensures Core(h, Place(s, id, sl), pending - {id})
  {
    CoreParts(h, s, pending);
    var t := Place(s, id, sl);
    var x := t.info[id];
    UpdateKeepsRandom(s.info, s.random, id, x);
    UpdateKeepsAddr(s.info, s.addr, id, x);
    UpdateKeepsNew(h, s.key, s.info, s.new_, id, x);
    GrowKeepsNew(h, s.key, t.info, s.new_, sl, id);
    UpdateKeepsTried(h, s.key, s.info, s.tried, id, x);
    TriedIdsAfterUpdate(s.info, id, x);
    CountKeepsRefs(s.info, s.new_, sl, id, x, pending);
  }

  lemma UnplaceKeepsRefs(info: map<int, AddrInfo>, table: map<Slot, int>, id: int, x: AddrInfo, pending: set<int>)
    requires RefsOk(info, table, pending) && id in info && x.refCount == 0 && !x.inTried
    ensures RefsOk(info[id := x], map sl | sl in table && table[sl] != id :: table[sl], pending + {id})
  {
    var table' := map sl | sl in table && table[sl] != id :: table[sl];
    forall n ensures Refs(table', n) == if n == id then {} else Refs(table, n) {
      assert n == id ==> Refs(table', n) == {};
      assert n != id ==> Refs(table', n) == Refs(table, n);
    }
  }

  lemma UnplaceKeepsCore(h: Hasher, s: State, id: int, pending: set<int>)
    requires Core(h, s, pending)
    requires id in s.info && !s.info[id].inTried
    ensures Core(h, Unplace(s, id), pending + {id})
  {
    CoreParts(h, s, pending);
    var t := Unplace(s, id);
    var x := t.info[id];
    UpdateKeepsRandom(s.info, s.random, id, x);
    UpdateKeepsAddr(s.info, s.addr, id, x);
    UpdateKeepsNew(h, s.key, s.info, s.new_, id, x);
    ShrinkKeepsNew(h, s.key, t.info, s.new_, t.new_);
    UpdateKeepsTried(h, s.key, s.info, s.tried, id, x);
    TriedIdsAfterUpdate(s.info, id, x);
    UnplaceKeepsRefs(s.info, s.new_, id, x, pending);
  }

  // The tried table.

  lemma LeaveKeepsTried(h: Hasher, key: nat, info: map<int, AddrInfo>, tried: map<Slot, int>, sl: Slot, x: AddrInfo)
    requires TriedOk(h, key, info, tried) && sl in tried
    requires !x.inTried
    ensures TriedOk(h, key, info[tried[sl] := x], tried - {sl})
  {
  }

  lemma EnterKeepsTried(h: Hasher, key: nat, info: map<int, AddrInfo>, tried: map<Slot, int>, id: int, x: AddrInfo)
    requires TriedOk(h, key, info, tried) && id in info && !info[id].inTried
    requires x.inTried && x.service == info[id].service
    requires h.TriedSlot(key, x.service) !in tried
    ensures TriedOk(h, key, info[id := x], tried[h.TriedSlot(key, x.service) := id])
  {
  }

  lemma UntryKeepsCore(h: Hasher, s: State, sl: Slot, pending: set<int>)
    requires Core(h, s, pending)
    requires sl in s.tried
    ensures s.tried[sl] in s.info
    ensures Core(h, Untry(s, sl), pending + {s.tried[sl]})
  {
    CoreParts(h, s, pending);
    var id := s.tried[sl];
    var t := Untry(s, sl);
    var x := t.info[id];
    UpdateKeepsRandom(s.info, s.random, id, x);
    UpdateKeepsAddr(s.info, s.addr, id, x);
    UpdateKeepsNew(h, s.key, s.info, s.new_, id, x);
    LeaveKeepsTried(h, s.key, s.info, s.tried, sl, x);
    TriedIdsAfterUpdate(s.info, id, x);
    assert id in TriedIds(s.info);
  }

  lemma TryKeepsCore(h: Hasher, s: State, id: int, sl: Slot, pending: set<int>)
    requires Core(h, s, pending)
    requires id in s.info && !s.info[id].inTried && s.info[id].refCount == 0 && s.info[id].stats.lastSuccess > 0
    requires sl == h.TriedSlot(s.key, s.info[id].service) && sl !in s.tried
    ensures Core(h, Try(s, id, sl), pending - {id})
  {
    CoreParts(h, s, pending);
    var t := Try(s, id, sl);
    var x := t.info[id];
    UpdateKeepsRandom(s.info, s.random, id, x);
    UpdateKeepsAddr(s.info, s.addr, id, x);
    UpdateKeepsNew(h, s.key, s.info, s.new_, id, x);
    EnterKeepsTried(h, s.key, s.info, s.tried, id, x);
    TriedIdsAfterUpdate(s.info, id, x);
    assert id !in TriedIds(s.info);
  }
}
