/**
 The saved form of the address manager (src/addrman.h, Serialize and Unserialize), as the
 list of values that goes through the stream, and what it means for a loaded manager to
 be the saved one up to a renumbering of ids.
 */
module AddrManStream {
  import opened AddrManState

  /** The fields of CAddrInfo that are saved; the rest is memory only. */
  datatype SavedInfo = SavedInfo(
    service: Service, services: bv64, time: Uint32, source: NetAddr, lastSuccess: int, attempts: int)

  datatype Token = Number(n: int) | Entry(info: SavedInfo)

  function Save(x: AddrInfo): SavedInfo {
    SavedInfo(x.service, x.stats.services, x.stats.time, x.source, x.stats.lastSuccess, x.stats.attempts)
  }

  /** A CAddrInfo read back: in no table, and with nothing known of its last tries. */
  function Load(x: SavedInfo): AddrInfo {
    AddrInfo(x.service, x.source, Stats(x.services, x.time, 0, 0, x.lastSuccess, x.attempts), 0, false, -1)
  }

  /** What a load gives back of an entry, before its places are restored. */
  function Reloaded(x: AddrInfo): AddrInfo {
    Load(Save(x))
  }

  // ---------------------------------------------------------------------------
  // The format.

  const FORMAT: int := 1
  const KEY_SIZE: int := 32
  const BIT30: int := 0x4000_0000

  /** n XOR 2^30, on 32-bit numbers. */
  function FlipBit30(n: int): int {
    if (n / BIT30) % 2 == 0 then n + BIT30 else n - BIT30
  }

  /** The first n ids of a list, as a set. */
  ghost function IdSet(ids: seq<int>, n: nat): set<int>
    requires n <= |ids|
  {
    if n == 0 then {} else IdSet(ids, n - 1) + {ids[n - 1]}
  }

  ghost predicate Distinct(ids: seq<int>) {
    forall i, j :: 0 <= i < j < |ids| ==> ids[i] != ids[j]
  }

  ghost predicate AllIn(ids: seq<int>, info: map<int, AddrInfo>) {
    forall i :: 0 <= i < |ids| ==> ids[i] in info
  }

  /** An order in which the id map can be walked: every id once. */
  ghost predicate Enumerates(ids: seq<int>, info: map<int, AddrInfo>) {
    AllIn(ids, info) && Distinct(ids) && IdSet(ids, |ids|) == info.Keys
  }

  /** The ids with references, among the first n. */
  function NewAmong(info: map<int, AddrInfo>, ids: seq<int>, n: nat): seq<int>
    requires n <= |ids| && AllIn(ids, info)
  {
    if n == 0 then []
    else NewAmong(info, ids, n - 1) + if info[ids[n - 1]].refCount != 0 then [ids[n - 1]] else []
  }

  /** The tried ids, among the first n. */
  function TriedAmong(info: map<int, AddrInfo>, ids: seq<int>, n: nat): seq<int>
    requires n <= |ids| && AllIn(ids, info)
  {
    if n == 0 then []
    else TriedAmong(info, ids, n - 1) + if info[ids[n - 1]].inTried then [ids[n - 1]] else []
  }

  function EntryTokens(info: map<int, AddrInfo>, ids: seq<int>): seq<Token>
    requires AllIn(ids, info)
  {
    seq(|ids|, i requires 0 <= i < |ids| && ids[i] in info => Entry(Save(info[ids[i]])))
  }

  lemma EntryTokensAppend(info: map<int, AddrInfo>, ids: seq<int>, id: int)
    requires AllIn(ids, info) && id in info
    ensures EntryTokens(info, ids + [id]) == EntryTokens(info, ids) + [Entry(Save(info[id]))]
  {
  }

  /** The indices stored for the first p positions of a bucket. */
  function BucketTokens(table: map<Slot, int>, index: map<int, int>, b: nat, p: nat): seq<Token>
    requires forall sl :: sl in table ==> table[sl] in index
  {
    if p == 0 then []
    else BucketTokens(table, index, b, p - 1) +
         if Slot(b, p - 1) in table then [Number(index[table[Slot(b, p - 1)]])] else []
  }

  /** The buckets from b on: for each, its size and its indices. */
  function TableTokens(table: map<Slot, int>, index: map<int, int>, b: nat): seq<Token>
    requires forall sl :: sl in table ==> table[sl] in index
    decreases NEW_BUCKET_COUNT - b, table
  {
    if b >= NEW_BUCKET_COUNT then []
    else
      [Number(|BucketTokens(table, index, b, BUCKET_SIZE)|)]
      + BucketTokens(table, index, b, BUCKET_SIZE)
      + TableTokens(table, index, b + 1)
  }

  // ---------------------------------------------------------------------------
  // Renumbering.

  /** Everything but the memory-only fields and the random position survives. */
  predicate SameEntry(x: AddrInfo, y: AddrInfo) {
    && y.service == x.service && y.source == x.source && y.refCount == x.refCount && y.inTried == x.inTried
    && y.stats == x.stats.(lastTry := 0, lastCountAttempt := 0)
  }

  /** Two tables with the same occupied slots, where id k of the second is order[k] of the first. */
  ghost predicate SameSlots(order: seq<int>, table: map<Slot, int>, table': map<Slot, int>) {
    && (forall sl :: sl in table' <==> sl in table)
    && (forall sl :: sl in table' ==> 0 <= table'[sl] < |order| && order[table'[sl]] == table[sl])
  }

  /** The same manager up to ids, random order and memory-only statistics: id k was order[k]. */
  ghost predicate SameUpTo(order: seq<int>, s: State, t: State) {
    && Enumerates(order, s.info)
    && t.key == s.key && t.nNew == s.nNew && t.nTried == s.nTried
    && (forall k :: k in t.info <==> 0 <= k < |order|)
    && (forall k :: 0 <= k < |order| ==> SameEntry(s.info[order[k]], t.info[k]))
    && (forall a :: a in t.addr <==> a in s.addr)
    && (forall a :: a in t.addr ==> 0 <= t.addr[a] < |order| && order[t.addr[a]] == s.addr[a])
    && SameSlots(order, s.new_, t.new_)
    && SameSlots(order, s.tried, t.tried)
  }

  /** Renumbering keeps every condition of Check_, given a random vector and counters that fit. */
  lemma RenumberingKeepsInv(h: Hasher, order: seq<int>, s: State, t: State)
    requires Inv(h, s) && SameUpTo(order, s, t)
    requires RandomOk(t.info, t.random) && CountsOk(t)
    requires |order| <= t.idCount
    ensures Inv(h, t)
  {
    CoreParts(h, s, {});
    RenumberedAddr(order, s, t);
    RenumberedRefs(order, s, t);
    RenumberedNew(h, order, s, t);
    RenumberedTried(h, order, s, t);
    RenumberedEntries(order, s, t);
  }

  lemma EntryAt(order: seq<int>, s: State, t: State, k: int)
    requires SameUpTo(order, s, t) && 0 <= k < |order|
    ensures k in t.info && order[k] in s.info && SameEntry(s.info[order[k]], t.info[k])
  {
  }

  lemma RenumberedAddr(order: seq<int>, s: State, t: State)
    requires SameUpTo(order, s, t) && AddrOk(s.info, s.addr)
    ensures AddrOk(t.info, t.addr)
  {
    forall k | k in t.info ensures t.info[k].service.ip in t.addr && t.addr[t.info[k].service.ip] == k {
      EntryAt(order, s, t, k);
    }
    forall a | a in t.addr ensures t.addr[a] in t.info && t.info[t.addr[a]].service.ip == a {
      EntryAt(order, s, t, t.addr[a]);
    }
  }

  lemma RefsRenumbered(order: seq<int>, table: map<Slot, int>, table': map<Slot, int>, k: int)
    requires SameSlots(order, table, table') && Distinct(order) && 0 <= k < |order|
    ensures Refs(table', k) == Refs(table, order[k])
  {
    forall sl ensures sl in Refs(table', k) <==> sl in Refs(table, order[k]) {
    }
  }

  lemma RenumberedRefs(order: seq<int>, s: State, t: State)
    requires SameUpTo(order, s, t) && RefsOk(s.info, s.new_, {})
    ensures RefsOk(t.info, t.new_, {})
  {
    forall k | k in t.info
      ensures t.info[k].refCount == |Refs(t.new_, k)| && t.info[k].refCount <= NEW_BUCKETS_PER_ADDRESS
      ensures t.info[k].inTried ==> t.info[k].refCount == 0
      ensures !t.info[k].inTried ==> t.info[k].refCount >= 1
    {
      EntryAt(order, s, t, k);
      RefsRenumbered(order, s.new_, t.new_, k);
    }
  }

  lemma RenumberedNew(h: Hasher, order: seq<int>, s: State, t: State)
    requires SameUpTo(order, s, t) && NewOk(h, s.key, s.info, s.new_)
    ensures NewOk(h, t.key, t.info, t.new_)
  {
    forall sl | sl in t.new_
      ensures t.new_[sl] in t.info && !t.info[t.new_[sl]].inTried && sl.bucket < NEW_BUCKET_COUNT
      ensures sl == h.NewSlotIn(t.key, sl.bucket, t.info[t.new_[sl]].service)
    {
      EntryAt(order, s, t, t.new_[sl]);
    }
  }

  lemma TriedAt(h: Hasher, key: nat, info: map<int, AddrInfo>, tried: map<Slot, int>, n: int)
    requires TriedOk(h, key, info, tried) && n in info && info[n].inTried
    ensures h.TriedSlot(key, info[n].service) in tried && tried[h.TriedSlot(key, info[n].service)] == n
  {
  }

  lemma RenumberedTried(h: Hasher, order: seq<int>, s: State, t: State)
    requires SameUpTo(order, s, t) && TriedOk(h, s.key, s.info, s.tried)
    ensures TriedOk(h, t.key, t.info, t.tried)
  {
    forall sl | sl in t.tried
      ensures t.tried[sl] in t.info && t.info[t.tried[sl]].inTried
      ensures sl == h.TriedSlot(t.key, t.info[t.tried[sl]].service)
    {
      EntryAt(order, s, t, t.tried[sl]);
    }
    forall k | k in t.info && t.info[k].inTried
      ensures h.TriedSlot(t.key, t.info[k].service) in t.tried && t.tried[h.TriedSlot(t.key, t.info[k].service)] == k
    {
      EntryAt(order, s, t, k);
      TriedAt(h, s.key, s.info, s.tried, order[k]);
    }
  }

  lemma RenumberedEntries(order: seq<int>, s: State, t: State)
    requires SameUpTo(order, s, t) && EntriesOk(s.info, s.idCount) && |order| <= t.idCount
    ensures EntriesOk(t.info, t.idCount)
  {
    forall k | k in t.info
      ensures 0 <= k < t.idCount
      ensures 0 <= t.info[k].stats.lastTry && 0 <= t.info[k].stats.lastSuccess
      ensures t.info[k].inTried ==> t.info[k].stats.lastSuccess > 0
    {
      EntryAt(order, s, t, k);
    }
  }

  // ---------------------------------------------------------------------------
  // Counting along an enumeration.

  ghost function Restrict(info: map<int, AddrInfo>, ids: seq<int>, n: nat): map<int, AddrInfo>
    requires n <= |ids| && AllIn(ids, info)
  {
    if n == 0 then map[] else Restrict(info, ids, n - 1)[ids[n - 1] := info[ids[n - 1]]]
  }

  lemma {:induction false} IdSetMembers(ids: seq<int>, n: nat, x: int)
    requires n <= |ids|
    ensures x in IdSet(ids, n) <==> exists i :: 0 <= i < n && ids[i] == x
  {
    if n > 0 {
      IdSetMembers(ids, n - 1, x);
    }
  }

  lemma {:induction false} RestrictKeys(info: map<int, AddrInfo>, ids: seq<int>, n: nat)
    requires n <= |ids| && AllIn(ids, info) && Distinct(ids)
    ensures Restrict(info, ids, n).Keys == IdSet(ids, n) && |Restrict(info, ids, n)| == n
    ensures forall x :: x in Restrict(info, ids, n) ==> x in info && Restrict(info, ids, n)[x] == info[x]
  {
    if n > 0 {
      RestrictKeys(info, ids, n - 1);
      var r := Restrict(info, ids, n - 1);
      var id := ids[n - 1];
      IdSetMembers(ids, n - 1, id);
      assert id !in r.Keys;
      InsertionGrows(r, id, info[id]);
    }
  }

  lemma InsertionGrows(r: map<int, AddrInfo>, id: int, x: AddrInfo)
    requires id !in r
    ensures r[id := x].Keys == r.Keys + {id} && |r[id := x]| == |r| + 1
  {
    assert r[id := x].Keys == r.Keys + {id};
    assert |r[id := x].Keys| == |r[id := x]|;
    assert |r.Keys| == |r|;
  }

  lemma TriedIdsGrow(r: map<int, AddrInfo>, id: int, x: AddrInfo)
    requires id !in r
    ensures |TriedIds(r[id := x])| == |TriedIds(r)| + if x.inTried then 1 else 0
  {
    assert TriedIds(r[id := x]) == if x.inTried then TriedIds(r) + {id} else TriedIds(r);
  }

  lemma {:induction false} RestrictTried(info: map<int, AddrInfo>, ids: seq<int>, n: nat)
    requires n <= |ids| && AllIn(ids, info) && Distinct(ids)
    ensures |TriedIds(Restrict(info, ids, n))| == |TriedAmong(info, ids, n)|
  {
    if n > 0 {
      RestrictTried(info, ids, n - 1);
      assert ids[n - 1] !in Restrict(info, ids, n - 1) by {
        RestrictKeys(info, ids, n - 1);
        IdSetMembers(ids, n - 1, ids[n - 1]);
      }
      TriedIdsGrow(Restrict(info, ids, n - 1), ids[n - 1], info[ids[n - 1]]);
    }
  }

  lemma EnumerationCounts(info: map<int, AddrInfo>, ids: seq<int>)
    requires Enumerates(ids, info)
    ensures |ids| == |info| && |TriedAmong(info, ids, |ids|)| == |TriedIds(info)|
  {
    RestrictKeys(info, ids, |ids|);
    RestrictTried(info, ids, |ids|);
    var r := Restrict(info, ids, |ids|);
    assert |r.Keys| == |r| && |info.Keys| == |info|;
    assert TriedIds(r) == TriedIds(info) by {
      forall x ensures x in TriedIds(r) <==> x in TriedIds(info) {
        assert x in r.Keys <==> x in info.Keys;
      }
    }
  }

  /** Every entry is in exactly one of the two tables. */
  ghost predicate Sorted(info: map<int, AddrInfo>) {
    forall n :: n in info ==> (info[n].refCount != 0 <==> !info[n].inTried)
  }

  /** NewAmong lists ids of the list, each once, all of them referenced; likewise TriedAmong. */
  lemma {:induction false} AmongMembers(info: map<int, AddrInfo>, ids: seq<int>, n: nat)
    requires n <= |ids| && AllIn(ids, info) && Distinct(ids)
    ensures forall i :: 0 <= i < |NewAmong(info, ids, n)| ==>
      NewAmong(info, ids, n)[i] in ids[..n] && NewAmong(info, ids, n)[i] in info && info[NewAmong(info, ids, n)[i]].refCount != 0
    ensures forall i :: 0 <= i < |TriedAmong(info, ids, n)| ==>
      TriedAmong(info, ids, n)[i] in ids[..n] && TriedAmong(info, ids, n)[i] in info && info[TriedAmong(info, ids, n)[i]].inTried
    ensures Distinct(NewAmong(info, ids, n)) && Distinct(TriedAmong(info, ids, n))
  {
    if n > 0 {
      AmongMembers(info, ids, n - 1);
      assert ids[..n] == ids[..n - 1] + [ids[n - 1]];
      assert ids[n - 1] !in ids[..n - 1];
    }
  }

  lemma {:induction false} IdSetOfPrefix(a: seq<int>, b: seq<int>, n: nat)
    requires n <= |a|
    ensures IdSet(a + b, n) == IdSet(a, n)
  {
    if n > 0 {
      IdSetOfPrefix(a, b, n - 1);
    }
  }

  lemma {:induction false} IdSetOfConcat(a: seq<int>, b: seq<int>, n: nat)
    requires n <= |b|
    ensures IdSet(a + b, |a| + n) == IdSet(a, |a|) + IdSet(b, n)
  {
    if n == 0 {
      IdSetOfPrefix(a, b, |a|);
    } else {
      IdSetOfConcat(a, b, n - 1);
    }
  }

  lemma {:induction false} AmongSplit(info: map<int, AddrInfo>, ids: seq<int>, n: nat)
    requires n <= |ids| && AllIn(ids, info) && Sorted(info)
    ensures |NewAmong(info, ids, n)| + |TriedAmong(info, ids, n)| == n
    ensures IdSet(NewAmong(info, ids, n), |NewAmong(info, ids, n)|) + IdSet(TriedAmong(info, ids, n), |TriedAmong(info, ids, n)|)
            == IdSet(ids, n)
  {
    if n > 0 {
      AmongSplit(info, ids, n - 1);
      var id := ids[n - 1];
      var a, b := NewAmong(info, ids, n - 1), TriedAmong(info, ids, n - 1);
      IdSetOfConcat(a, [id], 1);
      IdSetOfConcat(b, [id], 1);
      assert IdSet([id], 1) == IdSet([id], 0) + {id};
      assert a + [] == a && b + [] == b;
    }
  }

  /** The order in which a load numbers the entries: the referenced ones, then the tried ones. */
  function LoadOrder(info: map<int, AddrInfo>, ids: seq<int>): seq<int>
    requires AllIn(ids, info)
  {
    NewAmong(info, ids, |ids|) + TriedAmong(info, ids, |ids|)
  }

  lemma DistinctConcat(a: seq<int>, b: seq<int>)
    requires Distinct(a) && Distinct(b) && forall i, j :: 0 <= i < |a| && 0 <= j < |b| ==> a[i] != b[j]
    ensures Distinct(a + b)
  {
  }

  /** Nothing is listed twice. */
  lemma LoadOrderDistinct(info: map<int, AddrInfo>, ids: seq<int>)
    requires AllIn(ids, info) && Distinct(ids) && Sorted(info)
    ensures AllIn(LoadOrder(info, ids), info) && Distinct(LoadOrder(info, ids))
  {
    AmongMembers(info, ids, |ids|);
    DistinctConcat(NewAmong(info, ids, |ids|), TriedAmong(info, ids, |ids|));
  }

  /** Nothing is missing. */
  lemma LoadOrderIds(info: map<int, AddrInfo>, ids: seq<int>)
    requires AllIn(ids, info) && Sorted(info)
    ensures IdSet(LoadOrder(info, ids), |LoadOrder(info, ids)|) == IdSet(ids, |ids|)
  {
    var a, b := NewAmong(info, ids, |ids|), TriedAmong(info, ids, |ids|);
    AmongSplit(info, ids, |ids|);
    IdSetOfConcat(a, b, |b|);
  }

  lemma LoadOrderEnumerates(h: Hasher, s: State, ids: seq<int>)
    requires Inv(h, s) && Enumerates(ids, s.info)
    ensures Enumerates(LoadOrder(s.info, ids), s.info)
    ensures |NewAmong(s.info, ids, |ids|)| == s.nNew && |TriedAmong(s.info, ids, |ids|)| == s.nTried
  {
    assert Sorted(s.info) && CountsOk(s) by { CoreParts(h, s, {}); }
    LoadOrderDistinct(s.info, ids);
    LoadOrderIds(s.info, ids);
    AmongSplit(s.info, ids, |ids|);
    EnumerationCounts(s.info, ids);
  }

  // ---------------------------------------------------------------------------
  // The stream of a snapshot.

  /** mapUnkIds after n ids: how many referenced ids came before each. */
  function IndexAmong(info: map<int, AddrInfo>, ids: seq<int>, n: nat): map<int, int>
    requires n <= |ids| && AllIn(ids, info)
  {
    if n == 0 then map[] else IndexAmong(info, ids, n - 1)[ids[n - 1] := |NewAmong(info, ids, n - 1)|]
  }

  lemma {:induction false} NewAmongGrows(info: map<int, AddrInfo>, ids: seq<int>, m: nat, n: nat)
    requires m <= n <= |ids| && AllIn(ids, info)
    ensures |NewAmong(info, ids, m)| <= |NewAmong(info, ids, n)|
    ensures NewAmong(info, ids, n)[..|NewAmong(info, ids, m)|] == NewAmong(info, ids, m)
    decreases n
  {
    if m < n {
      NewAmongGrows(info, ids, m, n - 1);
    }
  }

  lemma {:induction false} TriedAmongGrows(info: map<int, AddrInfo>, ids: seq<int>, m: nat, n: nat)
    requires m <= n <= |ids| && AllIn(ids, info)
    ensures |TriedAmong(info, ids, m)| <= |TriedAmong(info, ids, n)|
    decreases n
  {
    if m < n {
      TriedAmongGrows(info, ids, m, n - 1);
    }
  }

  /** The index stored for a referenced id is its place among the saved entries. */
  lemma {:induction false} IndexIsPlace(info: map<int, AddrInfo>, ids: seq<int>, n: nat, id: int)
    requires n <= |ids| && AllIn(ids, info) && Distinct(ids) && id in ids[..n]
    ensures id in IndexAmong(info, ids, n)
    ensures info[id].refCount != 0 ==>
      0 <= IndexAmong(info, ids, n)[id] < |NewAmong(info, ids, n)| &&
      NewAmong(info, ids, n)[IndexAmong(info, ids, n)[id]] == id
  {
    if ids[n - 1] != id {
      assert id in ids[..n - 1];
      IndexIsPlace(info, ids, n - 1, id);
    }
  }

  /** Every saved id, new or tried, is indexed. */
  lemma IndexCovers(h: Hasher, s: State, ids: seq<int>)
    requires Inv(h, s) && Enumerates(ids, s.info)
    ensures forall sl :: sl in s.new_ ==> s.new_[sl] in IndexAmong(s.info, ids, |ids|)
    ensures forall sl :: sl in s.new_ ==>
      var k := IndexAmong(s.info, ids, |ids|)[s.new_[sl]];
      0 <= k < |NewAmong(s.info, ids, |ids|)| && NewAmong(s.info, ids, |ids|)[k] == s.new_[sl]
  {
    CoreParts(h, s, {});
    forall sl | sl in s.new_
      ensures s.new_[sl] in IndexAmong(s.info, ids, |ids|)
      ensures var k := IndexAmong(s.info, ids, |ids|)[s.new_[sl]];
              0 <= k < |NewAmong(s.info, ids, |ids|)| && NewAmong(s.info, ids, |ids|)[k] == s.new_[sl]
    {
      var id := s.new_[sl];
      assert sl in Refs(s.new_, id);
      IdSetMembers(ids, |ids|, id);
      assert ids[..|ids|] == ids;
      IndexIsPlace(s.info, ids, |ids|, id);
    }
  }

  function Header(key: nat, nNew: int, nTried: int): seq<Token> {
    [Number(FORMAT), Number(KEY_SIZE), Number(key), Number(nNew), Number(nTried), Number(FlipBit30(NEW_BUCKET_COUNT))]
  }

  /** What Serialize writes when it walks the id map in the order `ids`. */
  ghost function Stream(h: Hasher, s: State, ids: seq<int>): seq<Token>
    requires Inv(h, s) && Enumerates(ids, s.info)
  {
    AmongMembers(s.info, ids, |ids|);
    IndexCovers(h, s, ids);
    Header(s.key, s.nNew, s.nTried)
    + EntryTokens(s.info, NewAmong(s.info, ids, |ids|))
    + EntryTokens(s.info, TriedAmong(s.info, ids, |ids|))
    + TableTokens(s.new_, IndexAmong(s.info, ids, |ids|), 0)
  }

  // ---------------------------------------------------------------------------
  // A load in progress: the first n entries, numbered by `order`.

  /** Entry k of a load, before its references are restored. */
  function LoadedEntry(x: AddrInfo, k: int): AddrInfo {
    Reloaded(x).(inTried := x.inTried, randomPos := k)
  }

  /** The first n entries are loaded, with the references in `table`. */
  ghost predicate LoadedInfo(s: State, order: seq<int>, n: nat, table: map<Slot, int>, info: map<int, AddrInfo>)
    requires n <= |order| && AllIn(order, s.info)
  {
    && (forall k :: k in info <==> 0 <= k < n)
    && (forall k :: 0 <= k < n ==>
          info[k] == LoadedEntry(s.info[order[k]], k).(refCount := |Refs(table, k)|))
  }

  ghost predicate LoadedAddr(s: State, order: seq<int>, n: nat, addr: map<NetAddr, int>)
    requires n <= |order| && AllIn(order, s.info)
  {
    && (forall k :: 0 <= k < n ==> s.info[order[k]].service.ip in addr && addr[s.info[order[k]].service.ip] == k)
    && (forall a :: a in addr ==> 0 <= addr[a] < n && s.info[order[addr[a]]].service.ip == a)
  }

  ghost predicate LoadedRandom(n: nat, random: seq<int>) {
    |random| == n && forall i :: 0 <= i < n ==> random[i] == i
  }

  /** Tried entries are numbered from `first` on; the table holds those below n. */
  ghost predicate LoadedTried(h: Hasher, s: State, order: seq<int>, first: nat, n: nat, tried: map<Slot, int>)
    requires n <= |order| && AllIn(order, s.info)
  {
    && (forall k :: first <= k < n ==>
          h.TriedSlot(s.key, s.info[order[k]].service) in tried && tried[h.TriedSlot(s.key, s.info[order[k]].service)] == k)
    && (forall sl :: sl in tried ==> first <= tried[sl] < n && sl == h.TriedSlot(s.key, s.info[order[tried[sl]]].service))
  }

  lemma LoadInfo(s: State, order: seq<int>, n: nat, info: map<int, AddrInfo>)
    requires n < |order| && AllIn(order, s.info) && LoadedInfo(s, order, n, map[], info)
    ensures n !in info
    ensures LoadedInfo(s, order, n + 1, map[], info[n := LoadedEntry(s.info[order[n]], n)])
  {
    assert Refs(map[], n) == {};
  }

  /** No two entries share an ip, so a load overwrites no entry of the address map. */
  lemma LoadAddr(s: State, order: seq<int>, n: nat, addr: map<NetAddr, int>)
    requires n < |order| && AllIn(order, s.info) && Distinct(order) && AddrOk(s.info, s.addr)
    requires LoadedAddr(s, order, n, addr)
    ensures LoadedAddr(s, order, n + 1, addr[s.info[order[n]].service.ip := n])
  {
    var ip := s.info[order[n]].service.ip;
    forall k | 0 <= k < n ensures s.info[order[k]].service.ip != ip {
      assert s.addr[s.info[order[k]].service.ip] == order[k];
      assert s.addr[ip] == order[n];
    }
  }

  /** No two tried entries share a slot, so a load loses none. */
  lemma LoadTriedSlot(h: Hasher, s: State, order: seq<int>, first: nat, n: nat, tried: map<Slot, int>)
    requires first <= n < |order| && AllIn(order, s.info) && Distinct(order) && TriedOk(h, s.key, s.info, s.tried)
    requires forall k :: first <= k < |order| ==> s.info[order[k]].inTried
    requires LoadedTried(h, s, order, first, n, tried)
    ensures h.TriedSlot(s.key, s.info[order[n]].service) !in tried
    ensures LoadedTried(h, s, order, first, n + 1, tried[h.TriedSlot(s.key, s.info[order[n]].service) := n])
  {
    var sl := h.TriedSlot(s.key, s.info[order[n]].service);
    forall k | first <= k < n ensures h.TriedSlot(s.key, s.info[order[k]].service) != sl {
      TriedAt(h, s.key, s.info, s.tried, order[k]);
      TriedAt(h, s.key, s.info, s.tried, order[n]);
    }
  }

  /** A complete load has the tried table of the saved manager. */
  lemma LoadedTriedIsSame(h: Hasher, s: State, order: seq<int>, first: nat, tried: map<Slot, int>)
    requires first <= |order| && Enumerates(order, s.info) && TriedOk(h, s.key, s.info, s.tried)
    requires forall k :: 0 <= k < |order| ==> (first <= k <==> s.info[order[k]].inTried)
    requires LoadedTried(h, s, order, first, |order|, tried)
    ensures SameSlots(order, s.tried, tried)
  {
    forall sl | sl in tried ensures sl in s.tried && s.tried[sl] == order[tried[sl]] {
      TriedAt(h, s.key, s.info, s.tried, order[tried[sl]]);
    }
    forall sl | sl in s.tried ensures sl in tried {
      IdSetMembers(order, |order|, s.tried[sl]);
      var k :| 0 <= k < |order| && order[k] == s.tried[sl];
    }
  }

  // The new table, restored bucket by bucket and position by position.

  predicate Before(sl: Slot, b: nat, p: nat) {
    sl.bucket < b || (sl.bucket == b && sl.pos < p)
  }

  ghost predicate LoadedNew(s: State, order: seq<int>, b: nat, p: nat, table: map<Slot, int>) {
    && (forall sl :: sl in table <==> sl in s.new_ && Before(sl, b, p))
    && (forall sl :: sl in table ==> 0 <= table[sl] < |order| && order[table[sl]] == s.new_[sl])
  }

  /** Skipping free positions changes nothing. */
  lemma LoadedNewSkips(s: State, order: seq<int>, b: nat, p: nat, q: nat, table: map<Slot, int>)
    requires LoadedNew(s, order, b, p, table) && p <= q
    requires forall i :: p <= i < q ==> Slot(b, i) !in s.new_
    ensures LoadedNew(s, order, b, q, table)
  {
    forall sl | sl in s.new_ && Before(sl, b, q) ensures Before(sl, b, p) {
      assert sl == Slot(sl.bucket, sl.pos);
    }
  }

  lemma LoadedNewPlaces(s: State, order: seq<int>, b: nat, q: nat, table: map<Slot, int>, k: int)
    requires LoadedNew(s, order, b, q, table) && Slot(b, q) in s.new_
    requires 0 <= k < |order| && order[k] == s.new_[Slot(b, q)]
    ensures Slot(b, q) !in table
    ensures LoadedNew(s, order, b, q + 1, table[Slot(b, q) := k])
  {
    forall sl | sl in s.new_ && Before(sl, b, q + 1) ensures sl == Slot(b, q) || Before(sl, b, q) {
      assert sl == Slot(sl.bucket, sl.pos);
    }
  }

  lemma LoadedInfoPlaces(s: State, order: seq<int>, table: map<Slot, int>, info: map<int, AddrInfo>, sl: Slot, k: int)
    requires AllIn(order, s.info) && LoadedInfo(s, order, |order|, table, info)
    requires sl !in table && 0 <= k < |order|
    ensures LoadedInfo(s, order, |order|, table[sl := k], info[k := info[k].(refCount := info[k].refCount + 1)])
  {
    forall m ensures Refs(table[sl := k], m) == if k == m then Refs(table, m) + {sl} else Refs(table, m)
             ensures k == m ==> |Refs(table[sl := k], m)| == |Refs(table, m)| + 1
    {
      RefsAfterInsertion(table, sl, k, m);
    }
  }

  /** Before its last slot is restored, an entry has room for one more reference. */
  lemma RoomForReference(s: State, order: seq<int>, b: nat, q: nat, table: map<Slot, int>, k: int)
    requires LoadedNew(s, order, b, q, table) && Slot(b, q) in s.new_
    requires AllIn(order, s.info) && 0 <= k < |order| && order[k] == s.new_[Slot(b, q)]
    requires RefsOk(s.info, s.new_, {})
    ensures |Refs(table, k)| < NEW_BUCKETS_PER_ADDRESS
  {
    assert Refs(table, k) + {Slot(b, q)} <= Refs(s.new_, order[k]);
    assert Slot(b, q) !in Refs(table, k);
    SubsetSize(Refs(table, k) + {Slot(b, q)}, Refs(s.new_, order[k]));
  }

  lemma {:induction false} SubsetSize(a: set<Slot>, b: set<Slot>)
    requires a <= b
    ensures |a| <= |b|
  {
    assert b == a + (b - a);
  }

  /** The n-th stored index of a bucket belongs to the next occupied position. */
  lemma {:induction false} NextOccupied(table: map<Slot, int>, index: map<int, int>, b: nat, p: nat, n: nat) returns (q: nat)
    requires forall sl :: sl in table ==> table[sl] in index
    requires p <= BUCKET_SIZE && n == |BucketTokens(table, index, b, p)| < |BucketTokens(table, index, b, BUCKET_SIZE)|
    ensures p <= q < BUCKET_SIZE && Slot(b, q) in table
    ensures forall i :: p <= i < q ==> Slot(b, i) !in table
    ensures BucketTokens(table, index, b, BUCKET_SIZE)[n] == Number(index[table[Slot(b, q)]])
    ensures |BucketTokens(table, index, b, q + 1)| == n + 1
    decreases BUCKET_SIZE - p
  {
    BucketTokensGrow(table, index, b, p + 1, BUCKET_SIZE);
    if Slot(b, p) in table {
      q := p;
    } else {
      q := NextOccupied(table, index, b, p + 1, n);
    }
  }

  lemma {:induction false} BucketTokensGrow(table: map<Slot, int>, index: map<int, int>, b: nat, p: nat, q: nat)
    requires forall sl :: sl in table ==> table[sl] in index
    requires p <= q
    ensures |BucketTokens(table, index, b, p)| <= |BucketTokens(table, index, b, q)|
    ensures BucketTokens(table, index, b, q)[..|BucketTokens(table, index, b, p)|] == BucketTokens(table, index, b, p)
    decreases q
  {
    if p < q {
      BucketTokensGrow(table, index, b, p, q - 1);
    }
  }

  /** When the counts agree, no occupied position is left. */
  lemma {:induction false} NoneLeft(table: map<Slot, int>, index: map<int, int>, b: nat, p: nat, q: nat)
    requires forall sl :: sl in table ==> table[sl] in index
    requires p <= q && |BucketTokens(table, index, b, p)| == |BucketTokens(table, index, b, q)|
    ensures forall i :: p <= i < q ==> Slot(b, i) !in table
    decreases q
  {
    if p < q {
      BucketTokensGrow(table, index, b, p, q - 1);
      NoneLeft(table, index, b, p, q - 1);
    }
  }

  // ---------------------------------------------------------------------------
  // The stages of a load together.

  /** `order` numbers the entries of a consistent manager, the tried ones from `first` on. */
  ghost predicate Saved(h: Hasher, s: State, order: seq<int>, first: nat) {
    && Inv(h, s) && Enumerates(order, s.info)
    && first == s.nNew && |order| == s.nNew + s.nTried && first <= |order|
    && (forall k :: 0 <= k < |order| ==> (first <= k <==> s.info[order[k]].inTried))
  }

  /** How far a load is: entries read, and the slot up to which the new table is restored. */
  datatype Progress = Progress(entries: nat, bucket: nat, pos: nat)

  /** What is known of a load in progress, named, so that a proof can use one part without the others. */
  datatype Aspect = Origin | Infos | Addresses | Vector | Sizes | TriedSlots | NewSlots

  ghost predicate Agrees(h: Hasher, s: State, order: seq<int>, first: nat, t: State, g: Progress, a: Aspect) {
    && g.entries <= |order| && AllIn(order, s.info)
    && match a
       case Origin => Saved(h, s, order, first) && t.key == s.key && t.nNew == first && t.nTried == s.nTried
       case Infos => LoadedInfo(s, order, g.entries, t.new_, t.info)
       case Addresses => LoadedAddr(s, order, g.entries, t.addr)
       case Vector => LoadedRandom(g.entries, t.random)
       case Sizes => |t.info| == g.entries && |TriedIds(t.info)| == if g.entries < first then 0 else g.entries - first
       case TriedSlots => LoadedTried(h, s, order, first, g.entries, t.tried)
       case NewSlots => LoadedNew(s, order, g.bucket, g.pos, t.new_)
  }

  /** `t` is a load of `s` in progress. */
  ghost predicate Loading(h: Hasher, s: State, order: seq<int>, first: nat, t: State, g: Progress) {
    forall a :: Agrees(h, s, order, first, t, g, a)
  }

  lemma LoadingParts(h: Hasher, s: State, order: seq<int>, first: nat, t: State, g: Progress)
    requires Loading(h, s, order, first, t, g)
    ensures g.entries <= |order| && Saved(h, s, order, first)
    ensures t.key == s.key && t.nNew == first && t.nTried == s.nTried
    ensures LoadedInfo(s, order, g.entries, t.new_, t.info) && LoadedAddr(s, order, g.entries, t.addr)
    ensures LoadedRandom(g.entries, t.random) && LoadedTried(h, s, order, first, g.entries, t.tried)
    ensures |t.info| == g.entries && |TriedIds(t.info)| == if g.entries < first then 0 else g.entries - first
    ensures LoadedNew(s, order, g.bucket, g.pos, t.new_)
  {
    assert Agrees(h, s, order, first, t, g, Origin) && Agrees(h, s, order, first, t, g, Infos);
    assert Agrees(h, s, order, first, t, g, Addresses) && Agrees(h, s, order, first, t, g, Vector);
    assert Agrees(h, s, order, first, t, g, Sizes) && Agrees(h, s, order, first, t, g, TriedSlots);
    assert Agrees(h, s, order, first, t, g, NewSlots);
  }

  lemma LoadingStarts(h: Hasher, s: State, order: seq<int>, first: nat, t: State)
    requires Saved(h, s, order, first) && t.key == s.key && t.nNew == first && t.nTried == s.nTried
    requires t.info == map[] && t.addr == map[] && t.random == [] && t.tried == map[] && t.new_ == map[]
    ensures Loading(h, s, order, first, t, Progress(0, 0, 0))
  {
    assert TriedIds(t.info) == {};
  }

  lemma AddingTried(info: map<int, AddrInfo>, id: int, x: AddrInfo)
    requires id !in info
    ensures |info[id := x]| == |info| + 1
    ensures |TriedIds(info[id := x])| == |TriedIds(info)| + if x.inTried then 1 else 0
  {
    assert info[id := x].Keys == info.Keys + {id};
    assert |info[id := x].Keys| == |info[id := x]|;
    assert |info.Keys| == |info|;
    assert TriedIds(info[id := x]) == if x.inTried then TriedIds(info) + {id} else TriedIds(info);
  }

  lemma LoadingIgnoresIdCount(h: Hasher, s: State, order: seq<int>, first: nat, t: State, g: Progress, idCount: int)
    requires Loading(h, s, order, first, t, g)
    ensures Loading(h, s, order, first, t.(idCount := idCount), g)
  {
    forall a ensures Agrees(h, s, order, first, t.(idCount := idCount), g, a) {
      assert Agrees(h, s, order, first, t, g, a);
    }
  }

  /** An entry read from the stream gets an id, an address and a place in the random vector. */
  function Enter(t: State, id: int, x: AddrInfo): State {
    t.(info := t.info[id := x.(randomPos := |t.random|)],
       addr := t.addr[x.service.ip := id],
       random := t.random + [id])
  }

  /** A tried entry also gets the next id and its slot. */
  function EnterTried(h: Hasher, t: State, x: AddrInfo): State {
    Enter(t, t.idCount, x.(inTried := true))
      .(tried := t.tried[h.TriedSlot(t.key, x.service) := t.idCount], idCount := t.idCount + 1)
  }

  lemma NoSlotsBeforeFirst(s: State, order: seq<int>, table: map<Slot, int>)
    requires LoadedNew(s, order, 0, 0, table)
    ensures table == map[]
  {
  }

  lemma OriginParts(h: Hasher, s: State, order: seq<int>, first: nat, t: State, g: Progress)
    requires Agrees(h, s, order, first, t, g, Origin)
    ensures g.entries <= |order| && AllIn(order, s.info) && Distinct(order) && AddrOk(s.info, s.addr)
    ensures first <= |order| && forall k :: 0 <= k < |order| ==> (first <= k <==> s.info[order[k]].inTried)
    ensures TriedOk(h, s.key, s.info, s.tried) && t.key == s.key
    ensures NewOk(h, s.key, s.info, s.new_) && RefsOk(s.info, s.new_, {})
  {
    CoreParts(h, s, {});
  }

  /** Entry n is entered: what does not depend on the table it belongs to. */
  lemma EnterStep(h: Hasher, s: State, order: seq<int>, first: nat, t: State, n: nat, t': State, a: Aspect)
    requires Loading(h, s, order, first, t, Progress(n, 0, 0)) && n < |order| && order[n] in s.info
    requires t'.info == Enter(t, n, Reloaded(s.info[order[n]]).(inTried := n >= first)).info
    requires t'.addr == Enter(t, n, Reloaded(s.info[order[n]])).addr && t'.random == t.random + [n]
    requires t'.new_ == t.new_ && t'.key == t.key && t'.nNew == t.nNew && t'.nTried == t.nTried
    requires a != TriedSlots
    ensures Agrees(h, s, order, first, t', Progress(n + 1, 0, 0), a)
  {
    var g := Progress(n, 0, 0);
    assert Agrees(h, s, order, first, t, g, Origin);
    OriginParts(h, s, order, first, t, g);
    assert Agrees(h, s, order, first, t, g, Vector);
    match a
    case Infos =>
      assert Agrees(h, s, order, first, t, g, Infos) && Agrees(h, s, order, first, t, g, NewSlots);
      NoSlotsBeforeFirst(s, order, t.new_);
      LoadInfo(s, order, n, t.info);
    case Addresses =>
      assert Agrees(h, s, order, first, t, g, Addresses);
      LoadAddr(s, order, n, t.addr);
    case Sizes =>
      assert Agrees(h, s, order, first, t, g, Sizes) && Agrees(h, s, order, first, t, g, Infos);
      AddingTried(t.info, n, LoadedEntry(s.info[order[n]], n));
    case NewSlots =>
      assert Agrees(h, s, order, first, t, g, NewSlots);
    case _ =>
  }

  lemma LoadNewStep(h: Hasher, s: State, order: seq<int>, first: nat, t: State, n: nat)
    requires Loading(h, s, order, first, t, Progress(n, 0, 0)) && n < first
    ensures n < |order| && order[n] in s.info
    ensures Loading(h, s, order, first, Enter(t, n, Reloaded(s.info[order[n]])), Progress(n + 1, 0, 0))
  {
    assert Agrees(h, s, order, first, t, Progress(n, 0, 0), Origin);
    var t' := Enter(t, n, Reloaded(s.info[order[n]]));
    var g' := Progress(n + 1, 0, 0);
    forall a ensures Agrees(h, s, order, first, t', g', a) {
      if a == TriedSlots {
        assert Agrees(h, s, order, first, t, Progress(n, 0, 0), TriedSlots);
      } else {
        EnterStep(h, s, order, first, t, n, t', a);
      }
    }
  }

  lemma LoadTriedStep(h: Hasher, s: State, order: seq<int>, first: nat, t: State, n: nat)
    requires Loading(h, s, order, first, t, Progress(n, 0, 0)) && first <= n < |order| && t.idCount == n
    ensures order[n] in s.info && h.TriedSlot(t.key, s.info[order[n]].service) !in t.tried
    ensures Loading(h, s, order, first, EnterTried(h, t, Reloaded(s.info[order[n]])), Progress(n + 1, 0, 0))
  {
    var g := Progress(n, 0, 0);
    assert Agrees(h, s, order, first, t, g, Origin);
    OriginParts(h, s, order, first, t, g);
    assert Agrees(h, s, order, first, t, g, TriedSlots);
    LoadTriedSlot(h, s, order, first, n, t.tried);
    var t' := EnterTried(h, t, Reloaded(s.info[order[n]]));
    var g' := Progress(n + 1, 0, 0);
    forall a ensures Agrees(h, s, order, first, t', g', a) {
      if a != TriedSlots {
        EnterStep(h, s, order, first, t, n, t', a);
      }
    }
  }

  /** The next stored index of a bucket leads to a free slot and an entry with room for it. */
  lemma NextIsFree(h: Hasher, s: State, order: seq<int>, first: nat, t: State, b: nat, p: nat, q: nat, k: int)
    requires Loading(h, s, order, first, t, Progress(|order|, b, p))
    requires p <= q && (forall i :: p <= i < q ==> Slot(b, i) !in s.new_) && Slot(b, q) in s.new_
    requires 0 <= k < |order| && order[k] == s.new_[Slot(b, q)]
    ensures k in t.info && Slot(b, q) == h.NewSlotIn(t.key, b, t.info[k].service)
    ensures Slot(b, q) !in t.new_ && t.info[k].refCount < NEW_BUCKETS_PER_ADDRESS
    ensures LoadedNew(s, order, b, q + 1, t.new_[Slot(b, q) := k])
  {
    var g := Progress(|order|, b, p);
    assert Agrees(h, s, order, first, t, g, Origin) && Agrees(h, s, order, first, t, g, Infos);
    assert Agrees(h, s, order, first, t, g, NewSlots);
    OriginParts(h, s, order, first, t, g);
    LoadedNewSkips(s, order, b, p, q, t.new_);
    LoadedNewPlaces(s, order, b, q, t.new_, k);
    RoomForReference(s, order, b, q, t.new_, k);
  }

  lemma LoadSlotStep(h: Hasher, s: State, order: seq<int>, first: nat, t: State, b: nat, p: nat, q: nat, k: int)
    requires Loading(h, s, order, first, t, Progress(|order|, b, p))
    requires 0 <= k < |order| && k in t.info && Slot(b, q) !in t.new_
    requires LoadedNew(s, order, b, q + 1, t.new_[Slot(b, q) := k])
    ensures Loading(h, s, order, first, Place(t, k, Slot(b, q)), Progress(|order|, b, q + 1))
  {
    var g, g' := Progress(|order|, b, p), Progress(|order|, b, q + 1);
    var t' := Place(t, k, Slot(b, q));
    forall a ensures Agrees(h, s, order, first, t', g', a) {
      assert Agrees(h, s, order, first, t, g, a);
      match a
      case Infos => LoadedInfoPlaces(s, order, t.new_, t.info, Slot(b, q), k);
      case Sizes => TriedIdsAfterUpdate(t.info, k, t.info[k].(refCount := t.info[k].refCount + 1));
      case _ =>
    }
  }

  lemma LastPosition(h: Hasher, s: State, order: seq<int>, b: nat, p: nat, table: map<Slot, int>)
    requires NewOk(h, s.key, s.info, s.new_) && LoadedNew(s, order, b, p, table) && p <= BUCKET_SIZE
    requires forall i :: p <= i < BUCKET_SIZE ==> Slot(b, i) !in s.new_
    ensures LoadedNew(s, order, b + 1, 0, table)
  {
    forall sl | sl in s.new_ && Before(sl, b + 1, 0) ensures Before(sl, b, p) {
      assert sl == Slot(sl.bucket, sl.pos);
    }
  }

  lemma BucketDone(h: Hasher, s: State, order: seq<int>, first: nat, t: State, b: nat, p: nat)
    requires Loading(h, s, order, first, t, Progress(|order|, b, p)) && p <= BUCKET_SIZE
    requires forall i :: p <= i < BUCKET_SIZE ==> Slot(b, i) !in s.new_
    ensures Loading(h, s, order, first, t, Progress(|order|, b + 1, 0))
  {
    var g, g' := Progress(|order|, b, p), Progress(|order|, b + 1, 0);
    forall a ensures Agrees(h, s, order, first, t, g', a) {
      assert Agrees(h, s, order, first, t, g, a);
      if a == NewSlots {
        assert Agrees(h, s, order, first, t, g, Origin);
        OriginParts(h, s, order, first, t, g);
        LastPosition(h, s, order, b, p, t.new_);
      }
    }
  }

  /** All stages of a load are complete. */
  ghost predicate Complete(h: Hasher, s: State, order: seq<int>, first: nat, t: State) {
    Loading(h, s, order, first, t, Progress(|order|, NEW_BUCKET_COUNT, 0)) && t.idCount == |order|
  }

  lemma RestoredTables(h: Hasher, s: State, order: seq<int>, first: nat, t: State)
    requires Complete(h, s, order, first, t)
    ensures SameSlots(order, s.new_, t.new_) && SameSlots(order, s.tried, t.tried)
  {
    LoadingParts(h, s, order, first, t, Progress(|order|, NEW_BUCKET_COUNT, 0));
    assert TriedOk(h, s.key, s.info, s.tried) && NewOk(h, s.key, s.info, s.new_) by { CoreParts(h, s, {}); }
    LoadedTriedIsSame(h, s, order, first, t.tried);
  }

  lemma RestoredEntry(h: Hasher, s: State, order: seq<int>, first: nat, t: State, k: int)
    requires Complete(h, s, order, first, t) && 0 <= k < |order|
    ensures order[k] in s.info && k in t.info && SameEntry(s.info[order[k]], t.info[k]) && t.info[k].randomPos == k
    ensures t.info[k].inTried || t.info[k].refCount != 0
  {
    RestoredTables(h, s, order, first, t);
    LoadingParts(h, s, order, first, t, Progress(|order|, NEW_BUCKET_COUNT, 0));
    RefsRenumbered(order, s.new_, t.new_, k);
    assert RefsOk(s.info, s.new_, {}) by { CoreParts(h, s, {}); }
  }

  /** A complete load is the saved manager up to renumbering. */
  lemma RestoredIsSame(h: Hasher, s: State, order: seq<int>, first: nat, t: State)
    requires Complete(h, s, order, first, t)
    ensures SameUpTo(order, s, t)
  {
    RestoredTables(h, s, order, first, t);
    LoadingParts(h, s, order, first, t, Progress(|order|, NEW_BUCKET_COUNT, 0));
    forall k | 0 <= k < |order| ensures SameEntry(s.info[order[k]], t.info[k]) {
      RestoredEntry(h, s, order, first, t, k);
    }
    LoadedAddrIsSame(h, s, order, first, t.addr);
  }

  lemma RestoredVector(h: Hasher, s: State, order: seq<int>, first: nat, t: State)
    requires Complete(h, s, order, first, t)
    ensures RandomOk(t.info, t.random) && CountsOk(t)
  {
    var g := Progress(|order|, NEW_BUCKET_COUNT, 0);
    assert Agrees(h, s, order, first, t, g, Infos) && Agrees(h, s, order, first, t, g, Vector);
    assert CountsOk(t) by {
      assert Agrees(h, s, order, first, t, g, Sizes) && Agrees(h, s, order, first, t, g, Origin);
    }
  }

  /** And it is consistent again. */
  lemma RestoredKeepsInv(h: Hasher, s: State, order: seq<int>, first: nat, t: State)
    requires Complete(h, s, order, first, t)
    ensures Inv(h, t)
  {
    RestoredIsSame(h, s, order, first, t);
    RestoredVector(h, s, order, first, t);
    assert Saved(h, s, order, first) by { LoadingParts(h, s, order, first, t, Progress(|order|, NEW_BUCKET_COUNT, 0)); }
    RenumberingKeepsInv(h, order, s, t);
  }

  lemma LoadedAddrIsSame(h: Hasher, s: State, order: seq<int>, first: nat, addr: map<NetAddr, int>)
    requires Saved(h, s, order, first) && LoadedAddr(s, order, |order|, addr)
    ensures forall a :: a in addr <==> a in s.addr
    ensures forall a :: a in addr ==> 0 <= addr[a] < |order| && order[addr[a]] == s.addr[a]
  {
    assert AddrOk(s.info, s.addr) by { CoreParts(h, s, {}); }
    forall a | a in s.addr ensures a in addr {
      IdSetMembers(order, |order|, s.addr[a]);
      var k :| 0 <= k < |order| && order[k] == s.addr[a];
    }
  }

  // ---------------------------------------------------------------------------
  // What holds of a load whatever the stream.

  datatype Numbering = InVector | InRange

  ghost predicate NumberedBy(info: map<int, AddrInfo>, random: seq<int>, low: int, high: int, c: Numbering) {
    match c
    case InVector => RandomOk(info, random)
    case InRange => (forall k :: 0 <= k < low ==> k in info) && (forall k :: k in info ==> k < high)
  }

  /** Ids below `low` are known, known ids are below `high`, and the random vector lists them. */
  ghost predicate Numbered(info: map<int, AddrInfo>, random: seq<int>, low: int, high: int) {
    forall c :: NumberedBy(info, random, low, high, c)
  }

  lemma NumberedParts(info: map<int, AddrInfo>, random: seq<int>, low: int, high: int)
    requires Numbered(info, random, low, high)
    ensures RandomOk(info, random)
    ensures (forall k :: 0 <= k < low ==> k in info) && (forall k :: k in info ==> k < high)
  {
    assert NumberedBy(info, random, low, high, InVector) && NumberedBy(info, random, low, high, InRange);
  }

  lemma NumberedEnter(info: map<int, AddrInfo>, random: seq<int>, low: int, high: int, x: AddrInfo)
    requires Numbered(info, random, low, high) && x.randomPos == |random|
    ensures Numbered(info[high := x], random + [high], low, high + 1)
    ensures low == high ==> Numbered(info[high := x], random + [high], low + 1, high + 1)
  {
    NumberedParts(info, random, low, high);
    CreateKeepsRandom(info, random, high, x);
  }

  /** After the new entries: none if their number was negative. */
  lemma NumberedEnds(info: map<int, AddrInfo>, random: seq<int>, n: nat, nNew: int)
    requires Numbered(info, random, n, n) && (n == nNew || (n == 0 && nNew < 0 && info == map[]))
    ensures Numbered(info, random, nNew, nNew)
  {
    NumberedParts(info, random, n, n);
  }

  lemma NumberedUpdate(info: map<int, AddrInfo>, random: seq<int>, low: int, high: int, id: int, x: AddrInfo)
    requires Numbered(info, random, low, high) && id in info && x.randomPos == info[id].randomPos
    ensures Numbered(info[id := x], random, low, high)
  {
    NumberedParts(info, random, low, high);
    UpdateKeepsRandom(info, random, id, x);
  }

  // ---------------------------------------------------------------------------
  // What a load finds in a saved stream.

  lemma SavedInLoadOrder(h: Hasher, s: State, ids: seq<int>)
    requires Inv(h, s) && Enumerates(ids, s.info)
    ensures s.nNew >= 0 && Saved(h, s, LoadOrder(s.info, ids), s.nNew)
  {
    var order := LoadOrder(s.info, ids);
    var news, trieds := NewAmong(s.info, ids, |ids|), TriedAmong(s.info, ids, |ids|);
    LoadOrderEnumerates(h, s, ids);
    AmongMembers(s.info, ids, |ids|);
    assert Sorted(s.info) by { CoreParts(h, s, {}); }
    forall k | 0 <= k < |order| ensures |news| <= k <==> s.info[order[k]].inTried {
      assert k < |news| ==> order[k] == news[k];
      assert k >= |news| ==> order[k] == trieds[k - |news|];
    }
  }

  /** The stored indices are the places of their entries in the load order. */
  ghost predicate IndexesInto(order: seq<int>, first: nat, table: map<Slot, int>, index: map<int, int>) {
    forall sl :: sl in table ==>
      table[sl] in index && 0 <= index[table[sl]] < first <= |order| && order[index[table[sl]]] == table[sl]
  }

  lemma IndexInLoadOrder(h: Hasher, s: State, ids: seq<int>)
    requires Inv(h, s) && Enumerates(ids, s.info)
    ensures s.nNew >= 0 && IndexesInto(LoadOrder(s.info, ids), s.nNew, s.new_, IndexAmong(s.info, ids, |ids|))
  {
    LoadOrderEnumerates(h, s, ids);
    IndexCovers(h, s, ids);
  }

  /** Tokens start with the entries order[from..upto]. */
  ghost predicate StartsWithEntries(input: seq<Token>, s: State, order: seq<int>, from: nat, upto: nat) {
    && from <= upto <= |order| && upto - from <= |input| && AllIn(order, s.info)
    && forall k :: 0 <= k < upto - from ==> input[k] == Entry(Save(s.info[order[from + k]]))
  }

  lemma StreamParts(h: Hasher, s: State, ids: seq<int>)
    requires Inv(h, s) && Enumerates(ids, s.info)
    ensures var input, order, n := Stream(h, s, ids), LoadOrder(s.info, ids), |NewAmong(s.info, ids, |ids|)|;
            var index := IndexAmong(s.info, ids, |ids|);
            && |input| >= 6 + |order| && input[..6] == Header(s.key, s.nNew, s.nTried) && n <= |order|
            && StartsWithEntries(input[6..], s, order, 0, n)
            && StartsWithEntries(input[6..][n..], s, order, n, |order|)
            && (forall sl :: sl in s.new_ ==> s.new_[sl] in index)
            && input[6..][n..][|order| - n..] == TableTokens(s.new_, index, 0)
  {
    LoadOrderEnumerates(h, s, ids);
    IndexCovers(h, s, ids);
    assert AllIn(NewAmong(s.info, ids, |ids|), s.info) && AllIn(TriedAmong(s.info, ids, |ids|), s.info) by {
      AmongMembers(s.info, ids, |ids|);
    }
    var input := Stream(h, s, ids);
    var news, trieds := NewAmong(s.info, ids, |ids|), TriedAmong(s.info, ids, |ids|);
    var a, b := EntryTokens(s.info, news), EntryTokens(s.info, trieds);
    var c := TableTokens(s.new_, IndexAmong(s.info, ids, |ids|), 0);
    Cut(Header(s.key, s.nNew, s.nTried), a, b, c);
    assert input[6..] == a + b + c && input[6..][|news|..] == b + c;
    EntriesOf(s, news, trieds, c);
  }

  lemma EntriesOf(s: State, news: seq<int>, trieds: seq<int>, c: seq<Token>)
    requires AllIn(news, s.info) && AllIn(trieds, s.info)
    ensures var a, b := EntryTokens(s.info, news), EntryTokens(s.info, trieds);
            && StartsWithEntries(a + b + c, s, news + trieds, 0, |news|)
            && StartsWithEntries(b + c, s, news + trieds, |news|, |news| + |trieds|)
  {
  }

  lemma Cut(x: seq<Token>, a: seq<Token>, b: seq<Token>, c: seq<Token>)
    ensures (x + a + b + c)[..|x|] == x && (x + a + b + c)[|x|..] == a + b + c
    ensures (a + b + c)[|a|..] == b + c && (b + c)[|b|..] == c
  {
  }

  /** What is still to be read, part by part. */
  datatype Part = NewEntries | TriedEntries | Buckets

  /** Tokens that hold the entries in load order and then the buckets, seen from the start of each part. */
  ghost predicate AheadOf(input: seq<Token>, s: State, order: seq<int>, first: nat, index: map<int, int>, part: Part, c: Part) {
    && first <= |order|
    && (part == NewEntries ==> first <= |input| && (c == NewEntries ==> StartsWithEntries(input, s, order, 0, first)))
    && var input := if part == NewEntries then input[first..] else input;
       && (part != Buckets ==> |order| - first <= |input| && (c == TriedEntries ==> StartsWithEntries(input, s, order, first, |order|)))
       && var input := if part != Buckets then input[|order| - first..] else input;
          c == Buckets ==> IndexesInto(order, first, s.new_, index) && input == TableTokens(s.new_, index, 0)
  }

  ghost predicate Ahead(input: seq<Token>, s: State, order: seq<int>, first: nat, index: map<int, int>, part: Part) {
    forall c :: AheadOf(input, s, order, first, index, part, c)
  }

  /** What Unserialize makes of the header; the key size must be right. */
  datatype HeaderResult = BadHeader | GoodHeader(key: nat, nNew: int, nTried: int, nUBuckets: int, usable: bool)

  function ReadHeader(input: seq<Token>): (r: HeaderResult)
    ensures r.GoodHeader? ==> |input| >= 6 && (r.usable ==> r.nUBuckets == NEW_BUCKET_COUNT)
  {
    if |input| < 6 || (exists i :: 0 <= i < 6 && !input[i].Number?) || input[2].n < 0 then BadHeader
    else if input[1].n != KEY_SIZE then BadHeader
    else
      var nUBuckets := if input[0].n != 0 then FlipBit30(input[5].n) else input[5].n;
      GoodHeader(input[2].n, input[3].n, input[4].n, nUBuckets,
                 input[0].n == FORMAT && nUBuckets == NEW_BUCKET_COUNT)
  }

  lemma HeaderRoundTrip(key: nat, nNew: int, nTried: int, input: seq<Token>)
    requires |input| >= 6 && input[..6] == Header(key, nNew, nTried)
    ensures ReadHeader(input) == GoodHeader(key, nNew, nTried, NEW_BUCKET_COUNT, true)
  {
    assert forall i :: 0 <= i < 6 ==> input[i] == input[..6][i];
  }

  /** The first numbers of a stream: version, key size, key, counts, and the number of buckets with bit 30 flipped. */
  lemma StreamStarts(h: Hasher, s: State, ids: seq<int>)
    requires Inv(h, s) && Enumerates(ids, s.info)
    ensures var input := Stream(h, s, ids);
            && |input| >= 6 && input[0] == Number(1) && input[1] == Number(32) && input[2] == Number(s.key)
            && input[3] == Number(s.nNew) && input[4] == Number(s.nTried) && input[5] == Number(0x4000_0400)
  {
    StreamParts(h, s, ids);
    var input := Stream(h, s, ids);
    assert forall i :: 0 <= i < 6 ==> input[i] == input[..6][i];
  }

  /** What is made of any six numbers: only the key size is checked, and version 0 has the number of buckets as it is. */
  lemma HeaderOf(version: int, keySize: int, key: nat, nNew: int, nTried: int, buckets: int, rest: seq<Token>)
    ensures var r := ReadHeader([Number(version), Number(keySize), Number(key), Number(nNew), Number(nTried), Number(buckets)] + rest);
            && (r.GoodHeader? <==> keySize == 32)
            && (r.GoodHeader? ==>
                  && r.key == key && r.nNew == nNew && r.nTried == nTried
                  && (version == 0 ==> r.nUBuckets == buckets)
                  && (version != 0 && 0 <= buckets < 0x4000_0000 ==> r.nUBuckets == buckets + 0x4000_0000)
                  && (version != 0 && 0x4000_0000 <= buckets < 0x8000_0000 ==> r.nUBuckets == buckets - 0x4000_0000)
                  && (r.usable <==> version == 1 && r.nUBuckets == 1024))
  {
  }

  lemma SavedHeader(h: Hasher, s: State, ids: seq<int>)
    requires Inv(h, s) && Enumerates(ids, s.info)
    ensures var input, order := Stream(h, s, ids), LoadOrder(s.info, ids);
            && s.nNew >= 0 && Saved(h, s, order, s.nNew) && |input| >= 6
            && ReadHeader(input) == GoodHeader(s.key, s.nNew, s.nTried, NEW_BUCKET_COUNT, true)
            && Ahead(input[6..], s, order, s.nNew, IndexAmong(s.info, ids, |ids|), NewEntries)
  {
    SavedInLoadOrder(h, s, ids);
    IndexInLoadOrder(h, s, ids);
    LoadOrderEnumerates(h, s, ids);
    StreamParts(h, s, ids);
    HeaderRoundTrip(s.key, s.nNew, s.nTried, Stream(h, s, ids));
  }

  /** The tokens are the saved form of the manager. */
  ghost predicate SavedForm(h: Hasher, s: State, ids: seq<int>, input: seq<Token>) {
    Inv(h, s) && Enumerates(ids, s.info) && input == Stream(h, s, ids)
  }

  lemma NewAhead(input: seq<Token>, s: State, order: seq<int>, first: nat, index: map<int, int>, n: nat)
    requires Ahead(input, s, order, first, index, NewEntries) && n <= first
    ensures first <= |input| && first <= |order|
    ensures n < first ==> order[n] in s.info && input[n] == Entry(Save(s.info[order[n]]))
    ensures n == first ==> Ahead(input[n..], s, order, first, index, TriedEntries)
  {
    assert AheadOf(input, s, order, first, index, NewEntries, NewEntries);
    if n == first {
      forall c ensures AheadOf(input[n..], s, order, first, index, TriedEntries, c) {
        assert AheadOf(input, s, order, first, index, NewEntries, c);
      }
    }
  }

  lemma TriedAhead(input: seq<Token>, s: State, order: seq<int>, first: nat, index: map<int, int>, n: nat)
    requires Ahead(input, s, order, first, index, TriedEntries) && n <= |order| - first
    ensures |order| - first <= |input| && first <= |order|
    ensures n < |order| - first ==> order[first + n] in s.info && input[n] == Entry(Save(s.info[order[first + n]]))
    ensures n == |order| - first ==> Ahead(input[n..], s, order, first, index, Buckets)
  {
    assert AheadOf(input, s, order, first, index, TriedEntries, TriedEntries);
    if n == |order| - first {
      forall c ensures AheadOf(input[n..], s, order, first, index, Buckets, c) {
        assert AheadOf(input, s, order, first, index, TriedEntries, c);
      }
    }
  }

  // The buckets.

  datatype BucketPart = Indexing | Rest

  ghost predicate BucketsBy(rest: seq<Token>, s: State, order: seq<int>, first: nat, index: map<int, int>, b: nat, c: BucketPart) {
    && (c == Indexing ==> IndexesInto(order, first, s.new_, index))
    && (c == Rest ==> (forall sl :: sl in s.new_ ==> s.new_[sl] in index) && rest == TableTokens(s.new_, index, b))
  }

  /** The buckets from b on are ahead. */
  ghost predicate BucketsAhead(rest: seq<Token>, s: State, order: seq<int>, first: nat, index: map<int, int>, b: nat) {
    forall c :: BucketsBy(rest, s, order, first, index, b, c)
  }

  ghost predicate InBucketBy(input: seq<Token>, nSize: int, s: State, order: seq<int>, first: nat, index: map<int, int>,
                             b: nat, p: nat, n: nat, c: BucketPart)
  {
    && (c == Indexing ==> IndexesInto(order, first, s.new_, index))
    && (c == Rest ==>
          && (forall sl :: sl in s.new_ ==> s.new_[sl] in index)
          && nSize == |BucketTokens(s.new_, index, b, BUCKET_SIZE)| && p <= BUCKET_SIZE
          && n == |BucketTokens(s.new_, index, b, p)|
          && input == BucketTokens(s.new_, index, b, BUCKET_SIZE) + TableTokens(s.new_, index, b + 1))
  }

  /** In bucket b, the n indices read so far are those of the first p positions. */
  ghost predicate InBucket(input: seq<Token>, nSize: int, s: State, order: seq<int>, first: nat, index: map<int, int>,
                           b: nat, p: nat, n: nat)
  {
    forall c :: InBucketBy(input, nSize, s, order, first, index, b, p, n, c)
  }

  lemma FirstBucket(input: seq<Token>, s: State, order: seq<int>, first: nat, index: map<int, int>)
    requires Ahead(input, s, order, first, index, Buckets)
    ensures BucketsAhead(input, s, order, first, index, 0)
  {
    assert AheadOf(input, s, order, first, index, Buckets, Buckets);
  }

  lemma EnterBucket(rest: seq<Token>, s: State, order: seq<int>, first: nat, index: map<int, int>, b: nat)
    requires BucketsAhead(rest, s, order, first, index, b) && b < NEW_BUCKET_COUNT
    ensures rest != [] && rest[0].Number?
    ensures InBucket(rest[1..], rest[0].n, s, order, first, index, b, 0, 0)
  {
    assert BucketsBy(rest, s, order, first, index, b, Indexing) && BucketsBy(rest, s, order, first, index, b, Rest);
    var tokens := BucketTokens(s.new_, index, b, BUCKET_SIZE);
    assert rest == [Number(|tokens|)] + (tokens + TableTokens(s.new_, index, b + 1));
  }

  /** The next index read leads to a free slot, and its entry has room for a reference. */
  lemma NextStored(h: Hasher, s: State, order: seq<int>, first: nat, index: map<int, int>, t: State,
                   b: nat, p: nat, n: nat, input: seq<Token>, nSize: int) returns (q: nat)
    requires InBucket(input, nSize, s, order, first, index, b, p, n) && n < nSize
    requires Loading(h, s, order, first, t, Progress(|order|, b, p))
    ensures n < |input| && input[n].Number? && 0 <= input[n].n < first && input[n].n in t.info
    ensures Slot(b, q) == h.NewSlotIn(t.key, b, t.info[input[n].n].service)
    ensures Slot(b, q) !in t.new_ && t.info[input[n].n].refCount < NEW_BUCKETS_PER_ADDRESS
    ensures Loading(h, s, order, first, Place(t, input[n].n, Slot(b, q)), Progress(|order|, b, q + 1))
    ensures InBucket(input, nSize, s, order, first, index, b, q + 1, n + 1)
  {
    assert InBucketBy(input, nSize, s, order, first, index, b, p, n, Indexing);
    assert InBucketBy(input, nSize, s, order, first, index, b, p, n, Rest);
    q := NextOccupied(s.new_, index, b, p, n);
    assert input[n] == BucketTokens(s.new_, index, b, BUCKET_SIZE)[n];
    NextIsFree(h, s, order, first, t, b, p, q, input[n].n);
    LoadSlotStep(h, s, order, first, t, b, p, q, input[n].n);
  }

  lemma LeaveBucket(h: Hasher, s: State, order: seq<int>, first: nat, index: map<int, int>, t: State,
                    b: nat, p: nat, n: nat, input: seq<Token>, nSize: int)
    requires InBucket(input, nSize, s, order, first, index, b, p, n) && n >= nSize && n <= |input|
    requires Loading(h, s, order, first, t, Progress(|order|, b, p))
    ensures Loading(h, s, order, first, t, Progress(|order|, b + 1, 0))
    ensures BucketsAhead(input[n..], s, order, first, index, b + 1)
  {
    assert InBucketBy(input, nSize, s, order, first, index, b, p, n, Indexing);
    assert InBucketBy(input, nSize, s, order, first, index, b, p, n, Rest);
    BucketTokensGrow(s.new_, index, b, p, BUCKET_SIZE);
    NoneLeft(s.new_, index, b, p, BUCKET_SIZE);
    BucketDone(h, s, order, first, t, b, p);
    assert input[n..] == TableTokens(s.new_, index, b + 1);
  }
}
